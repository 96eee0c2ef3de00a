/** The one-click import debug store of `oneClickImportDebug.store.ts`: an in-memory map from a
    job id to the CSV generated for it, so that a later page can offer it for download. Nothing
    persists across reloads. */
module DebugStore {
  import opened Base

  /** `GeneratedCsvDebug`: the Blob is the sequence of its chunks. */
  datatype GeneratedCsvDebug = GeneratedCsvDebug(blob: seq<string>, filename: string, recordCount: int, createdAt: int)

  /** `Omit<GeneratedCsvDebug, 'createdAt'>`: what the caller hands over. */
  datatype CsvInput = CsvInput(blob: seq<string>, filename: string, recordCount: int)

  /** `{ ...csv, createdAt: now }`. */
  function Stamp(csv: CsvInput, now: int): (e: GeneratedCsvDebug)
    ensures e.blob == csv.blob && e.filename == csv.filename && e.recordCount == csv.recordCount
    ensures e.createdAt == now
  {
    GeneratedCsvDebug(csv.blob, csv.filename, csv.recordCount, now)
  }

  /** The map after `debugByJobId.set(jobId, stamped)`. */
  function Put(m: map<string, GeneratedCsvDebug>, jobId: string, csv: CsvInput, now: int): (r: map<string, GeneratedCsvDebug>)
    ensures r.Keys == m.Keys + {jobId}
    ensures r[jobId] == Stamp(csv, now)
  {
    m[jobId := Stamp(csv, now)]
  }

  /** The map after `debugByJobId.delete(jobId)`. */
  function Remove(m: map<string, GeneratedCsvDebug>, jobId: string): (r: map<string, GeneratedCsvDebug>)
    ensures r.Keys == m.Keys - {jobId}
  {
    m - {jobId}
  }

  /** `debugByJobId.get(jobId)`: the entry, or undefined. */
  function Find(m: map<string, GeneratedCsvDebug>, jobId: string): (r: Option<GeneratedCsvDebug>)
    ensures r.Some? <==> jobId in m
    ensures r.Some? ==> r.value == m[jobId]
  {
    if jobId in m then Some(m[jobId]) else None
  }

  /** After storing a CSV under a job id, reading that id gives back the CSV that was handed
      over, stamped with the time of the call. */
  lemma FindAfterPut(m: map<string, GeneratedCsvDebug>, jobId: string, csv: CsvInput, now: int)
    ensures Find(Put(m, jobId, csv, now), jobId).Some?
    ensures var e := Find(Put(m, jobId, csv, now), jobId).value;
      e.blob == csv.blob && e.filename == csv.filename && e.recordCount == csv.recordCount
      && e.createdAt == now
  {
  }

  /** A second store under the same id replaces the first. */
  lemma PutReplaces(m: map<string, GeneratedCsvDebug>, jobId: string, a: CsvInput, t1: int, b: CsvInput, t2: int)
    ensures Put(Put(m, jobId, a, t1), jobId, b, t2) == Put(m, jobId, b, t2)
  {
  }

  /** After clearing an id, reading it finds nothing. */
  lemma FindAfterRemove(m: map<string, GeneratedCsvDebug>, jobId: string)
    ensures Find(Remove(m, jobId), jobId) == None
  {
  }

  /** Storing or clearing one id leaves every other id's entry as it was. */
  lemma OthersUntouched(m: map<string, GeneratedCsvDebug>, jobId: string, other: string, csv: CsvInput, now: int)
    requires other != jobId
    ensures Find(Put(m, jobId, csv, now), other) == Find(m, other)
    ensures Find(Remove(m, jobId), other) == Find(m, other)
  {
  }

  /** The module-level `debugByJobId` map and the three functions over it. */
  class Store {
    var debugByJobId: map<string, GeneratedCsvDebug>

    /** `new Map()`: empty at load. */
    constructor()
      ensures debugByJobId == map[]
    {
      debugByJobId := map[];
    }

    /** `setOneClickDebugCsv(jobId, csv)`; `now` stands for `Date.now()`. */
    method Set(jobId: string, csv: CsvInput, now: int)
      modifies this
      ensures debugByJobId == Put(old(debugByJobId), jobId, csv, now)
      ensures Get(jobId) == Some(Stamp(csv, now))
    {
      debugByJobId := debugByJobId[jobId := GeneratedCsvDebug(csv.blob, csv.filename, csv.recordCount, now)];
    }

    /** `getOneClickDebugCsv(jobId)`. */
    function Get(jobId: string): (r: Option<GeneratedCsvDebug>)
      reads this
      ensures r == Find(debugByJobId, jobId)
    {
      if jobId in debugByJobId then Some(debugByJobId[jobId]) else None
    }

    /** `clearOneClickDebugCsv(jobId)`: deleting a missing id changes nothing. */
    method Clear(jobId: string)
      modifies this
      ensures debugByJobId == Remove(old(debugByJobId), jobId)
      ensures Get(jobId) == None
    {
      debugByJobId := debugByJobId - {jobId};
    }
  }
}
