/** The worker's message protocol (`dbf.types.ts`) and its three entry points: the decoding
    loop `parseDbfFile`, the two pipelines `handleParseOriginal` and `handleParseApiFormat`,
    and the dispatch `self.onmessage`. Every pipeline is given as the sequence of responses it
    posts, in order. The DBF decoder is an input: the records it decoded and whether a read
    finally throws. */
module Worker {
  import opened Base
  import opened Decimal
  import opened KeyLookup
  import opened ApiMapper
  import opened Encoder

  // ---- The protocol ----

  /** The `phase` of a progress message. */
  datatype Phase = Parsing | Converting | Mapping

  /** `DbfWorkerResponse`. A Blob is its sequence of chunks. The decoding loop also sends a
      `message` text with its progress (here `note`), which the declared type does not list. */
  datatype Response =
    | Progress(phase: Phase, percent: int, note: Option<string>)
    | Preview(fields: seq<string>, preview: seq<Record>, recordCount: nat)
    | Complete(csvBlob: seq<string>, recordCount: nat, fields: seq<string>)
    | ApiFormatComplete(csvBlob: seq<string>, recordCount: nat, fields: seq<string>)
    | Error(message: string)

  /** What a read of the decoder may throw: an `Error` with its message, or any other value. */
  datatype Thrown = ErrorValue(message: string) | OtherValue

  /** What the decoder does with a buffer: the records its reads yield, in order, then either
      `done` (no failure) or a throw from the next read. */
  datatype DecoderRun = DecoderRun(decoded: seq<Record>, failure: Option<Thrown>)

  /** `DbfWorkerMessage`: the `type` string and the buffer it carries. */
  datatype Request = Request(kind: string, buffer: DecoderRun)

  /** Responses that end a pipeline. */
  predicate IsTerminal(r: Response)
  {
    r.Complete? || r.ApiFormatComplete? || r.Error?
  }

  const NoRecords: string := "El archivo DBF no contiene registros"
  const UnknownFailure: string := "Error desconocido al procesar el archivo"
  const UnknownType: string := "Unknown message type"

  /** `err instanceof Error ? err.message : fallback`. */
  function ErrorMessage(t: Thrown, fallback: string): (m: string)
    ensures t.OtherValue? ==> m == fallback
  {
    match t
    case ErrorValue(msg) => msg
    case OtherValue => fallback
  }

  // ---- Decoding ----

  /** The outcome of one `source.read()`. */
  datatype ReadResult = Item(value: Record) | Done | Failed(err: Thrown)

  /** The `j`-th read of the decoder (counting from 0). */
  function Read(run: DecoderRun, j: nat): (r: ReadResult)
    ensures r.Item? <==> j < |run.decoded|
    ensures r.Item? ==> r.value == run.decoded[j]
  {
    if j < |run.decoded| then Item(run.decoded[j])
    else match run.failure
      case None => Done
      case Some(t) => Failed(t)
  }

  /** The progress message posted once `k` records have been read. */
  function Tick(k: nat): Response
  {
    Progress(Parsing, -1, Some("Leyendo registro " + NatToDecimal(k) + "..."))
  }

  /** The progress messages for the counts 1..m that are multiples of 1000, in order. */
  function Ticks(m: nat): (ts: seq<Response>)
  {
    if m == 0 then [] else Ticks(m - 1) + (if m % 1000 == 0 then [Tick(m)] else [])
  }

  /** The record counts whose check is reached: after record `k` is pushed the next read runs
      first, so the count at which the decoder throws posts nothing. */
  function CheckedCount(run: DecoderRun): (c: nat)
    ensures c <= |run.decoded|
    ensures run.failure.None? ==> c == |run.decoded|
  {
    if run.failure.None? then |run.decoded|
    else if |run.decoded| == 0 then 0
    else |run.decoded| - 1
  }

  /** `parseDbfFile(buffer)`: the records read, the progress it posted, and what it threw. */
  method ParseDbfFile(run: DecoderRun) returns (records: seq<Record>, posted: seq<Response>, thrown: Option<Thrown>)
    ensures thrown == run.failure
    ensures thrown.None? ==> records == run.decoded
    ensures posted == Ticks(CheckedCount(run))
  {
    records := [];
    posted := [];
    thrown := None;
    var result := Read(run, 0);
    if result.Failed? {
      thrown := Some(result.err);
      return;
    }
    while !result.Done?
      invariant |records| <= |run.decoded| && records == run.decoded[..|records|]
      invariant result == Read(run, |records|) && !result.Failed?
      invariant posted == Ticks(|records|)
      decreases |run.decoded| - |records|
    {
      records := records + [result.value];
      result := Read(run, |records|);
      if result.Failed? {
        thrown := Some(result.err);
        return;
      }
      if |records| % 1000 == 0 {
        posted := posted + [Tick(|records|)];
      }
    }
    assert records == run.decoded;
  }

  /** Every multiple of 1000 up to `m` gets exactly one message, in increasing order. */
  lemma {:induction false} TicksShape(m: nat)
    ensures |Ticks(m)| == m / 1000
    ensures forall i :: 0 <= i < |Ticks(m)| ==> Ticks(m)[i] == Tick(1000 * (i + 1))
  {
    if m > 0 {
      TicksShape(m - 1);
      DivStep(m);
    }
  }

  lemma DivStep(m: nat)
    requires m > 0
    ensures m % 1000 == 0 ==> m / 1000 == (m - 1) / 1000 + 1 && m == 1000 * ((m - 1) / 1000 + 1)
    ensures m % 1000 != 0 ==> m / 1000 == (m - 1) / 1000
  {
  }

  lemma {:induction false} TicksAreProgress(m: nat)
    ensures forall i :: 0 <= i < |Ticks(m)| ==> Ticks(m)[i].Progress? && Ticks(m)[i].phase == Parsing
  {
    TicksShape(m);
  }

  // ---- The pipelines ----

  /** One progress message per reported percentage. */
  function ProgressAll(phase: Phase, ps: seq<int>): (rs: seq<Response>)
    ensures |rs| == |ps|
    ensures forall i :: 0 <= i < |ps| ==> rs[i] == Progress(phase, ps[i], None)
  {
    if |ps| == 0 then [] else [Progress(phase, ps[0], None)] + ProgressAll(phase, ps[1..])
  }

  /** `records.slice(0, 10)`. */
  function PreviewOf(records: seq<Record>): seq<Record>
  {
    records[..Min(10, |records|)]
  }

  /** The Blob of `convertToCsvBlob(records, fields)`. */
  function RawBlob(records: seq<Record>, fields: seq<string>): seq<string>
  {
    [Join(fields, ",") + "\n"] + BatchChunks(FormatRows(records, fields), 0)
  }

  /** The Blob of `convertToApiFormatCsvBlob(records)`. */
  function ApiBlob(records: seq<Record>): seq<string>
  {
    [Join(ApiHeaders, ",") + "\n"] + BatchChunks(ApiRows(records, SampleKeyMap(records)), 0)
  }

  /** What both pipelines post up to the end of decoding. */
  function Decoding(run: DecoderRun): seq<Response>
  {
    [Progress(Parsing, 0, None)] + Ticks(CheckedCount(run))
  }

  /** The Blob `handleParseOriginal` builds for the decoded records, with the first record's keys. */
  function OriginalBlob(records: seq<Record>): seq<string>
  {
    if |records| == 0 then [] else RawBlob(records, KeysOf(records[0]))
  }

  /** What `handleParseOriginal` posts after decoding `records` (at least one),
      `blob` being the Blob its encoder returned. */
  function OriginalSuccess(records: seq<Record>, blob: seq<string>): seq<Response>
    requires |records| > 0
  {
    var fields := KeysOf(records[0]);
    [Progress(Parsing, 100, None), Preview(fields, PreviewOf(records), |records|), Progress(Converting, 0, None)]
    + ProgressAll(Converting, Percents(|records|, 0))
    + [Complete(blob, |records|, fields)]
  }

  /** What `handleParseApiFormat` posts after decoding `records` (at least one). */
  function ApiFormatSuccess(records: seq<Record>, blob: seq<string>): seq<Response>
    requires |records| > 0
  {
    [Progress(Parsing, 100, None), Progress(Mapping, 0, None)]
    + ProgressAll(Mapping, Percents(|records|, 0))
    + [ApiFormatComplete(blob, |records|, ApiHeaders)]
  }

  /** The responses `handleParseOriginal` posts for a buffer, given the Blob its encoder returns. */
  function OriginalPosts(run: DecoderRun, blob: seq<string>): seq<Response>
  {
    if run.failure.Some? then Decoding(run) + [Error(ErrorMessage(run.failure.value, UnknownFailure))]
    else if |run.decoded| == 0 then Decoding(run) + [Error(NoRecords)]
    else Decoding(run) + OriginalSuccess(run.decoded, blob)
  }

  /** The responses `handleParseApiFormat` posts for a buffer, given the Blob its encoder returns. */
  function ApiFormatPosts(run: DecoderRun, blob: seq<string>): seq<Response>
  {
    if run.failure.Some? then Decoding(run) + [Error(ErrorMessage(run.failure.value, UnknownFailure))]
    else if |run.decoded| == 0 then Decoding(run) + [Error(NoRecords)]
    else Decoding(run) + ApiFormatSuccess(run.decoded, blob)
  }

  /** `handleParseOriginal(buffer)`. */
  method HandleParseOriginal(run: DecoderRun) returns (out: seq<Response>)
    ensures out == OriginalPosts(run, OriginalBlob(run.decoded))
  {
    out := [Progress(Parsing, 0, None)];
    var records, ticks, thrown := ParseDbfFile(run);
    out := out + ticks;
    if thrown.Some? {
      out := out + [Error(ErrorMessage(thrown.value, UnknownFailure))];
      return;
    }
    if |records| == 0 {
      out := out + [Error(NoRecords)];
      return;
    }
    var rest := PostOriginal(records);
    out := out + rest;
  }

  /** The part of `handleParseOriginal` after a successful decode. */
  method PostOriginal(records: seq<Record>) returns (out: seq<Response>)
    requires |records| > 0
    ensures out == OriginalSuccess(records, OriginalBlob(records))
  {
    var fields := KeysOf(records[0]);
    var done := [Progress(Parsing, 100, None), Preview(fields, records[..Min(10, |records|)], |records|)];
    var chunks, percents := ConvertToCsvBlob(records, fields);
    out := done + [Progress(Converting, 0, None)] + ProgressAll(Converting, percents) + [Complete(chunks, |records|, fields)];
  }

  /** `handleParseApiFormat(buffer)`. */
  method HandleParseApiFormat(run: DecoderRun) returns (out: seq<Response>)
    ensures out == ApiFormatPosts(run, ApiBlob(run.decoded))
  {
    out := [Progress(Parsing, 0, None)];
    var records, ticks, thrown := ParseDbfFile(run);
    out := out + ticks;
    if thrown.Some? {
      out := out + [Error(ErrorMessage(thrown.value, UnknownFailure))];
      return;
    }
    if |records| == 0 {
      out := out + [Error(NoRecords)];
      return;
    }
    var rest := PostApiFormat(records);
    out := out + rest;
  }

  /** The part of `handleParseApiFormat` after a successful decode. */
  method PostApiFormat(records: seq<Record>) returns (out: seq<Response>)
    requires |records| > 0
    ensures out == ApiFormatSuccess(records, ApiBlob(records))
  {
    var chunks, percents := ConvertToApiFormatCsvBlob(records);
    out := [Progress(Parsing, 100, None), Progress(Mapping, 0, None)] + ProgressAll(Mapping, percents)
      + [ApiFormatComplete(chunks, |records|, ApiHeaders)];
  }

  /** The responses `self.onmessage` leads to for a request. */
  function OnMessageResponses(req: Request): seq<Response>
  {
    if req.kind == "parse" then OriginalPosts(req.buffer, OriginalBlob(req.buffer.decoded))
    else if req.kind == "parse-api-format" then ApiFormatPosts(req.buffer, ApiBlob(req.buffer.decoded))
    else [Error(UnknownType)]
  }

  /** `self.onmessage(event)`: dispatch on the request's `type`. */
  method OnMessage(req: Request) returns (out: seq<Response>)
    ensures out == OnMessageResponses(req)
  {
    if req.kind == "parse" {
      out := HandleParseOriginal(req.buffer);
    } else if req.kind == "parse-api-format" {
      out := HandleParseApiFormat(req.buffer);
    } else {
      out := [Error(UnknownType)];
    }
  }

  // ---- What the pipelines promise ----

  /** Exactly one terminal response, and it is the last one. */
  predicate EndsOnce(out: seq<Response>)
  {
    |out| > 0 && IsTerminal(out[|out| - 1]) && forall i :: 0 <= i < |out| - 1 ==> !IsTerminal(out[i])
  }

  predicate NoTerminal(rs: seq<Response>)
  {
    forall i :: 0 <= i < |rs| ==> !IsTerminal(rs[i])
  }

  lemma EndsOnceAppend(pre: seq<Response>, t: Response)
    requires NoTerminal(pre) && IsTerminal(t)
    ensures EndsOnce(pre + [t])
  {
    assert forall i :: 0 <= i < |pre| ==> (pre + [t])[i] == pre[i];
  }

  lemma NoTerminalAppend(a: seq<Response>, b: seq<Response>)
    requires NoTerminal(a) && NoTerminal(b)
    ensures NoTerminal(a + b)
  {
    assert forall i :: |a| <= i < |a + b| ==> (a + b)[i] == b[i - |a|];
  }

  lemma DecodingNoTerminal(run: DecoderRun)
    ensures NoTerminal(Decoding(run))
  {
    TicksAreProgress(CheckedCount(run));
    NoTerminalAppend([Progress(Parsing, 0, None)], Ticks(CheckedCount(run)));
  }

  lemma ProgressNoTerminal(phase: Phase, ps: seq<int>)
    ensures NoTerminal(ProgressAll(phase, ps))
  {
  }

  /** `handleParseOriginal` ends with exactly one `complete` or `error`. */
  lemma OriginalEndsOnce(run: DecoderRun, blob: seq<string>)
    ensures EndsOnce(OriginalPosts(run, blob))
  {
    DecodingNoTerminal(run);
    if run.failure.None? && |run.decoded| > 0 {
      var records := run.decoded;
      var fields := KeysOf(records[0]);
      var mid := [Progress(Parsing, 100, None), Preview(fields, PreviewOf(records), |records|), Progress(Converting, 0, None)];
      var body := mid + ProgressAll(Converting, Percents(|records|, 0));
      ProgressNoTerminal(Converting, Percents(|records|, 0));
      NoTerminalAppend(mid, ProgressAll(Converting, Percents(|records|, 0)));
      NoTerminalAppend(Decoding(run), body);
      EndsOnceAppend(Decoding(run) + body, Complete(blob, |records|, fields));
      assert OriginalPosts(run, blob) == Decoding(run) + body + [Complete(blob, |records|, fields)];
    } else if run.failure.Some? {
      EndsOnceAppend(Decoding(run), Error(ErrorMessage(run.failure.value, UnknownFailure)));
    } else {
      EndsOnceAppend(Decoding(run), Error(NoRecords));
    }
  }

  /** `handleParseApiFormat` ends with exactly one `api-format-complete` or `error`. */
  lemma ApiFormatEndsOnce(run: DecoderRun, blob: seq<string>)
    ensures EndsOnce(ApiFormatPosts(run, blob))
  {
    DecodingNoTerminal(run);
    if run.failure.None? && |run.decoded| > 0 {
      var records := run.decoded;
      var mid := [Progress(Parsing, 100, None), Progress(Mapping, 0, None)];
      var body := mid + ProgressAll(Mapping, Percents(|records|, 0));
      ProgressNoTerminal(Mapping, Percents(|records|, 0));
      NoTerminalAppend(mid, ProgressAll(Mapping, Percents(|records|, 0)));
      NoTerminalAppend(Decoding(run), body);
      EndsOnceAppend(Decoding(run) + body, ApiFormatComplete(blob, |records|, ApiHeaders));
      assert ApiFormatPosts(run, blob) == Decoding(run) + body + [ApiFormatComplete(blob, |records|, ApiHeaders)];
    } else if run.failure.Some? {
      EndsOnceAppend(Decoding(run), Error(ErrorMessage(run.failure.value, UnknownFailure)));
    } else {
      EndsOnceAppend(Decoding(run), Error(NoRecords));
    }
  }

  /** Every request ends with exactly one terminal response; an unknown type gets only an error. */
  lemma OnMessageEndsOnce(req: Request)
    ensures EndsOnce(OnMessageResponses(req))
    ensures req.kind != "parse" && req.kind != "parse-api-format" ==>
      OnMessageResponses(req) == [Error(UnknownType)]
  {
    if req.kind == "parse" {
      OriginalEndsOnce(req.buffer, OriginalBlob(req.buffer.decoded));
    } else if req.kind == "parse-api-format" {
      ApiFormatEndsOnce(req.buffer, ApiBlob(req.buffer.decoded));
    }
  }

  /** A buffer that decodes to no records yields parsing progress and then one error. */
  lemma EmptyFileIsAnError(run: DecoderRun, blob: seq<string>)
    requires run.failure.None? && |run.decoded| == 0
    ensures OriginalPosts(run, blob) == [Progress(Parsing, 0, None), Error(NoRecords)]
    ensures ApiFormatPosts(run, blob) == [Progress(Parsing, 0, None), Error(NoRecords)]
  {
    assert Ticks(0) == [];
  }

  /** A throw from the decoder is reported once, with the thrown message when it is an `Error`. */
  lemma FailureIsReported(run: DecoderRun, blob: seq<string>)
    requires run.failure.Some?
    ensures var out := OriginalPosts(run, blob);
      out[|out| - 1] == Error(ErrorMessage(run.failure.value, UnknownFailure))
    ensures var out := ApiFormatPosts(run, blob);
      out[|out| - 1] == Error(ErrorMessage(run.failure.value, UnknownFailure))
  {
  }

  /** Decoding posts the start message and one message per thousand records checked. */
  lemma DecodingLength(run: DecoderRun)
    ensures |Decoding(run)| == 1 + CheckedCount(run) / 1000
    ensures Decoding(run)[0] == Progress(Parsing, 0, None)
  {
    TicksShape(CheckedCount(run));
  }

  /** After a successful decode `handleParseOriginal` posts parsing 100, the preview of at most
      ten leading records with the record count, converting 0, one non-decreasing converting
      percentage per batch ending at 100, then `complete` with the Blob, count and field names. */
  lemma {:induction false} OriginalSuccessShape(records: seq<Record>, blob: seq<string>)
    requires |records| > 0
    ensures var out := OriginalSuccess(records, blob);
      var n := |records|;
      var fields := KeysOf(records[0]);
      |out| == 4 + BatchCount(n, 0)
      && out[0] == Progress(Parsing, 100, None)
      && out[1].Preview? && out[1].fields == fields && out[1].recordCount == n
      && |out[1].preview| == Min(10, n) && out[1].preview <= records
      && out[2] == Progress(Converting, 0, None)
      && (forall i :: 3 <= i < |out| - 1 ==> out[i].Progress? && out[i].phase == Converting)
      && (forall a, b :: 3 <= a < b < |out| - 1 ==> out[a].percent <= out[b].percent)
      && out[|out| - 2].percent == 100
      && out[|out| - 1] == Complete(blob, n, fields)
  {
    var n := |records|;
    var ps := Percents(n, 0);
    PercentsShape(n, 0);
    PercentsCount(n, 0);
    var out := OriginalSuccess(records, blob);
    var pa := ProgressAll(Converting, ps);
    assert forall i :: 3 <= i < 3 + |ps| ==> out[i] == pa[i - 3];
  }

  /** After a successful decode `handleParseApiFormat` posts parsing 100, mapping 0, one
      non-decreasing mapping percentage per batch ending at 100, then `api-format-complete`
      with the Blob, the record count and the import column names. */
  lemma {:induction false} ApiFormatSuccessShape(records: seq<Record>, blob: seq<string>)
    requires |records| > 0
    ensures var out := ApiFormatSuccess(records, blob);
      var n := |records|;
      |out| == 3 + BatchCount(n, 0)
      && out[0] == Progress(Parsing, 100, None)
      && out[1] == Progress(Mapping, 0, None)
      && (forall i :: 2 <= i < |out| - 1 ==> out[i].Progress? && out[i].phase == Mapping)
      && (forall a, b :: 2 <= a < b < |out| - 1 ==> out[a].percent <= out[b].percent)
      && out[|out| - 2].percent == 100
      && out[|out| - 1] == ApiFormatComplete(blob, n, ApiHeaders)
  {
    var n := |records|;
    var ps := Percents(n, 0);
    PercentsShape(n, 0);
    PercentsCount(n, 0);
    var out := ApiFormatSuccess(records, blob);
    var pa := ProgressAll(Mapping, ps);
    assert forall i :: 2 <= i < 2 + |ps| ==> out[i] == pa[i - 2];
  }
}
