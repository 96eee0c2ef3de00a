/** The two CSV encoders of `dbf.worker.ts` (`convertToCsvBlob` and
    `convertToApiFormatCsvBlob`): a header chunk, then one chunk per batch of
    2000 records, with a percentage reported after each batch. The Blob is its
    sequence of chunks. */
module Encoder {
  import opened Base
  import opened JsValues
  import opened KeyLookup
  import opened ApiMapper
  import opened Csv

  const BatchSize: nat := 2000

  /** `Math.round(end / n * 100)`, with `Math.round(x)` = floor(x + 1/2), on the exact ratio.
      The source divides and multiplies in doubles, so where the exact value is a half the
      double can fall just below it and round one lower. */
  function RoundPercent(end: nat, n: nat): (r: int)
    requires n > 0
  {
    (200 * end + n) / (2 * n)
  }

  lemma DivBounds(x: int, d: int)
    requires d > 0
    ensures (x / d) * d <= x < (x / d) * d + d
  {
    assert x == d * (x / d) + x % d;
  }

  lemma LessByFactor(x: int, y: int, d: int)
    requires d > 0 && x * d < y * d
    ensures x < y
  {
  }

  lemma DivMonotone(a: int, b: int, d: int)
    requires 0 <= a <= b && d > 0
    ensures a / d <= b / d
  {
    DivBounds(a, d);
    DivBounds(b, d);
    LessByFactor(a / d, b / d + 1, d);
  }

  lemma DivExact(x: int, d: int, q: int)
    requires d > 0 && q * d <= x < q * d + d
    ensures x / d == q
  {
    DivBounds(x, d);
    LessByFactor(x / d, q + 1, d);
    LessByFactor(q, x / d + 1, d);
  }

  lemma RealDivBetween(y: real, d: real, lo: real, hi: real)
    requires d > 0.0 && lo * d <= y < hi * d
    ensures lo <= y / d < hi
  {
    assert y / d * d == y;
  }

  /** The percentage is the nearest whole number to 100 * end / n (ties rounded up). */
  lemma RoundPercentNearest(end: nat, n: nat)
    requires n > 0
    ensures var r := RoundPercent(end, n);
      r as real - 0.5 <= 100.0 * end as real / n as real < r as real + 0.5
  {
    var r := RoundPercent(end, n);
    DivBounds(200 * end + n, 2 * n);
    var x, nn := end as real, n as real;
    assert r as real * (2.0 * nn) <= 200.0 * x + nn < r as real * (2.0 * nn) + 2.0 * nn;
    assert (r as real - 0.5) * nn <= 100.0 * x < (r as real + 0.5) * nn;
    RealDivBetween(100.0 * x, nn, r as real - 0.5, r as real + 0.5);
  }

  lemma RoundPercentMonotone(e1: nat, e2: nat, n: nat)
    requires n > 0 && e1 <= e2
    ensures RoundPercent(e1, n) <= RoundPercent(e2, n)
  {
    DivMonotone(200 * e1 + n, 200 * e2 + n, 2 * n);
  }

  /** A finished conversion reports 100. */
  lemma RoundPercentAll(n: nat)
    requires n > 0
    ensures RoundPercent(n, n) == 100
  {
    DivExact(200 * n + n, 2 * n, 100);
  }

  lemma RoundPercentBounds(end: nat, n: nat)
    requires 0 < n && end <= n
    ensures 0 <= RoundPercent(end, n) <= 100
  {
    RoundPercentMonotone(end, n, n);
    RoundPercentAll(n);
  }

  // ---- The chunks and the percentages, batch by batch ----

  /** The chunks written for the rows from index `i` on, one per batch. */
  function BatchChunks(rows: seq<string>, i: nat): seq<string>
    decreases |rows| - i
  {
    if i >= |rows| then []
    else [Join(rows[i..Min(i + BatchSize, |rows|)], "\n") + "\n"] + BatchChunks(rows, i + BatchSize)
  }

  /** The percentages reported for the batches from index `i` on. */
  function Percents(n: nat, i: nat): seq<int>
    decreases n - i
  {
    if i >= n then [] else [RoundPercent(Min(i + BatchSize, n), n)] + Percents(n, i + BatchSize)
  }

  /** The number of batches that start at or after `i`: ceil((n - i) / 2000). */
  function BatchCount(n: nat, i: nat): nat
  {
    if i >= n then 0 else (n - i + BatchSize - 1) / BatchSize
  }

  lemma {:induction false} BatchChunksCount(rows: seq<string>, i: nat)
    ensures |BatchChunks(rows, i)| == BatchCount(|rows|, i)
    decreases |rows| - i
  {
    if i < |rows| {
      BatchChunksCount(rows, i + BatchSize);
    }
  }

  lemma {:induction false} PercentsCount(n: nat, i: nat)
    ensures |Percents(n, i)| == BatchCount(n, i)
    decreases n - i
  {
    if i < n {
      PercentsCount(n, i + BatchSize);
    }
  }

  /** The batches hold the rows from `i` on, each row followed by a line feed, in order. */
  lemma {:induction false} BatchChunksConcat(rows: seq<string>, i: nat)
    requires i < |rows|
    ensures Concat(BatchChunks(rows, i)) == Join(rows[i..], "\n") + "\n"
    decreases |rows| - i
  {
    var e := Min(i + BatchSize, |rows|);
    var first := Join(rows[i..e], "\n") + "\n";
    assert Concat(BatchChunks(rows, i)) == first + Concat(BatchChunks(rows, i + BatchSize));
    if e == |rows| {
      assert BatchChunks(rows, i + BatchSize) == [];
      assert rows[i..e] == rows[i..];
      assert Concat([]) == "";
    } else {
      BatchChunksConcat(rows, e);
      assert rows[i..] == rows[i..e] + rows[e..];
      JoinAppend(rows[i..e], rows[e..], "\n");
    }
  }

  /** Percentages never go down, stay within 0..100, and the last one is 100. */
  lemma {:induction false} PercentsShape(n: nat, i: nat)
    requires i < n
    ensures var p := Percents(n, i);
      |p| > 0 && p[|p| - 1] == 100
      && (forall a :: 0 <= a < |p| ==> RoundPercent(Min(i + BatchSize, n), n) <= p[a] <= 100)
      && (forall a, b :: 0 <= a < b < |p| ==> p[a] <= p[b])
    decreases n - i
  {
    var p := Percents(n, i);
    var first := RoundPercent(Min(i + BatchSize, n), n);
    RoundPercentBounds(Min(i + BatchSize, n), n);
    if i + BatchSize >= n {
      assert Percents(n, i + BatchSize) == [];
      assert p == [first];
      RoundPercentAll(n);
    } else {
      var q := Percents(n, i + BatchSize);
      PercentsShape(n, i + BatchSize);
      RoundPercentMonotone(Min(i + BatchSize, n), Min(i + 2 * BatchSize, n), n);
      assert p == [first] + q;
      assert forall a :: 0 < a < |p| ==> p[a] == q[a - 1];
    }
  }

  // ---- The encoders ----

  /** The rows `formatCsvRow` writes for the records, in order. */
  function FormatRows(records: seq<Record>, fields: seq<string>): (rows: seq<string>)
    ensures |rows| == |records|
    ensures forall k :: 0 <= k < |records| ==> rows[k] == FormatCsvRow(records[k], fields)
  {
    seq(|records|, k requires 0 <= k < |records| => FormatCsvRow(records[k], fields))
  }

  /** The escaped import rows for the records, in order. */
  function ApiRows(records: seq<Record>, km: KeyMap): (rows: seq<string>)
    ensures |rows| == |records|
    ensures forall k :: 0 <= k < |records| ==> rows[k] == CsvLine(MapRecordToApiRow(records[k], km))
  {
    seq(|records|, k requires 0 <= k < |records| => CsvLine(MapRecordToApiRow(records[k], km)))
  }

  lemma FormatRowsSlice(records: seq<Record>, fields: seq<string>, i: nat, e: nat)
    requires i <= e <= |records|
    ensures FormatRows(records[i..e], fields) == FormatRows(records, fields)[i..e]
  {
  }

  lemma ApiRowsSlice(records: seq<Record>, km: KeyMap, i: nat, e: nat)
    requires i <= e <= |records|
    ensures ApiRows(records[i..e], km) == ApiRows(records, km)[i..e]
  {
  }

  /** The text of one batch of import rows: `rows.join('\n')` over `records.slice(i, end)`. */
  function ApiBatch(records: seq<Record>, km: KeyMap, i: nat, end: nat): (t: string)
    requires i <= end <= |records|
    ensures t == Join(ApiRows(records, km)[i..end], "\n")
  {
    ApiRowsSlice(records, km, i, end);
    Join(ApiRows(records[i..end], km), "\n")
  }

  lemma AppendStep<T>(done: seq<T>, x: T, rest: seq<T>)
    ensures done + [x] + rest == done + ([x] + rest)
  {
  }

  /** The key map the canonical encoder uses: the one of the first record, or of `{}`. */
  function SampleKeyMap(records: seq<Record>): KeyMap
  {
    KeyMapOf(KeysOf(if |records| > 0 then records[0] else []))
  }

  /** `convertToCsvBlob(records, fields, onProgress)`: the chunks and the reported percentages. */
  method ConvertToCsvBlob(records: seq<Record>, fields: seq<string>) returns (chunks: seq<string>, percents: seq<int>)
    ensures chunks == [Join(fields, ",") + "\n"] + BatchChunks(FormatRows(records, fields), 0)
    ensures percents == Percents(|records|, 0)
  {
    ghost var rows := FormatRows(records, fields);
    chunks := [Join(fields, ",") + "\n"];
    percents := [];
    var i := 0;
    while i < |records|
      invariant chunks + BatchChunks(rows, i) == [Join(fields, ",") + "\n"] + BatchChunks(rows, 0)
      invariant percents + Percents(|records|, i) == Percents(|records|, 0)
      decreases |records| - i
    {
      var end := Min(i + BatchSize, |records|);
      var batch := records[i..end];
      var batchCsv := Join(FormatRows(batch, fields), "\n");
      FormatRowsSlice(records, fields, i, end);
      AppendStep(chunks, batchCsv + "\n", BatchChunks(rows, i + BatchSize));
      AppendStep(percents, RoundPercent(end, |records|), Percents(|records|, i + BatchSize));
      chunks := chunks + [batchCsv + "\n"];
      percents := percents + [RoundPercent(end, |records|)];
      i := i + BatchSize;
    }
  }

  /** `convertToApiFormatCsvBlob(records, onProgress)`: the import header, then the mapped rows,
      with the key map taken from the first record (or from `{}`). */
  method ConvertToApiFormatCsvBlob(records: seq<Record>) returns (chunks: seq<string>, percents: seq<int>)
    ensures chunks == [Join(ApiHeaders, ",") + "\n"] + BatchChunks(ApiRows(records, SampleKeyMap(records)), 0)
    ensures percents == Percents(|records|, 0)
  {
    var km := BuildKeyMap(if |records| > 0 then records[0] else []);
    ApiRowsFor(records, km);
    chunks, percents := WriteApiBatches(records, km, Join(ApiHeaders, ",") + "\n", ApiRows(records, km));
  }

  /** Row k of `rows` is the escaped import row of record k. */
  predicate RowFor(records: seq<Record>, km: KeyMap, rows: seq<string>, k: nat)
    requires k < |records| == |rows|
  {
    rows[k] == CsvLine(MapRecordToApiRow(records[k], km))
  }

  predicate RowsFor(records: seq<Record>, km: KeyMap, rows: seq<string>)
  {
    |rows| == |records| && forall k: nat {:trigger RowFor(records, km, rows, k)} :: k < |records| ==> RowFor(records, km, rows, k)
  }

  lemma ApiRowsFor(records: seq<Record>, km: KeyMap)
    ensures RowsFor(records, km, ApiRows(records, km))
  {
    forall k: nat | k < |records|
      ensures RowFor(records, km, ApiRows(records, km), k)
    {
    }
  }

  /** One batch of the loop, read against the rows it stands for. */
  method ApiBatchAt(records: seq<Record>, km: KeyMap, ghost rows: seq<string>, i: nat, end: nat) returns (t: string)
    requires RowsFor(records, km, rows) && i <= end <= |records|
    ensures t == Join(rows[i..end], "\n")
  {
    t := ApiBatch(records, km, i, end);
    forall k | 0 <= k < |rows|
      ensures rows[k] == ApiRows(records, km)[k]
    {
      assert RowFor(records, km, rows, k);
    }
    assert rows == ApiRows(records, km);
  }

  /** The batch loop of `convertToApiFormatCsvBlob` for a given key map, after the header chunk. */
  method WriteApiBatches(records: seq<Record>, km: KeyMap, header: string, ghost rows: seq<string>)
    returns (chunks: seq<string>, percents: seq<int>)
    requires RowsFor(records, km, rows)
    ensures chunks == [header] + BatchChunks(rows, 0)
    ensures percents == Percents(|records|, 0)
  {
    chunks := [header];
    percents := [];
    var i := 0;
    while i < |records|
      invariant chunks + BatchChunks(rows, i) == [header] + BatchChunks(rows, 0)
      invariant percents + Percents(|records|, i) == Percents(|records|, 0)
      decreases |records| - i
    {
      var end := Min(i + BatchSize, |records|);
      var batchCsv := ApiBatchAt(records, km, rows, i, end);
      AppendStep(chunks, batchCsv + "\n", BatchChunks(rows, i + BatchSize));
      AppendStep(percents, RoundPercent(end, |records|), Percents(|records|, i + BatchSize));
      chunks := chunks + [batchCsv + "\n"];
      percents := percents + [RoundPercent(end, |records|)];
      i := i + BatchSize;
    }
  }

  // ---- What the encoders promise ----

  /** The Blob is the header line, then every record's row in order, each ended by a line feed. */
  lemma {:induction false} BlobContents(header: string, rows: seq<string>)
    requires |rows| > 0
    ensures Concat([header] + BatchChunks(rows, 0)) == header + Join(rows, "\n") + "\n"
    ensures |[header] + BatchChunks(rows, 0)| == 1 + (|rows| + BatchSize - 1) / BatchSize
  {
    ConcatAppend([header], BatchChunks(rows, 0));
    BatchChunksConcat(rows, 0);
    assert rows[0..] == rows;
    BatchChunksCount(rows, 0);
  }

  /** With no records only the header is written and nothing is reported. */
  lemma NoRecordsOnlyHeader(header: string, rows: seq<string>)
    requires |rows| == 0
    ensures [header] + BatchChunks(rows, 0) == [header] && Percents(0, 0) == []
  {
  }

  /** Cells that need no quoting are written as they are. */
  lemma {:induction false} EscapePlainCells(cells: seq<string>)
    requires forall k :: 0 <= k < |cells| ==> !NeedsQuoting(cells[k])
    ensures EscapeCells(cells) == cells
  {
    if |cells| > 0 {
      EscapePlainCells(cells[1..]);
      assert [cells[0]] + cells[1..] == cells;
    }
  }

  /** Lower-case letters and underscores never need quoting. */
  lemma SnakeCaseIsPlain(s: string)
    requires forall j :: 0 <= j < |s| ==> 'a' <= s[j] <= 'z' || s[j] == '_'
    ensures !NeedsQuoting(s)
  {
  }

  lemma ApiHeadersPlain()
    ensures forall k :: 0 <= k < |ApiHeaders| ==> !NeedsQuoting(ApiHeaders[k])
  {
    forall k | 0 <= k < |ApiHeaders|
      ensures !NeedsQuoting(ApiHeaders[k])
    {
      SnakeCaseIsPlain(ApiHeaders[k]);
    }
  }

  /** The canonical header line reads back as the import column names and starts with
      the `s` of `sku`, not with a byte-order mark. */
  lemma {:induction false} ApiHeaderLine()
    ensures ReadCells(Join(ApiHeaders, ",")) == Some(ApiHeaders)
    ensures (Join(ApiHeaders, ",") + "\n")[0] == 's'
  {
    ApiHeadersPlain();
    EscapePlainCells(ApiHeaders);
    CsvLineReadsBack(ApiHeaders);
    assert Join(ApiHeaders, ",") == ApiHeaders[0] + "," + Join(ApiHeaders[1..], ",");
  }

  /** Every row of the canonical Blob reads back as the fourteen mapped columns. */
  lemma {:induction false} ApiRowReadsBack(records: seq<Record>, k: nat)
    requires k < |records|
    ensures var row := MapRecordToApiRow(records[k], SampleKeyMap(records));
      ReadCells(ApiRows(records, SampleKeyMap(records))[k]) == Some(row) && |row| == |ApiHeaders|
  {
    CsvLineReadsBack(MapRecordToApiRow(records[k], SampleKeyMap(records)));
  }
}
