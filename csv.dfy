/** CSV cells and rows as `dbf.worker.ts` writes them: a cell holding a comma,
    a double quote, a line feed or a carriage return is wrapped in double
    quotes with every inner quote doubled; cells are joined by commas. A row
    reader is given beside the writer so that rows can be read back. */
module Csv {
  import opened Base
  import opened JsValues

  const Quote: char := '"'

  /** A cell that must be quoted. */
  predicate NeedsQuoting(s: string)
  {
    ',' in s || Quote in s || '\n' in s || '\r' in s
  }

  /** `s.replace(/"/g, '""')`. */
  function DoubleQuotes(s: string): (r: string)
    ensures |r| >= |s|
    ensures Quote !in s ==> r == s
  {
    if |s| == 0 then ""
    else (if s[0] == Quote then [Quote, Quote] else [s[0]]) + DoubleQuotes(s[1..])
  }

  /** The escaping applied to each cell. */
  function Escape(s: string): (r: string)
    ensures !NeedsQuoting(s) ==> r == s
    ensures NeedsQuoting(s) ==> |r| >= 2 && r[0] == Quote && r[|r| - 1] == Quote
  {
    if NeedsQuoting(s) then [Quote] + DoubleQuotes(s) + [Quote] else s
  }

  /** Escapes every cell of a row (`row.map(...)`). */
  function EscapeCells(cells: seq<string>): (r: seq<string>)
    ensures |r| == |cells|
  {
    if |cells| == 0 then [] else [Escape(cells[0])] + EscapeCells(cells[1..])
  }

  /** One written line: the escaped cells joined by commas. */
  function CsvLine(cells: seq<string>): string
  {
    Join(EscapeCells(cells), ",")
  }

  /** The cell `formatCsvRow` writes for `record[field]`: "" for a missing or nullish value. */
  function FieldCell(rec: Entries<Value>, field: string): string
  {
    match Lookup(rec, field)
    case None => ""
    case Some(v) => if IsNullish(v) then "" else Escape(Stringify(v))
  }

  /** The text a field contributes before escaping. */
  function FieldText(rec: Entries<Value>, field: string): string
  {
    match Lookup(rec, field)
    case None => ""
    case Some(v) => if IsNullish(v) then "" else Stringify(v)
  }

  function FieldCells(rec: Entries<Value>, fields: seq<string>): (r: seq<string>)
    ensures |r| == |fields|
  {
    if |fields| == 0 then [] else [FieldCell(rec, fields[0])] + FieldCells(rec, fields[1..])
  }

  function FieldTexts(rec: Entries<Value>, fields: seq<string>): (r: seq<string>)
    ensures |r| == |fields|
  {
    if |fields| == 0 then [] else [FieldText(rec, fields[0])] + FieldTexts(rec, fields[1..])
  }

  /** `formatCsvRow(record, fields)`. */
  function FormatCsvRow(rec: Entries<Value>, fields: seq<string>): string
  {
    Join(FieldCells(rec, fields), ",")
  }

  // ---- Reading a line back ----

  /** The inside of a quoted cell, after its opening quote: a doubled quote stands for one
      quote and a lone quote closes the cell. Yields the content and what follows the cell. */
  function ReadQuoted(s: string): (r: Option<(string, string)>)
    ensures r.Some? ==> |r.value.1| < |s|
  {
    if |s| == 0 then None
    else if s[0] == Quote then
      if |s| >= 2 && s[1] == Quote then
        match ReadQuoted(s[2..])
        case None => None
        case Some((c, rest)) => Some(([Quote] + c, rest))
      else Some(("", s[1..]))
    else
      match ReadQuoted(s[1..])
      case None => None
      case Some((c, rest)) => Some(([s[0]] + c, rest))
  }

  /** An unquoted cell runs up to the first comma. */
  function ReadBare(s: string): (r: (string, string))
    ensures r.0 + r.1 == s && ',' !in r.0
    ensures |r.1| > 0 ==> r.1[0] == ','
  {
    if |s| == 0 || s[0] == ',' then ("", s)
    else
      var (c, rest) := ReadBare(s[1..]);
      ([s[0]] + c, rest)
  }

  /** The first cell of a line, quoted or not, and what follows it. */
  function FirstCell(s: string): (r: Option<(string, string)>)
    ensures r.Some? ==> |r.value.1| <= |s|
  {
    if |s| > 0 && s[0] == Quote then ReadQuoted(s[1..]) else Some(ReadBare(s))
  }

  /** The cells of one line, or None when a quoted cell is not closed or is followed by
      something other than a comma. */
  function ReadCells(s: string): (r: Option<seq<string>>)
    decreases |s|
  {
    match FirstCell(s)
    case None => None
    case Some((c, rest)) =>
      if rest == "" then Some([c])
      else if rest[0] != ',' then None
      else
        match ReadCells(rest[1..])
        case None => None
        case Some(cs) => Some([c] + cs)
  }

  // ---- Round trips ----

  /** Undoing the doubling finds the content and stops at the closing quote. */
  lemma {:induction false} ReadDoubled(c: string, rest: string)
    requires |rest| == 0 || rest[0] != Quote
    ensures ReadQuoted(DoubleQuotes(c) + [Quote] + rest) == Some((c, rest))
  {
    var s := DoubleQuotes(c) + [Quote] + rest;
    if |c| == 0 {
      assert s == [Quote] + rest;
      assert s[1..] == rest;
    } else if c[0] == Quote {
      assert s == [Quote, Quote] + (DoubleQuotes(c[1..]) + [Quote] + rest);
      assert s[2..] == DoubleQuotes(c[1..]) + [Quote] + rest;
      ReadDoubled(c[1..], rest);
      assert [Quote] + c[1..] == c;
    } else {
      assert s == [c[0]] + (DoubleQuotes(c[1..]) + [Quote] + rest);
      assert s[1..] == DoubleQuotes(c[1..]) + [Quote] + rest;
      ReadDoubled(c[1..], rest);
      assert [c[0]] + c[1..] == c;
    }
  }

  /** An unquoted cell is read up to the comma that ends it. */
  lemma {:induction false} ReadBareCell(c: string, rest: string)
    requires ',' !in c
    requires |rest| == 0 || rest[0] == ','
    ensures ReadBare(c + rest) == (c, rest)
  {
    if |c| == 0 {
      assert c + rest == rest;
    } else {
      assert (c + rest)[1..] == c[1..] + rest;
      assert ',' !in c[1..] by {
        assert forall i :: 0 <= i < |c[1..]| ==> c[1..][i] == c[i + 1];
      }
      ReadBareCell(c[1..], rest);
      assert [c[0]] + c[1..] == c;
    }
  }

  lemma {:induction false} ReadQuotedCell(c: string, rest: string)
    requires NeedsQuoting(c)
    requires |rest| == 0 || rest[0] == ','
    ensures FirstCell(Escape(c) + rest) == Some((c, rest))
  {
    ReadDoubled(c, rest);
    EscapedShape(c, rest);
    QuotedFirstCell(DoubleQuotes(c) + [Quote] + rest);
  }

  lemma EscapedShape(c: string, rest: string)
    requires NeedsQuoting(c)
    ensures Escape(c) + rest == [Quote] + (DoubleQuotes(c) + [Quote] + rest)
  {
  }

  lemma QuotedFirstCell(t: string)
    ensures FirstCell([Quote] + t) == ReadQuoted(t)
  {
    assert ([Quote] + t)[1..] == t;
  }

  lemma {:induction false} ReadUnquotedCell(c: string, rest: string)
    requires !NeedsQuoting(c)
    requires |rest| == 0 || rest[0] == ','
    ensures FirstCell(Escape(c) + rest) == Some((c, rest))
  {
    var s := c + rest;
    assert |s| > 0 ==> s[0] != Quote by {
      if |c| > 0 {
        assert s[0] == c[0];
      }
    }
    ReadBareCell(c, rest);
  }

  /** The first cell of a line is read back, leaving the rest of the line. */
  lemma {:induction false} ReadEscapedCell(c: string, rest: string)
    requires |rest| == 0 || rest[0] == ','
    ensures FirstCell(Escape(c) + rest) == Some((c, rest))
  {
    if NeedsQuoting(c) {
      ReadQuotedCell(c, rest);
    } else {
      ReadUnquotedCell(c, rest);
    }
  }

  /** Every written line reads back as the cells it was written from. */
  lemma {:induction false} CsvLineReadsBack(cells: seq<string>)
    requires |cells| > 0
    ensures ReadCells(CsvLine(cells)) == Some(cells)
  {
    var e := EscapeCells(cells);
    if |cells| == 1 {
      assert e == [Escape(cells[0])];
      assert CsvLine(cells) == Escape(cells[0]) + "";
      ReadEscapedCell(cells[0], "");
      assert cells == [cells[0]];
    } else {
      var tail := CsvLine(cells[1..]);
      assert e[1..] == EscapeCells(cells[1..]);
      assert CsvLine(cells) == Escape(cells[0]) + ("," + tail);
      ReadEscapedCell(cells[0], "," + tail);
      assert ("," + tail)[1..] == tail;
      CsvLineReadsBack(cells[1..]);
      assert [cells[0]] + cells[1..] == cells;
    }
  }

  /** A single escaped cell reads back as the original text. */
  lemma {:induction false} EscapeReadsBack(s: string)
    ensures ReadCells(Escape(s)) == Some([s])
  {
    CsvLineReadsBack([s]);
    assert EscapeCells([s]) == [Escape(s)];
  }

  /** `formatCsvRow` writes each field's text escaped, the empty text for a missing or nullish one. */
  lemma {:induction false} FormatCsvRowIsLine(rec: Entries<Value>, fields: seq<string>)
    ensures FormatCsvRow(rec, fields) == CsvLine(FieldTexts(rec, fields))
  {
    assert FieldCells(rec, fields) == EscapeCells(FieldTexts(rec, fields)) by {
      CellsAreEscapedTexts(rec, fields);
    }
  }

  lemma {:induction false} CellsAreEscapedTexts(rec: Entries<Value>, fields: seq<string>)
    ensures FieldCells(rec, fields) == EscapeCells(FieldTexts(rec, fields))
  {
    if |fields| > 0 {
      CellsAreEscapedTexts(rec, fields[1..]);
      var t := FieldTexts(rec, fields);
      assert t[1..] == FieldTexts(rec, fields[1..]);
      assert Escape("") == "";
    }
  }

  /** A row written by `formatCsvRow` reads back as the texts of its fields, in order. */
  lemma {:induction false} FormatCsvRowReadsBack(rec: Entries<Value>, fields: seq<string>)
    requires |fields| > 0
    ensures ReadCells(FormatCsvRow(rec, fields)) == Some(FieldTexts(rec, fields))
  {
    FormatCsvRowIsLine(rec, fields);
    CsvLineReadsBack(FieldTexts(rec, fields));
  }
}
