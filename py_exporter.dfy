/** The Python reference exporter `dbf-to-csv-parser.py`: its value helpers (`normalize_value`,
    `pick_str`, `pick_num`, `format_price`, `slugify`, `parse_boolish`), its row mapper
    `map_record_to_api_row`, and the offset/limit loops of its two export functions. Records are
    the dictionaries `dbfread` yields; keys are looked up exactly (`rec.get(field)`). */
module PyExporter {
  import opened Base
  import opened Text
  import opened Decimal
  import opened Slugs
  import JsValues
  import ApiMapper

  /** A Python float: finite (an exact real here), NaN, or an infinity. */
  datatype PyFloat = PFin(x: real) | PNan | PInf(negative: bool)

  /** A field value as `dbfread` delivers it. A float carries the text `str()` gives it. A
      currency field arrives as a `decimal.Decimal`: a finite value and its `str()` text. A date
      or datetime carries its `str()` text. */
  datatype PyValue =
    | PNone
    | PBool(b: bool)
    | PInt(i: int)
    | PFloat(f: PyFloat, text: string)
    | PStr(s: string)
    | PDecimal(d: real, dtext: string)
    | POther(text: string)

  type PyRecord = Entries<PyValue>

  /** `rec.get(field)`. */
  function Get(rec: PyRecord, field: string): (v: PyValue)
    ensures Lookup(rec, field).None? ==> v.PNone?
    ensures Lookup(rec, field).Some? ==> v == Lookup(rec, field).value
  {
    match Lookup(rec, field)
    case None => PNone
    case Some(v) => v
  }

  /** `str(i)` for an int. */
  function IntText(i: int): string
  {
    if i < 0 then "-" + NatToDecimal(-i) else NatToDecimal(i)
  }

  /** The text `csv.writer` writes for a value: "" for None, `str(v)` otherwise. */
  function CellText(v: PyValue): string
  {
    match v
    case PNone => ""
    case PBool(b) => if b then "True" else "False"
    case PInt(i) => IntText(i)
    case PFloat(_, t) => t
    case PStr(s) => s
    case PDecimal(_, t) => t
    case POther(t) => t
  }

  // ---- normalize_value, pick_str ----

  /** `normalize_value`: None becomes '', a string is stripped, anything else is kept. */
  function NormalizeValue(v: PyValue): (r: PyValue)
    ensures !r.PNone?
  {
    match v
    case PNone => PStr("")
    case PStr(s) => PStr(StripPy(s))
    case _ => v
  }

  /** Normalising twice is normalising once. */
  lemma NormalizeValueIdempotent(v: PyValue)
    ensures NormalizeValue(NormalizeValue(v)) == NormalizeValue(v)
  {
    if v.PStr? {
      TrimIdempotent(v.s, IsPySpace);
    }
  }

  /** `_is_blank_string`. */
  predicate IsBlank(v: PyValue) { v.PStr? && StripPy(v.s) == "" }

  /** A value `pick_str` takes: not None and not a blank string. */
  predicate Takes(v: PyValue) { !v.PNone? && !IsBlank(v) }

  /** The values `rec.get(field)` gives for each field, in order. */
  function Gets(rec: PyRecord, fields: seq<string>): (vs: seq<PyValue>)
    ensures |vs| == |fields|
  {
    if |fields| == 0 then [] else [Get(rec, fields[0])] + Gets(rec, fields[1..])
  }

  lemma {:induction false} GetsAt(rec: PyRecord, fields: seq<string>, i: nat)
    requires i < |fields|
    ensures Gets(rec, fields)[i] == Get(rec, fields[i])
  {
    if i > 0 {
      GetsAt(rec, fields[1..], i - 1);
    }
  }

  /** What `pick_str` returns: the normalised first value it takes, else ''. */
  function PickStr(rec: PyRecord, fields: seq<string>): PyValue
  {
    var vs := Gets(rec, fields);
    match FirstWhere(vs, Takes)
    case None => PStr("")
    case Some(i) => NormalizeValue(vs[i])
  }

  /** `pick_str` as written: the candidate loop with its early return. */
  method PickStrLoop(rec: PyRecord, fields: seq<string>) returns (r: PyValue)
    ensures r == PickStr(rec, fields)
  {
    ghost var vs := Gets(rec, fields);
    var i := 0;
    while i < |fields|
      invariant 0 <= i <= |fields|
      invariant forall j :: 0 <= j < i ==> !Takes(vs[j])
    {
      var v := Get(rec, fields[i]);
      assert v == vs[i] by {
        GetsAt(rec, fields, i);
      }
      if v.PNone? || IsBlank(v) {
        i := i + 1;
        continue;
      }
      FirstWhereAt(vs, Takes, i);
      return NormalizeValue(v);
    }
    return PStr("");
  }

  /** `pick_str` returns the stripped text of the first non-None, non-blank candidate. */
  lemma {:induction false} PickStrFirst(rec: PyRecord, fields: seq<string>, i: nat)
    requires i < |fields| && Takes(Get(rec, fields[i]))
    requires forall j :: 0 <= j < i ==> !Takes(Get(rec, fields[j]))
    ensures PickStr(rec, fields) == NormalizeValue(Get(rec, fields[i]))
    ensures Get(rec, fields[i]).PStr? ==> PickStr(rec, fields) == PStr(StripPy(Get(rec, fields[i]).s))
  {
    var vs := Gets(rec, fields);
    forall j | 0 <= j <= i
      ensures vs[j] == Get(rec, fields[j])
    {
      GetsAt(rec, fields, j);
    }
    FirstWhereAt(vs, Takes, i);
  }

  /** With no candidate it takes, `pick_str` returns ''. */
  lemma {:induction false} PickStrNone(rec: PyRecord, fields: seq<string>)
    requires forall j :: 0 <= j < |fields| ==> !Takes(Get(rec, fields[j]))
    ensures PickStr(rec, fields) == PStr("")
  {
    var vs := Gets(rec, fields);
    forall j | 0 <= j < |fields|
      ensures !Takes(vs[j])
    {
      GetsAt(rec, fields, j);
    }
  }

  // ---- float(), pick_num ----

  /** `float(s)` for a string: the stripped text, after an optional sign, must be `inf`,
      `infinity` or `nan` in any case, or a whole decimal literal; None stands for ValueError. */
  function ParseFloatPy(s: string): Option<PyFloat>
  {
    var t := StripPy(s);
    if |t| > 0 && (t[0] == '-' || t[0] == '+') then ParseUnsignedPy(t[0] == '-', t[1..])
    else ParseUnsignedPy(false, t)
  }

  /** The text after the sign. */
  function ParseUnsignedPy(negative: bool, u: string): (r: Option<PyFloat>)
  {
    var w := Lower(u);
    if w == "inf" || w == "infinity" then Some(PInf(negative))
    else if w == "nan" then Some(PNan)
    else
      match ScanUnsignedDecimal(u)
      case None => None
      case Some(sc) => if sc.len == |u| then Some(PFin(if negative then -sc.value else sc.value)) else None
  }

  /** Text that starts with a digit is none of the special words. */
  lemma NotSpecialWord(u: string)
    requires |u| > 0 && IsDigit(u[0])
    ensures Lower(u) != "inf" && Lower(u) != "infinity" && Lower(u) != "nan"
  {
    assert Lower(u)[0] == u[0];
  }

  /** A whole decimal literal for n/100 after the sign reads as n/100. */
  lemma ParseDigitsPy(negative: bool, u: string, n: nat)
    requires |u| > 0 && IsDigit(u[0])
    requires ScanUnsignedDecimal(u) == Some(Scan(|u|, n as real / 100.0))
    ensures ParseUnsignedPy(negative, u) == Some(PFin(if negative then -(n as real / 100.0) else n as real / 100.0))
  {
    NotSpecialWord(u);
  }

  /** `float(v)`; None stands for the TypeError or ValueError `pick_num` catches. */
  function FloatOf(v: PyValue): (r: Option<PyFloat>)
    ensures v.PBool? ==> r == Some(PFin(if v.b then 1.0 else 0.0))
    ensures v.PInt? ==> r == Some(PFin(v.i as real))
    ensures v.PFloat? ==> r == Some(v.f)
    ensures v.PStr? ==> r == ParseFloatPy(v.s)
    ensures v.PDecimal? ==> r == Some(PFin(v.d))
    ensures v.PNone? || v.POther? ==> r.None?
  {
    match v
    case PNone => None
    case PBool(b) => Some(PFin(if b then 1.0 else 0.0))
    case PInt(i) => Some(PFin(i as real))
    case PFloat(f, _) => Some(f)
    case PStr(s) => ParseFloatPy(s)
    case PDecimal(d, _) => Some(PFin(d))
    case POther(_) => None
  }

  /** A value `pick_num` takes: not None, and `float()` accepts it. */
  predicate Converts(v: PyValue) { !v.PNone? && FloatOf(v).Some? }

  /** What `pick_num` returns: `float()` of the first value that converts, else None. */
  function PickNum(rec: PyRecord, fields: seq<string>): Option<PyFloat>
  {
    var vs := Gets(rec, fields);
    match FirstWhere(vs, Converts)
    case None => None
    case Some(i) => FloatOf(vs[i])
  }

  /** `pick_num` as written: the candidate loop, skipping None and values `float()` rejects. */
  method PickNumLoop(rec: PyRecord, fields: seq<string>) returns (r: Option<PyFloat>)
    ensures r == PickNum(rec, fields)
  {
    ghost var vs := Gets(rec, fields);
    var i := 0;
    while i < |fields|
      invariant 0 <= i <= |fields|
      invariant forall j :: 0 <= j < i ==> !Converts(vs[j])
    {
      var v := Get(rec, fields[i]);
      assert v == vs[i] by {
        GetsAt(rec, fields, i);
      }
      if v.PNone? {
        i := i + 1;
        continue;
      }
      var f := FloatOf(v);
      if f.None? {
        i := i + 1;
        continue;
      }
      FirstWhereAt(vs, Converts, i);
      return f;
    }
    return None;
  }

  /** `pick_num` returns `float()` of the first candidate that converts. */
  lemma {:induction false} PickNumFirst(rec: PyRecord, fields: seq<string>, i: nat)
    requires i < |fields| && Converts(Get(rec, fields[i]))
    requires forall j :: 0 <= j < i ==> !Converts(Get(rec, fields[j]))
    ensures PickNum(rec, fields) == FloatOf(Get(rec, fields[i]))
  {
    var vs := Gets(rec, fields);
    forall j | 0 <= j <= i
      ensures vs[j] == Get(rec, fields[j])
    {
      GetsAt(rec, fields, j);
    }
    FirstWhereAt(vs, Converts, i);
  }

  /** `pick_num` returns None exactly when no candidate converts. */
  lemma {:induction false} PickNumNone(rec: PyRecord, fields: seq<string>)
    ensures PickNum(rec, fields).None? <==> forall j :: 0 <= j < |fields| ==> !Converts(Get(rec, fields[j]))
  {
    var vs := Gets(rec, fields);
    forall j | 0 <= j < |fields|
      ensures vs[j] == Get(rec, fields[j])
    {
      GetsAt(rec, fields, j);
    }
    var f := FirstWhere(vs, Converts);
    if f.Some? {
      assert FloatOf(vs[f.value]).Some?;
    }
  }

  // ---- format_price ----

  /** The magnitude of a price in whole hundredths, ties to even. */
  function Hundredths(x: real): (n: nat)
    ensures -0.5 <= n as real - 100.0 * (if x < 0.0 then -x else x) <= 0.5
    ensures -0.5 == n as real - 100.0 * (if x < 0.0 then -x else x) ==> n % 2 == 0
    ensures 0.5 == n as real - 100.0 * (if x < 0.0 then -x else x) ==> n % 2 == 0
  {
    RoundHalfEven((if x < 0.0 then -x else x) * 100.0)
  }

  /** `f"{v:.2f}"`: the sign, then the magnitude rounded to hundredths, ties to even. */
  function FormatPrice(v: Option<PyFloat>): (r: string)
    ensures r == "" <==> v.None?
  {
    match v
    case None => ""
    case Some(PFin(x)) =>
      var n := Hundredths(x);
      CentsShape(n);
      if x < 0.0 then "-" + Cents(n) else Cents(n)
    case Some(PNan) => "nan"
    case Some(PInf(neg)) => if neg then "-inf" else "inf"
  }

  /** The value `format_price` writes: x rounded to hundredths, ties to even. */
  function Round2Even(x: real): real
  {
    var v := Hundredths(x) as real / 100.0;
    if x < 0.0 then -v else v
  }

  /** The written price is within half a cent of the price. */
  lemma Round2EvenClose(x: real)
    ensures x - 0.005 <= Round2Even(x) <= x + 0.005
  {
  }

  lemma {:induction false} CentsNotSpecial(n: nat)
    ensures var c := Cents(n);
      |c| >= 4 && IsDigit(c[0]) && IsDigit(c[|c| - 1]) && StripPy(c) == c
  {
    var c := Cents(n);
    CentsShape(n);
    assert IsDigit(c[0]) by {
      assert c[..|c| - 3][0] == c[0];
    }
    assert IsDigit(c[|c| - 1]) by {
      assert c[|c| - 2..][1] == c[|c| - 1];
    }
    TrimOfTrimmed(c, IsPySpace);
  }

  /** `float()` reads `Cents(n)` back as n/100. */
  lemma {:induction false} ParseCentsPy(n: nat, c: string)
    requires c == Cents(n)
    ensures ParseFloatPy(c) == Some(PFin(n as real / 100.0))
  {
    CentsNotSpecial(n);
    CentsReadsBack(n);
    ParseDigitTextPy(c, n);
  }

  /** Digit-led text with no surrounding space that scans in full as n/100: `float()` reads
      it as n/100, and with a minus in front as -(n/100). */
  lemma ParseDigitTextPy(c: string, n: nat)
    requires |c| > 0 && IsDigit(c[0]) && IsDigit(c[|c| - 1]) && StripPy(c) == c
    requires ScanUnsignedDecimal(c) == Some(Scan(|c|, n as real / 100.0))
    ensures ParseFloatPy(c) == Some(PFin(n as real / 100.0))
    ensures ParseFloatPy("-" + c) == Some(PFin(-(n as real / 100.0)))
  {
    ParseDigitsPy(false, c, n);
    MinusStripped(c);
    ParseDigitsPy(true, c, n);
  }

  /** A minus sign before stripped digit-ended text: `strip` keeps it, and the sign is followed
      by the text. */
  lemma {:induction false} MinusStripped(c: string)
    requires |c| > 0 && IsDigit(c[0]) && IsDigit(c[|c| - 1]) && StripPy(c) == c
    ensures StripPy("-" + c) == "-" + c
    ensures ("-" + c)[0] == '-' && ("-" + c)[1..] == c
  {
    var s := "-" + c;
    assert s[1..] == c && s[0] == '-' && s[|s| - 1] == c[|c| - 1];
    TrimOfTrimmed(s, IsPySpace);
  }

  /** `float()` reads `"-" + Cents(n)` back as -(n/100). */
  lemma {:induction false} ParseNegCentsPy(n: nat, c: string, s: string)
    requires c == Cents(n) && s == "-" + c
    ensures ParseFloatPy(s) == Some(PFin(-(n as real / 100.0)))
  {
    CentsNotSpecial(n);
    CentsReadsBack(n);
    ParseDigitTextPy(c, n);
  }

  /** The text `format_price` writes for a finite price. */
  lemma FormatPriceFinite(x: real)
    ensures var n := Hundredths(x);
      FormatPrice(Some(PFin(x))) == if x < 0.0 then "-" + Cents(n) else Cents(n)
  {
  }

  /** Reading back what `format_price` wrote gives the price rounded to cents. */
  lemma {:induction false} FormatPriceReadsBack(x: real)
    ensures ParseFloatPy(FormatPrice(Some(PFin(x)))) == Some(PFin(Round2Even(x)))
  {
    var n := Hundredths(x);
    FormatPriceFinite(x);
    assert Round2Even(x) == if x < 0.0 then -(n as real / 100.0) else n as real / 100.0;
    if x < 0.0 {
      ParseNegCentsPy(n, Cents(n), "-" + Cents(n));
    } else {
      ParseCentsPy(n, Cents(n));
    }
  }

  /** `v > 0` on floats: never true of NaN. */
  predicate Positive(a: PyFloat)
  {
    match a
    case PFin(x) => x > 0.0
    case PNan => false
    case PInf(neg) => !neg
  }

  /** `a < b` on floats: never true when either is NaN. */
  predicate Less(a: PyFloat, b: PyFloat)
  {
    match (a, b)
    case (PFin(x), PFin(y)) => x < y
    case (PFin(_), PInf(nb)) => !nb
    case (PInf(na), PFin(_)) => na
    case (PInf(na), PInf(nb)) => na && !nb
    case _ => false
  }

  /** The promotional price rule of lines 158-163: written only when 0 < p < regular. */
  function PriceIfBelow(p: Option<PyFloat>, regular: Option<PyFloat>): (r: string)
    ensures r != "" <==> p.Some? && regular.Some? && Positive(p.value) && Less(p.value, regular.value)
    ensures r != "" ==> r == FormatPrice(p)
  {
    if p.Some? && regular.Some? && Positive(p.value) && Less(p.value, regular.value) then FormatPrice(p) else ""
  }

  // ---- slugify ----

  /** The slug of a string: strip, lower-case, then the slug rule; blank text gives ''. */
  function SlugText(s: string): (r: string)
    ensures IsSlug(r)
    ensures StripPy(s) == "" ==> r == ""
  {
    var t := Lower(StripPy(s));
    if t == "" then "" else SlugCoreIsSlug(t); SlugCore(t)
  }

  /** `slugify` on a string, with its two loops. */
  method SlugTextScan(s: string) returns (r: string)
    ensures r == SlugText(s)
  {
    var t := Lower(StripPy(s));
    if t == "" {
      return "";
    }
    r := SlugCoreScan(t);
  }

  /** Python truthiness. */
  predicate Truthy(v: PyValue)
  {
    match v
    case PNone => false
    case PBool(b) => b
    case PInt(i) => i != 0
    case PFloat(f, _) => f != PFin(0.0)
    case PStr(s) => s != ""
    case PDecimal(d, _) => d != 0.0
    case POther(_) => true
  }

  const AttributeError: string := "AttributeError"

  /** `slugify(v)`: `(v or '')` is '' for a falsy value; a truthy value other than a string has
      no `strip` and raises AttributeError. */
  function Slugify(v: PyValue): (r: Result<string, string>)
    ensures r.Success? ==> IsSlug(r.value)
    ensures r.Failure? <==> Truthy(v) && !v.PStr?
    ensures !Truthy(v) ==> r == Success("")
  {
    if !Truthy(v) then Success("")
    else if v.PStr? then Success(SlugText(v.s))
    else Failure(AttributeError)
  }

  lemma {:induction false} SlugIsStripped(r: string)
    requires IsSlug(r)
    ensures StripPy(r) == r && Lower(r) == r
  {
    if |r| > 0 {
      assert !IsPySpace(r[0]) && !IsPySpace(r[|r| - 1]);
    }
    TrimOfTrimmed(r, IsPySpace);
    SlugIsLower(r);
  }

  /** Slugifying a slug changes nothing. */
  lemma {:induction false} SlugTextIdempotent(s: string)
    ensures SlugText(SlugText(s)) == SlugText(s)
  {
    var t := Lower(StripPy(s));
    var r := SlugText(s);
    SlugIsStripped(r);
    if r != "" {
      SlugCoreIdempotent(t);
    }
  }

  /** The slug is the words of the stripped, lower-cased text joined by single dashes. */
  lemma {:induction false} SlugTextIsJoinedWords(s: string)
    ensures SlugText(s) == Join(Words(Lower(StripPy(s))), "-")
  {
    SlugCoreIsJoinedWords(Lower(StripPy(s)));
  }

  // ---- parse_boolish ----

  /** `parse_boolish`: bool is tested before numbers; `bool(x)` of a number is x != 0 (NaN is
      true); a string is read through the token sets after strip and lower-casing. A `Decimal`
      is neither an int nor a float, so it falls through to None. */
  function ParseBoolish(v: PyValue): (r: Option<bool>)
    ensures v.PNone? || v.PDecimal? || v.POther? ==> r.None?
    ensures v.PBool? ==> r == Some(v.b)
    ensures v.PInt? ==> r == Some(v.i != 0)
    ensures v.PFloat? ==> r == Some(v.f != PFin(0.0))
    ensures v.PStr? && Lower(StripPy(v.s)) in JsValues.TrueTokens ==> r == Some(true)
    ensures v.PStr? && Lower(StripPy(v.s)) in JsValues.FalseTokens ==> r == Some(false)
    ensures v.PStr? && Lower(StripPy(v.s)) !in JsValues.TrueTokens + JsValues.FalseTokens ==> r.None?
  {
    match v
    case PNone => None
    case PBool(b) => Some(b)
    case PInt(i) => Some(i != 0)
    case PFloat(f, _) => Some(f != PFin(0.0))
    case PStr(s) =>
      var t := Lower(StripPy(s));
      JsValues.TokenSetsDisjoint();
      if t in JsValues.NullTokens then None
      else if t in JsValues.TrueTokens then Some(true)
      else if t in JsValues.FalseTokens then Some(false)
      else None
    case PDecimal(_, _) => None
    case POther(_) => None
  }

  /** '', 'null' and 'none' read as None, whatever the spacing and case. */
  lemma NullWordsReadAsNone(s: string)
    requires Lower(StripPy(s)) in JsValues.NullTokens
    ensures ParseBoolish(PStr(s)).None?
  {
    JsValues.TokenSetsDisjoint();
  }

  // ---- map_record_to_api_row ----

  const RegularKey: string := "STPRECUNI2"
  const SpecialKey: string := "STPRECUNI1"

  /** Iterating a `str` visits its one-character strings. */
  function Chars(s: string): (r: seq<string>)
    ensures |r| == |s|
    ensures forall i :: 0 <= i < |s| ==> r[i] == [s[i]]
  {
    seq(|s|, i requires 0 <= i < |s| => [s[i]])
  }

  /** The mapper, with the candidate sequences it hands to `pick_num` for the regular and the
      special price. A slugify failure propagates as the raised error. */
  function MapRecordWith(rec: PyRecord, regularFields: seq<string>, specialFields: seq<string>)
    : (r: Result<ApiMapper.ApiRow, string>)
    ensures r.Success? ==> var row := r.value;
      row.salePrice == "" && row.imageUrl == "" && row.videoUrl == "" && row.weight == ""
      && row.dimensionLength == "" && row.dimensionWidth == "" && row.dimensionHeight == ""
      && IsSlug(row.categorySlug) && (row.isActive == "true" || row.isActive == "false")
  {
    var sku := PickStr(rec, ["STCODIGO"]);
    var name := PickStr(rec, ["STDESCRIP"]);
    var description := PickStr(rec, ["STDETALLE", "STDESCRIP"]);
    var regular := PickNum(rec, regularFields);
    var sale: Option<PyFloat> := None;
    var special := PickNum(rec, specialFields);
    var famName := PickStr(rec, ["STNOMFAM"]);
    var famCode := PickStr(rec, ["STFAMILIA"]);
    match CategorySlug(famName, famCode)
    case Failure(e) => Failure(e)
    case Success(slug) =>
      var borrar := ParseBoolish(Get(rec, "STBORRAR"));
      var isActive := if borrar.None? then true else !borrar.value;
      Success(ApiMapper.ApiRow(CellText(sku), CellText(name), CellText(description), FormatPrice(regular),
        PriceIfBelow(sale, regular), PriceIfBelow(special, regular), slug, "", "", "", "", "", "",
        if isActive then "true" else "false"))
  }

  /** `slugify(fam_name) or slugify(fam_code)`, the second tried only when the first is ''. */
  function CategorySlug(famName: PyValue, famCode: PyValue): (r: Result<string, string>)
    ensures r.Success? ==> IsSlug(r.value)
    ensures r.Failure? <==> Slugify(famName).Failure? || (Slugify(famName) == Success("") && Slugify(famCode).Failure?)
  {
    match Slugify(famName)
    case Failure(e) => Failure(e)
    case Success(a) => if a != "" then Success(a) else Slugify(famCode)
  }

  /** `map_record_to_api_row` as written: lines 151 and 155 pass the bare strings, so `pick_num`
      iterates their characters as field names. It fails exactly when the corrected mapper does,
      and the two rows differ at most in the regular and the special price. */
  function MapRecordAsWritten(rec: PyRecord): (r: Result<ApiMapper.ApiRow, string>)
    ensures r.Success? <==> MapRecordCorrected(rec).Success?
    ensures r.Failure? ==> r.error == MapRecordCorrected(rec).error
    ensures r.Success? ==>
      r.value == MapRecordCorrected(rec).value.(regularPrice := r.value.regularPrice, specialPrice := r.value.specialPrice)
  {
    MapRecordWith(rec, Chars(RegularKey), Chars(SpecialKey))
  }

  /** `map_record_to_api_row` corrected to the one-element tuples `('STPRECUNI2',)` and
      `('STPRECUNI1',)`: the regular price is `float()` of `STPRECUNI2` when it converts, and the
      special price is written only when 0 < special < regular. */
  function MapRecordCorrected(rec: PyRecord): (r: Result<ApiMapper.ApiRow, string>)
    ensures r.Success? ==>
      var regular := if Converts(Get(rec, RegularKey)) then FloatOf(Get(rec, RegularKey)) else None;
      var special := if Converts(Get(rec, SpecialKey)) then FloatOf(Get(rec, SpecialKey)) else None;
      r.value.regularPrice == FormatPrice(regular)
      && r.value.specialPrice == PriceIfBelow(special, regular)
  {
    SingleCandidate(rec, RegularKey);
    SingleCandidate(rec, SpecialKey);
    MapRecordWith(rec, [RegularKey], [SpecialKey])
  }

  /** The row is the fourteen columns of `API_HEADERS`. */
  lemma RowWidth(rec: PyRecord)
    requires MapRecordAsWritten(rec).Success?
    ensures |ApiMapper.Columns(MapRecordAsWritten(rec).value)| == |ApiMapper.ApiHeaders| == 14
  {
  }

  /** The product is active unless `STBORRAR` reads as true. */
  lemma {:induction false} ActiveUnlessDeleted(rec: PyRecord)
    requires MapRecordAsWritten(rec).Success?
    ensures MapRecordAsWritten(rec).value.isActive == "true" <==> ParseBoolish(Get(rec, "STBORRAR")) != Some(true)
  {
  }

  lemma {:induction false} SingleCandidate(rec: PyRecord, key: string)
    ensures PickNum(rec, [key]) == if Converts(Get(rec, key)) then FloatOf(Get(rec, key)) else None
  {
    if Converts(Get(rec, key)) {
      PickNumFirst(rec, [key], 0);
    } else {
      PickNumNone(rec, [key]);
    }
  }

  /** The mapper fails only by a slugify error, and then on a truthy non-string family value. */
  lemma {:induction false} MapRecordFails(rec: PyRecord)
    ensures MapRecordAsWritten(rec).Failure? <==>
      var famName := PickStr(rec, ["STNOMFAM"]);
      var famCode := PickStr(rec, ["STFAMILIA"]);
      Slugify(famName).Failure? || (Slugify(famName) == Success("") && Slugify(famCode).Failure?)
  {
  }

  /** With the code as written, a record without one-character keys gets no regular price and no
      special price, whatever `STPRECUNI2` and `STPRECUNI1` hold. */
  lemma {:induction false} AsWrittenIgnoresPrices(rec: PyRecord)
    requires forall i :: 0 <= i < |rec| ==> |rec[i].0| != 1
    requires MapRecordAsWritten(rec).Success?
    ensures MapRecordAsWritten(rec).value.regularPrice == ""
    ensures MapRecordAsWritten(rec).value.specialPrice == ""
  {
    NoCharKeys(rec, RegularKey);
    NoCharKeys(rec, SpecialKey);
  }

  lemma {:induction false} NoCharKeys(rec: PyRecord, key: string)
    requires forall i :: 0 <= i < |rec| ==> |rec[i].0| != 1
    ensures PickNum(rec, Chars(key)).None?
  {
    var fields := Chars(key);
    forall j | 0 <= j < |fields|
      ensures !Converts(Get(rec, fields[j]))
    {
      MissingKey(rec, fields[j]);
    }
    PickNumNone(rec, fields);
  }

  lemma {:induction false} MissingKey(rec: PyRecord, key: string)
    requires |key| == 1 && forall i :: 0 <= i < |rec| ==> |rec[i].0| != 1
    ensures Get(rec, key).PNone?
  {
    LookupMissing(rec, key);
  }

  lemma {:induction false} LookupMissing(rec: PyRecord, key: string)
    requires forall i :: 0 <= i < |rec| ==> rec[i].0 != key
    ensures Lookup(rec, key).None?
  {
    if |rec| > 0 {
      LookupMissing(rec[1..], key);
    }
  }

  /** A record that shows the difference: a price of 100 and a special price of 50. */
  function PricedRecord(): PyRecord
  {
    [(RegularKey, PInt(100)), (SpecialKey, PInt(50))]
  }

  /** On that record the code as written leaves both price columns empty. */
  lemma {:induction false} PricedRecordAsWritten()
    ensures MapRecordAsWritten(PricedRecord()).Success?
    ensures MapRecordAsWritten(PricedRecord()).value.regularPrice == ""
    ensures MapRecordAsWritten(PricedRecord()).value.specialPrice == ""
  {
    var rec := PricedRecord();
    assert |rec[0].0| == 10 && |rec[1].0| == 10;
    NoFamilyName(rec);
    MapsWithoutFamily(rec, Chars(RegularKey), Chars(SpecialKey));
    AsWrittenIgnoresPrices(rec);
  }

  /** On that record the intended mapper writes the price and the special price below it. */
  lemma {:induction false} PricedRecordIntended()
    ensures MapRecordCorrected(PricedRecord()).Success?
    ensures MapRecordCorrected(PricedRecord()).value.regularPrice == FormatPrice(Some(PFin(100.0)))
    ensures MapRecordCorrected(PricedRecord()).value.specialPrice == FormatPrice(Some(PFin(50.0)))
    ensures MapRecordCorrected(PricedRecord()).value.specialPrice != ""
  {
    var rec := PricedRecord();
    NoFamilyName(rec);
    MapsWithoutFamily(rec, [RegularKey], [SpecialKey]);
    PricedRecordValues(rec);
    IntPrices(rec, 100, 50);
  }

  lemma PricedRecordValues(rec: PyRecord)
    requires rec == PricedRecord()
    ensures Get(rec, RegularKey) == PInt(100) && Get(rec, SpecialKey) == PInt(50)
  {
    assert rec[0].0 != SpecialKey by {
      assert RegularKey[9] != SpecialKey[9];
    }
    assert rec[1..] == [(SpecialKey, PInt(50))];
    assert Lookup(rec[1..], SpecialKey) == Some(PInt(50));
  }

  /** Whole-number prices: the special price below the regular one is written. */
  lemma {:induction false} IntPrices(rec: PyRecord, regular: int, special: int)
    requires MapRecordCorrected(rec).Success?
    requires Get(rec, RegularKey) == PInt(regular) && Get(rec, SpecialKey) == PInt(special)
    requires 0 < special < regular
    ensures MapRecordCorrected(rec).value.regularPrice == FormatPrice(Some(PFin(regular as real)))
    ensures MapRecordCorrected(rec).value.specialPrice == FormatPrice(Some(PFin(special as real)))
  {
  }

  lemma {:induction false} NoFamilyName(rec: PyRecord)
    requires rec == PricedRecord()
    ensures PickStr(rec, ["STNOMFAM"]) == PStr("") && PickStr(rec, ["STFAMILIA"]) == PStr("")
  {
    assert "STNOMFAM"[2] != RegularKey[2] && "STNOMFAM"[2] != SpecialKey[2];
    assert "STFAMILIA"[2] != RegularKey[2] && "STFAMILIA"[2] != SpecialKey[2];
    LookupMissing(rec, "STNOMFAM");
    LookupMissing(rec, "STFAMILIA");
    PickStrNone(rec, ["STNOMFAM"]);
    PickStrNone(rec, ["STFAMILIA"]);
  }

  /** Without a family name or code the category slug is '' and the mapper succeeds. */
  lemma MapsWithoutFamily(rec: PyRecord, regularFields: seq<string>, specialFields: seq<string>)
    requires PickStr(rec, ["STNOMFAM"]) == PStr("") && PickStr(rec, ["STFAMILIA"]) == PStr("")
    ensures MapRecordWith(rec, regularFields, specialFields).Success?
  {
  }

  // ---- The export loops ----

  /** The records a run exports: skip `offset` when it is non-zero (a negative one skips
      nothing), then stop after `limit` rows when it is given and positive. */
  function Window(n: nat, limit: Option<int>, offset: int): (w: (nat, nat))
    ensures w.0 <= w.1 <= n
  {
    var s := if offset > 0 then Min(offset, n) else 0;
    var e := if limit.Some? && limit.value > 0 then Min(s + limit.value, n) else n;
    (s, e)
  }

  /** The row written for a record in the all-fields format: each header's normalised value. */
  function FieldsRow(rec: PyRecord, headers: seq<string>): (row: seq<string>)
    ensures |row| == |headers|
    ensures forall j :: 0 <= j < |headers| ==> row[j] == CellText(NormalizeValue(Get(rec, headers[j])))
  {
    seq(|headers|, j requires 0 <= j < |headers| => CellText(NormalizeValue(Get(rec, headers[j]))))
  }

  function FieldsRows(recs: seq<PyRecord>, headers: seq<string>): (rows: seq<seq<string>>)
    ensures |rows| == |recs|
    ensures forall k :: 0 <= k < |recs| ==> rows[k] == FieldsRow(recs[k], headers)
  {
    seq(|recs|, k requires 0 <= k < |recs| => FieldsRow(recs[k], headers))
  }

  /** One more record adds its row at the end. */
  lemma FieldsRowsAppend(recs: seq<PyRecord>, rec: PyRecord, headers: seq<string>)
    ensures FieldsRows(recs + [rec], headers) == FieldsRows(recs, headers) + [FieldsRow(rec, headers)]
  {
  }

  /** `export_stock_all_fields`: the lines written (header first) and (columns, rows written). */
  method ExportAllFields(records: seq<PyRecord>, headers: seq<string>, limit: Option<int>, offset: int)
    returns (cols: nat, rowsWritten: nat, lines: seq<seq<string>>)
    ensures var (s, e) := Window(|records|, limit, offset);
      cols == |headers| && rowsWritten == e - s
      && lines == [headers] + FieldsRows(records[s..e], headers)
  {
    ghost var s := Window(|records|, limit, offset).0;
    lines := [headers];
    rowsWritten := 0;
    var skipped := 0;
    var i := 0;
    while i < |records|
      invariant 0 <= i <= |records|
      invariant skipped == Min(i, s) && skipped <= i && rowsWritten == i - skipped
      invariant lines == [headers] + FieldsRows(records[skipped..i], headers)
      invariant limit.Some? && limit.value > 0 ==> rowsWritten < limit.value
    {
      var rec := records[i];
      if offset != 0 && skipped < offset {
        skipped := skipped + 1;
        i := i + 1;
        continue;
      }
      var row := FieldsRow(rec, headers);
      assert records[skipped..i + 1] == records[skipped..i] + [rec];
      FieldsRowsAppend(records[skipped..i], rec, headers);
      lines := lines + [row];
      rowsWritten := rowsWritten + 1;
      i := i + 1;
      if limit.Some? && limit.value > 0 && rowsWritten >= limit.value {
        break;
      }
    }
    cols := |headers|;
  }

  /** What the mapper gives `writer.writerow`: the row's cells, or the error it raised. */
  type Outcome = Result<seq<string>, string>

  /** `map_record_to_api_row` as written, as `export_stock_api_format` calls it. */
  function RowOf(rec: PyRecord): (r: Outcome)
    ensures MapRecordAsWritten(rec).Success? ==> r == Success(ApiMapper.Columns(MapRecordAsWritten(rec).value))
    ensures MapRecordAsWritten(rec).Failure? ==> r == Failure(MapRecordAsWritten(rec).error)
  {
    match MapRecordAsWritten(rec)
    case Success(row) => Success(ApiMapper.Columns(row))
    case Failure(e) => Failure(e)
  }

  /** So a record without one-character keys is exported with empty price columns. */
  lemma RowOfHasNoPrices(rec: PyRecord)
    requires forall i :: 0 <= i < |rec| ==> |rec[i].0| != 1
    requires RowOf(rec).Success?
    ensures RowOf(rec).value[3] == "" && RowOf(rec).value[5] == ""
  {
    AsWrittenIgnoresPrices(rec);
  }

  /** The outcome of mapping each record. */
  function MapAll(recs: seq<PyRecord>): (ms: seq<Outcome>)
    ensures |ms| == |recs|
  {
    seq(|recs|, k requires 0 <= k < |recs| => RowOf(recs[k]))
  }

  /** `ms[k]` is the mapping of `recs[k]`. */
  predicate Mapped(recs: seq<PyRecord>, ms: seq<Outcome>, k: nat)
    requires k < |recs| == |ms|
  {
    ms[k] == RowOf(recs[k])
  }

  predicate MapsTo(recs: seq<PyRecord>, ms: seq<Outcome>)
  {
    |ms| == |recs| && forall k: nat {:trigger Mapped(recs, ms, k)} :: k < |recs| ==> Mapped(recs, ms, k)
  }

  lemma MapAllMapsTo(recs: seq<PyRecord>)
    ensures MapsTo(recs, MapAll(recs))
  {
    forall k: nat | k < |recs|
      ensures Mapped(recs, MapAll(recs), k)
    {
    }
  }

  /** The rows written for a run of mapping outcomes, up to the first error, and that error. */
  function LinesOf(ms: seq<Outcome>): (seq<seq<string>>, Option<string>)
  {
    if |ms| == 0 then ([], None)
    else match ms[0]
      case Failure(e) => ([], Some(e))
      case Success(row) =>
        var rest := LinesOf(ms[1..]);
        ([row] + rest.0, rest.1)
  }

  /** The run of outcomes ends in an error exactly when some record fails to map, and then
      it is the first such error; otherwise there is one row per record. */
  lemma {:induction false} LinesOfError(ms: seq<Outcome>)
    ensures LinesOf(ms).1.None? <==> forall k :: 0 <= k < |ms| ==> ms[k].Success?
    ensures LinesOf(ms).1.Some? ==>
      exists k :: 0 <= k < |ms| && ms[k] == Failure(LinesOf(ms).1.value)
        && |LinesOf(ms).0| == k && forall j :: 0 <= j < k ==> ms[j].Success?
  {
    if |ms| > 0 && ms[0].Success? {
      LinesOfError(ms[1..]);
      assert forall k :: 1 <= k < |ms| ==> ms[k] == ms[1..][k - 1];
      if LinesOf(ms).1.Some? {
        var k :| 0 <= k < |ms| - 1 && ms[1..][k] == Failure(LinesOf(ms).1.value)
          && |LinesOf(ms[1..]).0| == k && forall j :: 0 <= j < k ==> ms[1..][j].Success?;
        assert ms[k + 1] == Failure(LinesOf(ms).1.value);
      }
    }
  }

  /** The rows the API format writes for `recs`, up to the first mapping error. */
  function ApiLines(recs: seq<PyRecord>): (seq<seq<string>>, Option<string>)
  {
    LinesOf(MapAll(recs))
  }

  /** One more outcome: a row is added, or the first error is recorded. */
  lemma {:induction false} LinesOfAppend(ms: seq<Outcome>, m: Outcome)
    requires LinesOf(ms).1.None?
    ensures m.Failure? ==> LinesOf(ms + [m]) == (LinesOf(ms).0, Some(m.error))
    ensures m.Success? ==> LinesOf(ms + [m]) == (LinesOf(ms).0 + [m.value], None)
  {
    if |ms| == 0 {
      assert ms + [m] == [m];
      assert [m][0] == m && [m][1..] == [];
      assert LinesOf(ms) == ([], None);
      assert LinesOf([m][1..]) == ([], None);
      if m.Success? {
        var c := m.value;
        assert LinesOf([m]) == ([c] + [], None);
        assert [c] + [] == [c] == LinesOf(ms).0 + [c];
      }
    } else {
      var t := ms + [m];
      assert t[0] == ms[0] && t[1..] == ms[1..] + [m];
      assert ms[0].Success?;
      assert LinesOf(ms).0 == [ms[0].value] + LinesOf(ms[1..]).0;
      assert LinesOf(t) == ([t[0].value] + LinesOf(t[1..]).0, LinesOf(t[1..]).1);
      LinesOfAppend(ms[1..], m);
      if m.Success? {
        var c0, cm := ms[0].value, m.value;
        assert [c0] + (LinesOf(ms[1..]).0 + [cm]) == ([c0] + LinesOf(ms[1..]).0) + [cm];
      }
    }
  }

  /** Rows stop at the first error, so what follows it changes nothing. */
  lemma {:induction false} LinesOfStop(ms: seq<Outcome>, i: nat, e: nat)
    requires i < e <= |ms|
    requires LinesOf(ms[..i + 1]).1.Some?
    ensures LinesOf(ms[..e]) == LinesOf(ms[..i + 1])
  {
    assert ms[..e][0] == ms[..i + 1][0] == ms[0];
    if ms[0].Success? {
      assert i > 0;
      assert ms[..e][1..] == ms[1..][..e - 1];
      assert ms[..i + 1][1..] == ms[1..][..i];
      LinesOfStop(ms[1..], i - 1, e - 1);
    }
  }

  lemma LinesOfEmpty(ms: seq<Outcome>, j: nat)
    requires j <= |ms|
    ensures LinesOf(ms[j..j]) == ([], None)
  {
  }

  /** A record that maps adds its row. */
  lemma LinesOfRowAt(ms: seq<Outcome>, s: nat, i: nat)
    requires s <= i < |ms| && ms[i].Success? && LinesOf(ms[s..i]).1.None?
    ensures LinesOf(ms[s..i + 1]) == (LinesOf(ms[s..i]).0 + [ms[i].value], None)
  {
    assert ms[s..i + 1] == ms[s..i] + [ms[i]];
    LinesOfAppend(ms[s..i], ms[i]);
  }

  /** The first record that fails to map ends the rows of the whole window with its error. */
  lemma LinesOfFailureAt(ms: seq<Outcome>, s: nat, i: nat, e: nat)
    requires s <= i < e <= |ms| && ms[i].Failure? && LinesOf(ms[s..i]).1.None?
    ensures LinesOf(ms[s..e]) == (LinesOf(ms[s..i]).0, Some(ms[i].error))
  {
    assert ms[s..i + 1] == ms[s..i] + [ms[i]];
    LinesOfAppend(ms[s..i], ms[i]);
    assert ms[s..e][..i - s + 1] == ms[s..i + 1];
    LinesOfStop(ms[s..e], i - s, e - s);
    assert ms[s..e][..e - s] == ms[s..e];
  }

  /** `export_stock_api_format`: the lines written (header first), and (columns, rows written)
      or the error a mapping raised. */
  method ExportApiFormat(records: seq<PyRecord>, limit: Option<int>, offset: int)
    returns (outcome: Result<(nat, nat), string>, lines: seq<seq<string>>)
    ensures var (s, e) := Window(|records|, limit, offset);
      var (rows, err) := LinesOf(MapAll(records)[s..e]);
      lines == [ApiMapper.ApiHeaders] + rows
      && (err.None? ==> outcome == Success((|ApiMapper.ApiHeaders|, e - s)))
      && (err.Some? ==> outcome == Failure(err.value))
  {
    MapAllMapsTo(records);
    outcome, lines := WriteApiLines(records, MapAll(records), ApiMapper.ApiHeaders, limit, offset);
  }

  /** The loop of `export_stock_api_format`, given what each record maps to. */
  method WriteApiLines(records: seq<PyRecord>, ghost ms: seq<Outcome>,
                       header: seq<string>, limit: Option<int>, offset: int)
    returns (outcome: Result<(nat, nat), string>, lines: seq<seq<string>>)
    requires MapsTo(records, ms)
    ensures var (s, e) := Window(|records|, limit, offset);
      var (rows, err) := LinesOf(ms[s..e]);
      lines == [header] + rows
      && (err.None? ==> outcome == Success((|header|, e - s)))
      && (err.Some? ==> outcome == Failure(err.value))
  {
    ghost var s := Window(|records|, limit, offset).0;
    ghost var e := Window(|records|, limit, offset).1;
    lines := [header];
    var rowsWritten := 0;
    var skipped := 0;
    var i := 0;
    while i < |records|
      invariant 0 <= i <= |records|
      invariant skipped == Min(i, s) && skipped <= i && rowsWritten == i - skipped
      invariant LinesOf(ms[skipped..i]).1.None?
      invariant lines == [header] + LinesOf(ms[skipped..i]).0
      invariant limit.Some? && limit.value > 0 ==> rowsWritten < limit.value
    {
      if offset != 0 && skipped < offset {
        assert skipped == i;
        LinesOfEmpty(ms, i + 1);
        skipped := skipped + 1;
        i := i + 1;
        continue;
      }
      var failure;
      lines, failure := WriteRecord(records, ms, skipped, i, lines, header);
      if failure.Some? {
        ExportFailureWindow(|records|, limit, offset, skipped, i);
        LinesOfFailureAt(ms, s, i, e);
        return Failure(failure.value), lines;
      }
      rowsWritten := rowsWritten + 1;
      i := i + 1;
      if limit.Some? && limit.value > 0 && rowsWritten >= limit.value {
        break;
      }
    }
    assert skipped == s && i == e;
    outcome := Success((|header|, rowsWritten));
  }

  /** One pass of the loop body past the offset: map the record at `i` and write its row, or
      report the error it raised. */
  method WriteRecord(records: seq<PyRecord>, ghost ms: seq<Outcome>, ghost skipped: nat, i: nat,
                     lines: seq<seq<string>>, ghost header: seq<string>)
    returns (lines': seq<seq<string>>, failure: Option<string>)
    requires MapsTo(records, ms) && skipped <= i < |records|
    requires LinesOf(ms[skipped..i]).1.None? && lines == [header] + LinesOf(ms[skipped..i]).0
    ensures failure == LinesOf(ms[skipped..i + 1]).1
    ensures failure.None? ==> lines' == [header] + LinesOf(ms[skipped..i + 1]).0
    ensures failure.Some? ==> lines' == lines && ms[i].Failure? && failure == Some(ms[i].error)
  {
    var mapped := MapRecordAt(records, ms, i);
    if mapped.Failure? {
      LinesOfFailureAt(ms, skipped, i, i + 1);
      return lines, Some(mapped.error);
    }
    LinesOfRowAt(ms, skipped, i);
    return lines + [mapped.value], None;
  }

  /** `map_record_to_api_row(rec)` for the record at `i`. */
  method MapRecordAt(records: seq<PyRecord>, ghost ms: seq<Outcome>, i: nat)
    returns (m: Outcome)
    requires MapsTo(records, ms) && i < |records|
    ensures m == ms[i]
  {
    m := RowOf(records[i]);
    assert Mapped(records, ms, i);
  }

  /** A record reached by the loop lies inside the window. */
  lemma ExportFailureWindow(n: nat, limit: Option<int>, offset: int, skipped: nat, i: nat)
    requires i < n && skipped == Min(i, Window(n, limit, offset).0)
    requires !(offset != 0 && skipped < offset)
    requires limit.Some? && limit.value > 0 ==> i - skipped < limit.value
    ensures skipped == Window(n, limit, offset).0 && i < Window(n, limit, offset).1
  {
  }

  // ---- main ----

  /** `None if not args.limit or args.limit <= 0 else args.limit`. */
  function MainLimit(limit: int): (r: Option<int>)
    ensures r.Some? <==> limit > 0
    ensures r.Some? ==> r.value == limit
  {
    if limit == 0 || limit <= 0 then None else Some(limit)
  }

  /** `0 if not args.offset or args.offset < 0 else args.offset`. */
  function MainOffset(offset: int): (r: nat)
    ensures r == if offset > 0 then offset else 0
  {
    if offset == 0 || offset < 0 then 0 else offset
  }

  /** What `main` does to the arguments does not change which records are exported, and the
      export writes min(limit, n - offset) rows, or every record past the offset. */
  lemma MainKeepsWindow(n: nat, limit: int, offset: int)
    ensures Window(n, MainLimit(limit), MainOffset(offset)) == Window(n, Some(limit), offset)
    ensures var (s, e) := Window(n, Some(limit), offset);
      s == (if offset > 0 then Min(offset, n) else 0)
      && e - s == (if limit > 0 then Min(limit, n - s) else n - s)
  {
  }
}
