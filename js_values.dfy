/** JavaScript values as the DBF worker meets them in decoded records, and the
    scalar coercers of `dbf.worker.ts`: `String(v)`, `normalizeValue`,
    `parseFloat`, `parseNumberish`, `formatPrice`, `parseBoolish` and
    `slugify`. */
module JsValues {
  import opened Base
  import opened Text
  import opened Decimal
  import opened Slugs

  /** A JavaScript number. For a finite one, `text` is what `String(n)` renders. */
  datatype JsNumber = Finite(value: real, text: string) | NaN | Infinite(negative: bool)

  /** A field value of a decoded record. A date is carried as its `String()` text. */
  datatype Value = Undefined | Null | Bool(b: bool) | Number(n: JsNumber) | Str(s: string)

  /** A number that is not NaN: what `parseFloat` and `parseNumberish` can deliver. */
  datatype Num = Fin(x: real) | Inf(negative: bool)

  predicate IsNullish(v: Value) { v.Undefined? || v.Null? }

  /** `String(v)`. */
  function Stringify(v: Value): string
  {
    match v
    case Undefined => "undefined"
    case Null => "null"
    case Bool(b) => if b then "true" else "false"
    case Number(n) =>
      (match n
       case Finite(_, t) => t
       case NaN => "NaN"
       case Infinite(neg) => if neg then "-Infinity" else "Infinity")
    case Str(s) => s
  }

  /** `isBlankString`: a string that is empty after `trim()`. */
  predicate IsBlankString(v: Value) { v.Str? && TrimJs(v.s) == "" }

  /** `normalizeValue`: nullish becomes "", a string is trimmed, anything else is `String(v)`. */
  function NormalizeValue(v: Value): (r: string)
    ensures IsNullish(v) ==> r == ""
    ensures v.Str? ==> r == TrimJs(v.s) && TrimJs(r) == r
    ensures !IsNullish(v) && !v.Str? ==> r == Stringify(v)
  {
    match v
    case Undefined => ""
    case Null => ""
    case Str(s) => TrimIdempotent(s, IsJsSpace); TrimJs(s)
    case _ => Stringify(v)
  }

  // ---- parseFloat ----

  /** `parseFloat(s)`: skip leading white space, read an optional sign and the longest
      prefix that is `Infinity` or a decimal literal; None stands for NaN. */
  function ParseFloatJs(s: string): (r: Option<Num>)
    ensures r.Some? ==> |TrimStart(s, IsJsSpace)| > 0
  {
    var t := TrimStart(s, IsJsSpace);
    var neg := |t| > 0 && t[0] == '-';
    var u := if |t| > 0 && (t[0] == '-' || t[0] == '+') then t[1..] else t;
    if "Infinity" <= u then Some(Inf(neg))
    else
      match ScanUnsignedDecimal(u)
      case None => None
      case Some(sc) => Some(Fin(if neg then -sc.value else sc.value))
  }

  predicate IsComma(c: char) { c == ',' }

  /** `s.replace(',', '.')`: only the first comma is replaced. */
  function ReplaceFirstComma(s: string): (r: string)
    ensures |r| == |s|
  {
    match FirstWhere(s, IsComma)
    case None => s
    case Some(i) => s[..i] + "." + s[i + 1..]
  }

  /** A lone decimal comma is read as a decimal point; any other text is left alone. */
  function CommaAsPoint(s: string): string
  {
    if ',' in s && '.' !in s then ReplaceFirstComma(s) else s
  }

  /** With no comma in `a`, the first comma of `a,b` is the one after `a`. */
  lemma {:induction false} ReplaceFirstCommaAt(a: string, b: string)
    requires ',' !in a
    ensures ReplaceFirstComma(a + "," + b) == a + "." + b
  {
    var s := a + "," + b;
    assert forall j :: 0 <= j < |a| ==> s[j] == a[j];
    assert s[|a|] == ',';
    FirstWhereAt(s, IsComma, |a|);
    assert s[..|a|] == a;
    assert s[|a| + 1..] == b;
  }

  /** `parseNumberish`: null for nullish values, non-finite numbers, blank strings and
      text that does not start with a number; a lone decimal comma reads as a point. */
  function ParseNumberish(v: Value): (r: Option<Num>)
    ensures IsNullish(v) ==> r.None?
    ensures v.Number? ==> (r.Some? <==> v.n.Finite?)
    ensures v.Number? && v.n.Finite? ==> r == Some(Fin(v.n.value))
    ensures IsBlankString(v) ==> r.None?
  {
    match v
    case Undefined => None
    case Null => None
    case Number(n) => if n.Finite? then Some(Fin(n.value)) else None
    case _ =>
      var s := TrimJs(Stringify(v));
      if s == "" then None
      else
        ParseFloatJs(CommaAsPoint(s))
  }

  /** A substring of a string without `c` has no `c` either. */
  lemma {:induction false} NotInSlice(s: string, c: char, i: nat, j: nat)
    requires i <= j <= |s| && c !in s
    ensures c !in s[i..j]
  {
    assert forall k :: 0 <= k < j - i ==> s[i..j][k] == s[i + k];
  }

  /** Trimming text with a kept separator in it trims only the two outer parts. */
  lemma {:induction false} TrimAroundSeparator(a: string, c: char, b: string)
    requires c == ',' || c == '.'
    ensures TrimJs(a + [c] + b) == TrimStart(a, IsJsSpace) + [c] + TrimEnd(b, IsJsSpace)
  {
    TrimAroundKept(a, c, b, IsJsSpace);
  }

  /** `parseNumberish` of a string, in terms of its trimmed text. */
  lemma {:induction false} NumberishOfText(v: string, t: string)
    requires TrimJs(v) == t && t != ""
    ensures ParseNumberish(Str(v)) == ParseFloatJs(CommaAsPoint(t))
  {
    assert Stringify(Str(v)) == v;
  }

  /** The text `A,B` and `A.B` with no other separator in them. */
  lemma {:induction false} SeparatorsOf(A: string, B: string)
    requires ',' !in A && '.' !in A && '.' !in B
    ensures ',' in A + "," + B && '.' !in A + "," + B
    ensures '.' in A + "." + B
  {
    var t, t' := A + "," + B, A + "." + B;
    assert t[|A|] == ',' && t'[|A|] == '.';
    assert forall k :: 0 <= k < |t| ==> t[k] == if k < |A| then A[k] else if k == |A| then ',' else B[k - |A| - 1];
  }

  /** A decimal comma and a decimal point give the same number: "123,45" reads as "123.45". */
  lemma {:induction false} DecimalCommaAgrees(a: string, b: string)
    requires ',' !in a && '.' !in a && '.' !in b
    ensures ParseNumberish(Str(a + "," + b)) == ParseNumberish(Str(a + "." + b))
  {
    var A := TrimStart(a, IsJsSpace);
    var B := TrimEnd(b, IsJsSpace);
    var t, t' := A + "," + B, A + "." + B;
    assert TrimJs(a + "," + b) == t by {
      assert a + "," + b == a + [','] + b;
      TrimAroundSeparator(a, ',', b);
    }
    assert TrimJs(a + "." + b) == t' by {
      assert a + "." + b == a + ['.'] + b;
      TrimAroundSeparator(a, '.', b);
    }
    assert ',' !in A && '.' !in A && '.' !in B by {
      NotInSlice(a, ',', |a| - |A|, |a|);
      NotInSlice(a, '.', |a| - |A|, |a|);
      NotInSlice(b, '.', 0, |B|);
    }
    SeparatorsOf(A, B);
    assert t != "" && t' != "" by {
      assert |t| == |A| + 1 + |B| && |t'| == |A| + 1 + |B|;
    }
    ReplaceFirstCommaAt(A, B);
    NumberishOfText(a + "," + b, t);
    NumberishOfText(a + "." + b, t');
  }

  // ---- formatPrice ----

  /** `x.toFixed(2)` on an exact real: the sign, then the nearest hundredth, ties upward. */
  function ToFixed2(x: real): (r: string)
    ensures |r| >= 4
  {
    if x < 0.0 then
      var n := RoundHalfUp(-x * 100.0);
      CentsShape(n);
      "-" + Cents(n)
    else
      var n := RoundHalfUp(x * 100.0);
      CentsShape(n);
      Cents(n)
  }

  /** The value `toFixed(2)` denotes: x rounded to hundredths, ties away from zero. */
  function Round2(x: real): real
  {
    if x < 0.0 then -(RoundHalfUp(-x * 100.0) as real) / 100.0 else RoundHalfUp(x * 100.0) as real / 100.0
  }

  /** `formatPrice`: "" for null, otherwise `toFixed(2)` (which renders infinities by name). */
  function FormatPrice(v: Option<Num>): (r: string)
    ensures r == "" <==> v.None?
  {
    match v
    case None => ""
    case Some(Fin(x)) => ToFixed2(x)
    case Some(Inf(neg)) => if neg then "-Infinity" else "Infinity"
  }

  /** `Cents(n)` leads with a digit. */
  lemma {:induction false} CentsLeadsWithDigit(n: nat)
    ensures |Cents(n)| >= 4 && IsDigit(Cents(n)[0])
  {
    var c := Cents(n);
    CentsShape(n);
    assert c[0] == c[..|c| - 3][0];
  }

  /** Text that starts with a digit does not start with "Infinity". */
  lemma {:induction false} DigitLedNotInfinity(c: string)
    requires |c| > 0 && IsDigit(c[0])
    ensures !("Infinity" <= c)
  {
    assert |c| >= 8 ==> "Infinity"[0] != c[0];
  }

  /** A minus sign is not white space, so `TrimStart` keeps it, and after it comes `c`. */
  lemma {:induction false} MinusKept(c: string)
    ensures TrimStart("-" + c, IsJsSpace) == "-" + c
    ensures ("-" + c)[0] == '-' && ("-" + c)[1..] == c
  {
    var s := "-" + c;
    assert s[0] == '-' && s[1..] == c;
  }

  /** Text that starts with a digit and scans in full as n/100 parses to n/100. */
  lemma {:induction false} ParseDigitLed(c: string, n: nat)
    requires |c| > 0 && IsDigit(c[0])
    requires ScanUnsignedDecimal(c) == Some(Scan(|c|, n as real / 100.0))
    ensures ParseFloatJs(c) == Some(Fin(n as real / 100.0))
  {
    assert !IsJsSpace(c[0]);
    assert TrimStart(c, IsJsSpace) == c;
    DigitLedNotInfinity(c);
  }

  /** The same text after a minus sign parses to -(n/100). */
  lemma {:induction false} ParseNegatedDigitLed(c: string, n: nat)
    requires |c| > 0 && IsDigit(c[0])
    requires ScanUnsignedDecimal(c) == Some(Scan(|c|, n as real / 100.0))
    ensures ParseFloatJs("-" + c) == Some(Fin(-(n as real / 100.0)))
  {
    MinusKept(c);
    DigitLedNotInfinity(c);
  }

  /** `Cents(n)` starts with a digit and scans in full as n/100. */
  lemma {:induction false} CentsScans(n: nat)
    ensures |Cents(n)| > 0 && IsDigit(Cents(n)[0])
    ensures ScanUnsignedDecimal(Cents(n)) == Some(Scan(|Cents(n)|, n as real / 100.0))
  {
    CentsLeadsWithDigit(n);
    CentsReadsBack(n);
  }

  /** `Cents(n)` parses to n/100, and with a minus before it to -(n/100). */
  lemma {:induction false} ParseCents(n: nat)
    ensures ParseFloatJs(Cents(n)) == Some(Fin(n as real / 100.0))
    ensures ParseFloatJs("-" + Cents(n)) == Some(Fin(-(n as real / 100.0)))
  {
    CentsScans(n);
    ParseDigitLed(Cents(n), n);
    ParseNegatedDigitLed(Cents(n), n);
  }

  /** The rounded price is within half a cent of the price. */
  lemma {:induction false} Round2Close(x: real)
    ensures x - 0.005 <= Round2(x) <= x + 0.005
  {
  }

  /** What `formatPrice` writes for a price: the sign, then `Cents` of the rounded magnitude. */
  lemma {:induction false} FormatPriceText(x: real) returns (n: nat)
    ensures n == RoundHalfUp((if x < 0.0 then -x else x) * 100.0)
    ensures FormatPrice(Some(Fin(x))) == if x < 0.0 then "-" + Cents(n) else Cents(n)
    ensures Round2(x) == if x < 0.0 then -(n as real / 100.0) else n as real / 100.0
  {
    n := RoundHalfUp((if x < 0.0 then -x else x) * 100.0);
  }

  /** Reading back what `formatPrice` wrote yields the price rounded to cents. */
  lemma {:induction false} FormatPriceReadsBack(x: real)
    ensures ParseFloatJs(FormatPrice(Some(Fin(x)))) == Some(Fin(Round2(x)))
  {
    var n := FormatPriceText(x);
    ParseCents(n);
  }

  // ---- Numbers compared as `>` and `<` do ----

  predicate Positive(a: Num)
  {
    match a
    case Fin(x) => x > 0.0
    case Inf(neg) => !neg
  }

  predicate Less(a: Num, b: Num)
  {
    match (a, b)
    case (Fin(x), Fin(y)) => x < y
    case (Fin(_), Inf(nb)) => !nb
    case (Inf(na), Fin(_)) => na
    case (Inf(na), Inf(nb)) => na && !nb
  }

  // ---- parseBoolish ----

  const TrueTokens: seq<string> := ["1", "true", "t", "y", "yes", "si", "s"]
  const FalseTokens: seq<string> := ["0", "false", "f", "n", "no"]
  const NullTokens: seq<string> := ["", "null", "none"]

  /** `Boolean(n)`: false exactly for zero and NaN. */
  function NumberTruth(n: JsNumber): bool
  {
    match n
    case Finite(x, _) => x != 0.0
    case NaN => false
    case Infinite(_) => true
  }

  /** No token belongs to two of the three sets. */
  lemma TokenSetsDisjoint()
    ensures forall t :: t in TrueTokens ==> t !in NullTokens && t !in FalseTokens
    ensures forall t :: t in FalseTokens ==> t !in NullTokens
  {
    assert "true"[0] == 't' && "null"[0] == 'n' && "none"[0] == 'n' && "false"[0] == 'f';
    assert "si"[0] == 's' && "no"[0] == 'n' && "yes"[0] == 'y';
  }

  /** `parseBoolish`: a tri-state reading of a flag field. */
  function ParseBoolish(v: Value): (r: Option<bool>)
    ensures IsNullish(v) ==> r.None?
    ensures v.Bool? ==> r == Some(v.b)
    ensures v.Number? ==> r == Some(NumberTruth(v.n))
    ensures v.Str? && Lower(TrimJs(v.s)) in TrueTokens ==> r == Some(true)
    ensures v.Str? && Lower(TrimJs(v.s)) in FalseTokens ==> r == Some(false)
    ensures v.Str? && Lower(TrimJs(v.s)) !in TrueTokens + FalseTokens ==> r.None?
  {
    match v
    case Undefined => None
    case Null => None
    case Bool(b) => Some(b)
    case Number(n) => Some(NumberTruth(n))
    case Str(s) =>
      var t := Lower(TrimJs(s));
      TokenSetsDisjoint();
      if t in NullTokens then None
      else if t in TrueTokens then Some(true)
      else if t in FalseTokens then Some(false)
      else None
  }

  lemma {:induction false} LowerKeepsSpaces(s: string)
    ensures forall i :: 0 <= i < |s| ==> (IsJsSpace(Lower(s)[i]) <==> IsJsSpace(s[i]))
  {
  }

  lemma {:induction false} TrimOfLowerTrimmed(s: string)
    ensures TrimJs(Lower(TrimJs(s))) == Lower(TrimJs(s))
  {
    var t := TrimJs(s);
    TrimEnds(s, IsJsSpace);
    LowerKeepsSpaces(t);
    TrimOfTrimmed(Lower(t), IsJsSpace);
  }

  /** The reading depends only on the trimmed, lower-cased text. */
  lemma {:induction false} ParseBoolishNormalised(s: string)
    ensures ParseBoolish(Str(s)) == ParseBoolish(Str(Lower(TrimJs(s))))
  {
    TrimOfLowerTrimmed(s);
    LowerIdempotent(TrimJs(s));
  }

  // ---- slugify ----

  /** `slugify`: trim, lower-case, then the slug rule; blank text gives "". */
  function Slugify(v: string): (r: string)
    ensures IsSlug(r)
    ensures TrimJs(v) == "" ==> r == ""
  {
    var s := Lower(TrimJs(v));
    if s == "" then "" else SlugCoreIsSlug(s); SlugCore(s)
  }

  method SlugifyScan(v: string) returns (r: string)
    ensures r == Slugify(v)
  {
    var s := Lower(TrimJs(v));
    if s == "" {
      return "";
    }
    r := SlugCoreScan(s);
  }

  /** A slug is its own trimmed, lower-cased form. */
  lemma {:induction false} SlugIsNormal(r: string)
    requires IsSlug(r)
    ensures TrimJs(r) == r && Lower(r) == r
  {
    if |r| > 0 {
      assert !IsJsSpace(r[0]) && !IsJsSpace(r[|r| - 1]);
    }
    TrimOfTrimmed(r, IsJsSpace);
    SlugIsLower(r);
  }

  /** Slugifying a slug changes nothing. */
  lemma {:induction false} SlugifyIdempotent(v: string)
    ensures Slugify(Slugify(v)) == Slugify(v)
  {
    var s := Lower(TrimJs(v));
    var r := Slugify(v);
    SlugIsNormal(r);
    assert Lower(TrimJs(r)) == r;
    if r != "" {
      assert s != "" && r == SlugCore(s);
      SlugCoreIdempotent(s);
      assert Slugify(r) == SlugCore(r);
    }
  }

  /** The slug is the words of the trimmed, lower-cased text joined by single dashes. */
  lemma {:induction false} SlugifyIsJoinedWords(v: string)
    ensures Slugify(v) == Join(Words(Lower(TrimJs(v))), "-")
  {
    SlugCoreIsJoinedWords(Lower(TrimJs(v)));
  }
}
