/** Decimal text: digit strings and their values, the decimal-literal grammar
    that both JavaScript's `parseFloat` and Python's `float` read, and
    fixed two-decimal rendering. Numbers are exact reals here. */
module Decimal {
  import opened Base
  import opened Text

  predicate AllDigits(s: string)
  {
    forall i :: 0 <= i < |s| ==> IsDigit(s[i])
  }

  function DigitValue(c: char): (d: nat)
    requires IsDigit(c)
    ensures d < 10
  {
    c as int - '0' as int
  }

  function DigitChar(d: nat): (c: char)
    requires d < 10
    ensures IsDigit(c) && DigitValue(c) == d
  {
    ('0' as int + d) as char
  }

  function Pow10(n: nat): (p: nat)
    ensures p >= 1
  {
    if n == 0 then 1 else 10 * Pow10(n - 1)
  }

  /** The value of a string of decimal digits, most significant first. */
  function DecimalValue(s: string): nat
    requires AllDigits(s)
  {
    if |s| == 0 then 0 else DecimalValue(s[..|s| - 1]) * 10 + DigitValue(s[|s| - 1])
  }

  lemma AllDigitsAppend(a: string, b: string)
    requires AllDigits(a) && AllDigits(b)
    ensures AllDigits(a + b)
  {
    forall i | 0 <= i < |a + b| ensures IsDigit((a + b)[i]) {
      if i < |a| { assert (a + b)[i] == a[i]; } else { assert (a + b)[i] == b[i - |a|]; }
    }
  }

  lemma {:induction false} DecimalValueAppend(a: string, b: string)
    requires AllDigits(a) && AllDigits(b)
    ensures AllDigits(a + b)
    ensures DecimalValue(a + b) == DecimalValue(a) * Pow10(|b|) + DecimalValue(b)
  {
    AllDigitsAppend(a, b);
    if |b| == 0 {
      assert a + b == a;
    } else {
      var b' := b[..|b| - 1];
      assert (a + b)[..|a + b| - 1] == a + b';
      assert AllDigits(b');
      DecimalValueAppend(a, b');
      var x, y, p, d := DecimalValue(a), DecimalValue(b'), Pow10(|b'|), DigitValue(b[|b| - 1]);
      assert DecimalValue(a + b) == (x * p + y) * 10 + d;
      assert DecimalValue(b) == y * 10 + d;
      assert Pow10(|b|) == 10 * p;
      MulShift(x, p, y, d);
    }
  }

  lemma MulShift(x: int, p: int, y: int, d: int)
    ensures (x * p + y) * 10 + d == x * (10 * p) + (y * 10 + d)
  {
  }

  function Zeros(n: nat): (z: string)
    ensures |z| == n && AllDigits(z)
    ensures forall i :: 0 <= i < n ==> z[i] == '0'
  {
    if n == 0 then "" else Zeros(n - 1) + "0"
  }

  lemma {:induction false} ZerosValue(n: nat)
    ensures DecimalValue(Zeros(n)) == 0
  {
    if n > 0 {
      assert Zeros(n)[..n - 1] == Zeros(n - 1);
      ZerosValue(n - 1);
    }
  }

  /** `String(n)` for a natural number: shortest decimal digits, no leading zero. */
  function NatToDecimal(n: nat): (r: string)
    ensures |r| >= 1 && AllDigits(r)
    ensures DecimalValue(r) == n
    ensures |r| > 1 ==> r[0] != '0'
  {
    if n < 10 then [DigitChar(n)]
    else
      var p := NatToDecimal(n / 10);
      var r := p + [DigitChar(n % 10)];
      assert r[..|r| - 1] == p;
      r
  }

  /** The number of decimal digits at the front of `s`. */
  function LeadingDigits(s: string): (k: nat)
    ensures k <= |s| && AllDigits(s[..k])
    ensures k < |s| ==> !IsDigit(s[k])
  {
    if |s| > 0 && IsDigit(s[0]) then
      var k := 1 + LeadingDigits(s[1..]);
      assert forall i :: 1 <= i < k ==> s[..k][i] == s[1..][..k - 1][i - 1];
      k
    else 0
  }

  lemma LeadingDigitsOf(a: string, b: string)
    requires AllDigits(a)
    requires |b| > 0 ==> !IsDigit(b[0])
    ensures LeadingDigits(a + b) == |a|
  {
    assert forall i :: 0 <= i < |a| ==> (a + b)[i] == a[i];
    assert |b| > 0 ==> (a + b)[|a|] == b[0];
  }

  /** 10 to the power `e` as a real, for any integer `e`. */
  function Scale(e: int): (r: real)
    ensures r > 0.0
  {
    if e >= 0 then Pow10(e) as real else 1.0 / Pow10(-e) as real
  }

  lemma NonNegativeProduct(a: real, b: real)
    requires a >= 0.0 && b > 0.0
    ensures a * b >= 0.0
  {
  }

  /** A decimal-literal prefix: how many characters it takes and the exact value it denotes. */
  datatype Scan = Scan(len: nat, value: real)

  /** An optional exponent part `e[+-]digits` at the front of `s`: (its length, its value);
      (0, 0) when `s` does not start with a complete one. */
  function ScanExponent(s: string): (r: (nat, int))
    ensures r.0 <= |s|
    ensures r.0 == 0 ==> r.1 == 0
  {
    if |s| >= 2 && (s[0] == 'e' || s[0] == 'E') then
      var start := if s[1] == '+' || s[1] == '-' then 2 else 1;
      var d := LeadingDigits(s[start..]);
      if d == 0 then (0, 0)
      else (start + d, (if s[1] == '-' then -1 else 1) * DecimalValue(s[start..][..d]))
    else (0, 0)
  }

  /** The value of the digits after a decimal point: `0.d1d2...` */
  function FracValue(d: string): (r: real)
    requires AllDigits(d)
    ensures 0.0 <= r <= 1.0
  {
    if |d| == 0 then 0.0 else (DigitValue(d[0]) as real + FracValue(d[1..])) / 10.0
  }

  /** The mantissa `digits[.digits?]` or `.digits` at the front of `s`: its length and value. */
  function ScanMantissa(s: string): (r: Option<(nat, real)>)
    ensures r.Some? ==> 0 < r.value.0 <= |s| && r.value.1 >= 0.0
  {
    var ip := LeadingDigits(s);
    var hasDot := ip < |s| && s[ip] == '.';
    var fp := if hasDot then LeadingDigits(s[ip + 1..]) else 0;
    if ip == 0 && fp == 0 then None
    else
      var frac := if hasDot then s[ip + 1..][..fp] else "";
      Some((if hasDot then ip + 1 + fp else ip, DecimalValue(s[..ip]) as real + FracValue(frac)))
  }

  /** The longest prefix of `s` of the form `digits[.digits?][exp]` or `.digits[exp]`,
      or None when `s` starts with neither. */
  function ScanUnsignedDecimal(s: string): (r: Option<Scan>)
    ensures r.Some? ==> 0 < r.value.len <= |s|
    ensures r.Some? ==> r.value.value >= 0.0
  {
    var m := ScanMantissa(s);
    if m.None? then None
    else
      var k, mag := m.value.0, m.value.1;
      var ex := ScanExponent(s[k..]);
      if ex.0 == 0 then Some(Scan(k, mag))
      else
        NonNegativeProduct(mag, Scale(ex.1));
        Some(Scan(k + ex.0, mag * Scale(ex.1)))
  }

  // ---- Two-decimal rendering ----

  /** Round half up, the tie going to the larger integer (JavaScript `toFixed`). */
  function RoundHalfUp(y: real): (n: int)
    ensures y - 0.5 < n as real <= y + 0.5
  {
    (y + 0.5).Floor
  }

  /** Round half to even (Python's correctly rounded formatting). */
  function RoundHalfEven(y: real): (n: int)
    ensures y - 0.5 <= n as real <= y + 0.5
    ensures n == y.Floor || n == y.Floor + 1
    ensures y - y.Floor as real != 0.5 ==> y - 0.5 < n as real < y + 0.5
    ensures y - y.Floor as real == 0.5 ==> n % 2 == 0
  {
    var f := y.Floor;
    var d := y - f as real;
    if d > 0.5 then f + 1
    else if d < 0.5 then f
    else if f % 2 == 0 then f else f + 1
  }

  /** The two digits of `k < 100`, with a leading zero when needed. */
  function TwoDigits(k: nat): (r: string)
    requires k < 100
    ensures |r| == 2 && AllDigits(r)
  {
    [DigitChar(k / 10), DigitChar(k % 10)]
  }

  /** `n / 100` written with exactly two digits after the point, at least one before it. */
  function Cents(n: nat): (r: string)
  {
    NatToDecimal(n / 100) + "." + TwoDigits(n % 100)
  }

  /** The two digits are worth the number they spell. */
  lemma TwoDigitsValue(k: nat)
    requires k < 100
    ensures DecimalValue(TwoDigits(k)) == k
  {
    var r := TwoDigits(k);
    assert r[..1][..0] == [];
    assert r[..1] == [DigitChar(k / 10)];
    assert DecimalValue(r[..1]) == k / 10;
    assert DecimalValue(r) == (k / 10) * 10 + k % 10;
  }

  /** The shape of `Cents(n)`: digits, one point, exactly two digits after it. */
  lemma CentsShape(n: nat)
    ensures var r := Cents(n);
      |r| >= 4 && r[|r| - 3] == '.' && AllDigits(r[..|r| - 3]) && AllDigits(r[|r| - 2..])
  {
    var a, b := NatToDecimal(n / 100), TwoDigits(n % 100);
    var r := a + "." + b;
    assert r[..|r| - 3] == a;
    assert r[|r| - 2..] == b;
  }

  /** `Cents(n)` is the digits of n/100 before the point, a point, and two digits. */
  lemma CentsParts(n: nat) returns (a: string, b: string)
    ensures Cents(n) == a + "." + b
    ensures |a| >= 1 && AllDigits(a) && |b| == 2 && AllDigits(b)
    ensures DecimalValue(a) * 100 + DecimalValue(b) == n
  {
    a, b := NatToDecimal(n / 100), TwoDigits(n % 100);
    TwoDigitsValue(n % 100);
  }

  /** Two digits after the point are worth their value over 100. */
  lemma FracTwo(b: string)
    requires |b| == 2 && AllDigits(b)
    ensures FracValue(b) == DecimalValue(b) as real / 100.0
  {
    var b1 := b[..1];
    assert b1[..0] == [] && b1[0] == b[0];
    assert DecimalValue(b1) == DigitValue(b[0]);
    assert DecimalValue(b) == 10 * DigitValue(b[0]) + DigitValue(b[1]);
    assert b[1..][1..] == [];
    assert FracValue(b[1..]) == DigitValue(b[1]) as real / 10.0;
  }

  /** `a.b` with digits on both sides is read whole, as the value of `a` plus the fraction `b`. */
  /** The mantissa of text with a point after some digits. */
  lemma ScanMantissaPointed(s: string, ip: nat, fp: nat)
    requires 0 < ip < |s| && ip == LeadingDigits(s) && s[ip] == '.'
    requires fp == LeadingDigits(s[ip + 1..])
    ensures ScanMantissa(s).Some?
    ensures ScanMantissa(s).value.0 == ip + 1 + fp
    ensures ScanMantissa(s).value.1 == DecimalValue(s[..ip]) as real + FracValue(s[ip + 1..][..fp])
  {
  }

  /** The mantissa of `a.b` is all of it, worth the value of `a` plus the fraction `b`. */
  lemma {:induction false} MantissaPointed(a: string, b: string)
    requires |a| >= 1 && AllDigits(a) && AllDigits(b)
    ensures ScanMantissa(a + "." + b).Some?
    ensures ScanMantissa(a + "." + b).value.0 == |a| + 1 + |b|
    ensures ScanMantissa(a + "." + b).value.1 == DecimalValue(a) as real + FracValue(b)
  {
    var s := a + "." + b;
    assert s == a + ("." + b);
    LeadingDigitsOf(a, "." + b);
    assert s[|a|] == '.';
    assert s[|a| + 1..] == b + "";
    LeadingDigitsOf(b, "");
    assert s[|a| + 1..][..|b|] == b;
    assert s[..|a|] == a;
    ScanMantissaPointed(s, |a|, |b|);
    assert DecimalValue(s[..|a|]) == DecimalValue(a);
    assert FracValue(s[|a| + 1..][..|b|]) == FracValue(b);
  }

  /** A mantissa that takes the whole text is the whole literal. */
  lemma ScanWholeMantissa(s: string, k: nat, v: real)
    requires k == |s|
    requires ScanMantissa(s).Some? && ScanMantissa(s).value.0 == k && ScanMantissa(s).value.1 == v
    ensures ScanUnsignedDecimal(s) == Some(Scan(k, v))
  {
    assert s[|s|..] == "";
    assert ScanExponent("") == (0, 0);
  }

  lemma {:induction false} ScanPointed(a: string, b: string)
    requires |a| >= 1 && AllDigits(a) && AllDigits(b)
    ensures ScanUnsignedDecimal(a + "." + b) == Some(Scan(|a| + 1 + |b|, DecimalValue(a) as real + FracValue(b)))
  {
    MantissaPointed(a, b);
    ScanWholeMantissa(a + "." + b, |a| + 1 + |b|, DecimalValue(a) as real + FracValue(b));
  }

  /** Reading `Cents(n)` back as a decimal literal consumes all of it and yields n/100. */
  lemma {:induction false} CentsReadsBack(n: nat)
    ensures ScanUnsignedDecimal(Cents(n)) == Some(Scan(|Cents(n)|, n as real / 100.0))
  {
    var a, b := CentsParts(n);
    FracTwo(b);
    ScanPointed(a, b);
  }
}
