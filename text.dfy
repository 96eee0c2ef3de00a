/** Characters and strings: ASCII case mapping, the whitespace sets that
    JavaScript's `trim` and Python's `str.strip` remove, and filtering. */
module Text {

  predicate IsDigit(c: char) { '0' <= c <= '9' }

  /** The class `[a-z0-9]` used by key normalisation and slugs. */
  predicate IsLowerAlnum(c: char) { 'a' <= c <= 'z' || IsDigit(c) }

  function LowerChar(c: char): (d: char)
    ensures 'A' <= c <= 'Z' ==> d as int == c as int + 32
    ensures !('A' <= c <= 'Z') ==> d == c
  {
    if 'A' <= c <= 'Z' then (c as int + 32) as char else c
  }

  function UpperChar(c: char): (d: char)
    ensures 'a' <= c <= 'z' ==> d as int == c as int - 32
    ensures !('a' <= c <= 'z') ==> d == c
  {
    if 'a' <= c <= 'z' then (c as int - 32) as char else c
  }

  /** `toLowerCase()` / `lower()` on ASCII letters; other characters are kept. */
  function Lower(s: string): (r: string)
    ensures |r| == |s|
    ensures forall i :: 0 <= i < |s| ==> r[i] == LowerChar(s[i])
  {
    seq(|s|, i requires 0 <= i < |s| => LowerChar(s[i]))
  }

  lemma LowerIdempotent(s: string)
    ensures Lower(Lower(s)) == Lower(s)
  {
  }

  lemma LowerAppend(a: string, b: string)
    ensures Lower(a + b) == Lower(a) + Lower(b)
  {
  }

  /** ECMAScript WhiteSpace and LineTerminator code points: what `trim` removes. */
  predicate IsJsSpace(c: char)
  {
    c == '\t' || c == '\n' || c == '\U{000B}' || c == '\U{000C}' || c == '\r' || c == ' '
    || c == '\U{00A0}' || c == '\U{1680}' || ('\U{2000}' <= c <= '\U{200A}')
    || c == '\U{2028}' || c == '\U{2029}' || c == '\U{202F}' || c == '\U{205F}'
    || c == '\U{3000}' || c == '\U{FEFF}'
  }

  /** The code points for which Python's `str.isspace` holds: what `strip()` removes. */
  predicate IsPySpace(c: char)
  {
    ('\t' <= c <= '\r') || ('\U{001C}' <= c <= '\U{001F}') || c == ' '
    || c == '\U{0085}' || c == '\U{00A0}' || c == '\U{1680}' || ('\U{2000}' <= c <= '\U{200A}')
    || c == '\U{2028}' || c == '\U{2029}' || c == '\U{202F}' || c == '\U{205F}' || c == '\U{3000}'
  }

  function TrimStart(s: string, sp: char -> bool): (r: string)
    ensures |r| <= |s| && r == s[|s| - |r|..]
    ensures |r| > 0 ==> !sp(r[0])
    ensures forall i :: 0 <= i < |s| - |r| ==> sp(s[i])
  {
    if |s| > 0 && sp(s[0]) then
      var r := TrimStart(s[1..], sp);
      assert forall i :: 1 <= i < |s| - |r| ==> s[i] == s[1..][i - 1];
      r
    else s
  }

  function TrimEnd(s: string, sp: char -> bool): (r: string)
    ensures |r| <= |s| && r == s[..|r|]
    ensures |r| > 0 ==> !sp(r[|r| - 1])
    ensures forall i :: |r| <= i < |s| ==> sp(s[i])
  {
    if |s| > 0 && sp(s[|s| - 1]) then
      var r := TrimEnd(s[..|s| - 1], sp);
      assert forall i :: |r| <= i < |s| - 1 ==> s[i] == s[..|s| - 1][i];
      r
    else s
  }

  /** Removes every leading and trailing character that satisfies `sp`. */
  function Trim(s: string, sp: char -> bool): string
  {
    TrimEnd(TrimStart(s, sp), sp)
  }

  /** `s.trim()` in JavaScript. */
  function TrimJs(s: string): string { Trim(s, IsJsSpace) }

  /** `s.strip()` in Python. */
  function StripPy(s: string): string { Trim(s, IsPySpace) }

  lemma TrimStartSplits(s: string, sp: char -> bool) returns (a: string)
    ensures s == a + TrimStart(s, sp)
    ensures forall i :: 0 <= i < |a| ==> sp(a[i])
  {
    var t := TrimStart(s, sp);
    a := s[..|s| - |t|];
    assert t == s[|s| - |t|..];
  }

  lemma TrimEndSplits(s: string, sp: char -> bool) returns (b: string)
    ensures s == TrimEnd(s, sp) + b
    ensures forall i :: 0 <= i < |b| ==> sp(b[i])
  {
    var r := TrimEnd(s, sp);
    b := s[|r|..];
    assert r == s[..|r|];
    forall i | 0 <= i < |b| ensures sp(b[i]) {
      assert b[i] == s[|r| + i];
    }
  }

  /** Trimming cuts `s` into a removed prefix, the result, and a removed suffix. */
  lemma TrimSplits(s: string, sp: char -> bool) returns (a: string, b: string)
    ensures s == a + Trim(s, sp) + b
    ensures forall i :: 0 <= i < |a| ==> sp(a[i])
    ensures forall i :: 0 <= i < |b| ==> sp(b[i])
  {
    a := TrimStartSplits(s, sp);
    b := TrimEndSplits(TrimStart(s, sp), sp);
  }

  /** The trimmed string starts and ends with a non-space character. */
  lemma TrimEnds(s: string, sp: char -> bool)
    ensures var r := Trim(s, sp); |r| > 0 ==> !sp(r[0]) && !sp(r[|r| - 1])
  {
    var t := TrimStart(s, sp);
    var r := TrimEnd(t, sp);
    if |r| > 0 {
      assert r[0] == t[0];
    }
  }

  /** A string with no space at either end is its own trim. */
  lemma TrimOfTrimmed(s: string, sp: char -> bool)
    requires |s| > 0 ==> !sp(s[0]) && !sp(s[|s| - 1])
    ensures Trim(s, sp) == s
  {
  }

  /** The characters of `s` that satisfy `p`, in order. */
  function Keep(s: string, p: char -> bool): (r: string)
    ensures |r| <= |s|
    ensures forall i :: 0 <= i < |r| ==> p(r[i])
  {
    if |s| == 0 then "" else (if p(s[0]) then [s[0]] else "") + Keep(s[1..], p)
  }

  lemma {:induction false} KeepAppend(a: string, b: string, p: char -> bool)
    ensures Keep(a + b, p) == Keep(a, p) + Keep(b, p)
  {
    if |a| == 0 {
      assert a + b == b;
    } else {
      assert (a + b)[1..] == a[1..] + b;
      KeepAppend(a[1..], b, p);
    }
  }

  lemma {:induction false} KeepNone(a: string, p: char -> bool)
    requires forall i :: 0 <= i < |a| ==> !p(a[i])
    ensures Keep(a, p) == ""
  {
    if |a| > 0 {
      KeepNone(a[1..], p);
    }
  }

  lemma {:induction false} KeepAll(a: string, p: char -> bool)
    requires forall i :: 0 <= i < |a| ==> p(a[i])
    ensures Keep(a, p) == a
  {
    if |a| > 0 {
      KeepAll(a[1..], p);
      assert a == [a[0]] + a[1..];
    }
  }

  /** Trimming the end of `x + y` reaches into `x` only when `y` is all trimmable. */
  lemma {:induction false} TrimEndAppend(x: string, y: string, sp: char -> bool)
    ensures (exists i :: 0 <= i < |y| && !sp(y[i])) ==> TrimEnd(x + y, sp) == x + TrimEnd(y, sp)
    ensures (forall i :: 0 <= i < |y| ==> sp(y[i])) ==> TrimEnd(x + y, sp) == TrimEnd(x, sp)
  {
    if |y| == 0 {
      assert x + y == x;
    } else {
      var y' := y[..|y| - 1];
      assert (x + y)[..|x + y| - 1] == x + y';
      assert (x + y)[|x + y| - 1] == y[|y| - 1];
      TrimEndAppend(x, y', sp);
      if !sp(y[|y| - 1]) {
        assert TrimEnd(y, sp) == y;
      } else {
        assert TrimEnd(y, sp) == TrimEnd(y', sp);
        assert (exists i :: 0 <= i < |y| && !sp(y[i])) ==> (exists i :: 0 <= i < |y'| && !sp(y'[i])) by {
          if exists i :: 0 <= i < |y| && !sp(y[i]) {
            var i :| 0 <= i < |y| && !sp(y[i]);
            assert i < |y'| && y'[i] == y[i];
          }
        }
      }
    }
  }

  /** Every character of `s` satisfies `sp`. */
  predicate All(s: string, sp: char -> bool)
  {
    forall i :: 0 <= i < |s| ==> sp(s[i])
  }

  /** Trimming the start of `x + y` reaches into `y` only when `x` is all trimmable. */
  lemma {:induction false} TrimStartAppend(x: string, y: string, sp: char -> bool)
    ensures !All(x, sp) ==> TrimStart(x + y, sp) == TrimStart(x, sp) + y
    ensures All(x, sp) ==> TrimStart(x + y, sp) == TrimStart(y, sp)
  {
    if |x| == 0 {
      assert x + y == y;
    } else if !sp(x[0]) {
      assert (x + y)[0] == x[0];
      assert !All(x, sp);
    } else {
      var x' := x[1..];
      assert (x + y)[0] == x[0];
      assert (x + y)[1..] == x' + y;
      assert All(x, sp) <==> All(x', sp) by {
        assert forall i :: 0 < i < |x| ==> x[i] == x'[i - 1];
      }
      TrimStartAppend(x', y, sp);
    }
  }

  /** A non-trimmable character splits the trim into a left and a right part. */
  lemma TrimAroundKept(a: string, c: char, b: string, sp: char -> bool)
    requires !sp(c)
    ensures Trim(a + [c] + b, sp) == TrimStart(a, sp) + [c] + TrimEnd(b, sp)
  {
    var x := TrimStart(a, sp) + [c];
    assert TrimStart(a + [c], sp) == x by {
      TrimStartAppend(a, [c], sp);
      assert TrimStart([c], sp) == [c];
      if All(a, sp) { assert TrimStart(a, sp) == ""; }
    }
    assert TrimStart(a + [c] + b, sp) == x + b by {
      TrimStartAppend(a + [c], b, sp);
      assert (a + [c])[|a|] == c;
      assert !All(a + [c], sp);
    }
    assert Trim(a + [c] + b, sp) == TrimEnd(x + b, sp);
    TrimEndAppend(x, b, sp);
    assert x[|x| - 1] == c;
    assert TrimEnd(x, sp) == x;
    if forall i :: 0 <= i < |b| ==> sp(b[i]) {
      assert TrimEnd(b, sp) == "";
    }
  }

  /** Trimming twice is trimming once. */
  lemma TrimIdempotent(s: string, sp: char -> bool)
    ensures Trim(Trim(s, sp), sp) == Trim(s, sp)
  {
    TrimEnds(s, sp);
    TrimOfTrimmed(Trim(s, sp), sp);
  }
}
