/** The slug rule shared by the worker's `slugify` and the Python exporter's
    `slugify` (the two are the same algorithm once the input is trimmed and
    lower-cased): every maximal run of `[a-z0-9]` characters is kept, every
    run of anything else becomes one `-`, and dashes at either end go. */
module Slugs {
  import opened Base
  import opened Text

  predicate IsDash(c: char) { c == '-' }

  /** What the character loop pushes onto `out`, given whether the last push was a dash. */
  function Collapse(s: string, prevDash: bool): string
  {
    if |s| == 0 then ""
    else if IsLowerAlnum(s[0]) then [s[0]] + Collapse(s[1..], false)
    else if prevDash then Collapse(s[1..], true)
    else "-" + Collapse(s[1..], true)
  }

  /** `replace(/^-+|-+$/g, '')`, equally `strip('-')`. */
  function DropDashes(s: string): string { Trim(s, IsDash) }

  /** `includes('--')`. */
  predicate HasDoubleDash(s: string)
  {
    exists i :: 0 <= i < |s| - 1 && s[i] == '-' && s[i + 1] == '-'
  }

  /** One pass of `replace(/--/g, '-')`: non-overlapping, left to right. */
  function ReplaceDoubleDashes(s: string): (r: string)
    ensures |r| <= |s|
    ensures HasDoubleDash(s) ==> |r| < |s|
  {
    if |s| < 2 then s
    else if s[0] == '-' && s[1] == '-' then "-" + ReplaceDoubleDashes(s[2..])
    else
      var r := [s[0]] + ReplaceDoubleDashes(s[1..]);
      assert HasDoubleDash(s) ==> HasDoubleDash(s[1..]) by {
        if HasDoubleDash(s) {
          var i :| 0 <= i < |s| - 1 && s[i] == '-' && s[i + 1] == '-';
          assert i > 0;
          assert s[1..][i - 1] == s[i] && s[1..][i] == s[i + 1];
        }
      }
      r
  }

  /** The `while (slug.includes('--'))` loop. */
  function CollapseDoubleDashes(s: string): string
    decreases |s|
  {
    if HasDoubleDash(s) then CollapseDoubleDashes(ReplaceDoubleDashes(s)) else s
  }

  /** The slug of an already trimmed, lower-cased string. */
  function SlugCore(s: string): string
  {
    CollapseDoubleDashes(DropDashes(Collapse(s, false)))
  }

  lemma CollapseStep(s: string, i: nat, p: bool)
    requires i < |s|
    ensures Collapse(s[i..], p) ==
      if IsLowerAlnum(s[i]) then [s[i]] + Collapse(s[i + 1..], false)
      else if p then Collapse(s[i + 1..], true)
      else "-" + Collapse(s[i + 1..], true)
  {
    assert s[i..][1..] == s[i + 1..];
  }

  /** The two loops of `slugify`, run on an already trimmed, lower-cased string. */
  method SlugCoreScan(s: string) returns (slug: string)
    ensures slug == SlugCore(s)
  {
    var out: string := [];
    var prevDash := false;
    var i := 0;
    while i < |s|
      invariant 0 <= i <= |s|
      invariant out + Collapse(s[i..], prevDash) == Collapse(s, false)
    {
      var ch := s[i];
      CollapseStep(s, i, prevDash);
      if IsLowerAlnum(ch) {
        assert out + ([ch] + Collapse(s[i + 1..], false)) == (out + [ch]) + Collapse(s[i + 1..], false);
        out := out + [ch];
        prevDash := false;
      } else {
        if !prevDash {
          assert out + ("-" + Collapse(s[i + 1..], true)) == (out + ['-']) + Collapse(s[i + 1..], true);
          out := out + ['-'];
          prevDash := true;
        }
      }
      i := i + 1;
    }
    assert s[i..] == [] && out + "" == out;
    slug := DropDashes(out);
    while HasDoubleDash(slug)
      invariant CollapseDoubleDashes(slug) == SlugCore(s)
      decreases |slug|
    {
      slug := ReplaceDoubleDashes(slug);
    }
  }

  // ---- An independent description: the words of the input joined by '-' ----

  predicate IsWord(w: string)
  {
    |w| > 0 && forall i :: 0 <= i < |w| ==> IsLowerAlnum(w[i])
  }

  /** The number of `[a-z0-9]` characters at the front of `s`. */
  function LeadingAlnum(s: string): (k: nat)
    ensures k <= |s|
    ensures forall i :: 0 <= i < k ==> IsLowerAlnum(s[i])
    ensures k < |s| ==> !IsLowerAlnum(s[k])
  {
    if |s| > 0 && IsLowerAlnum(s[0]) then
      var k := 1 + LeadingAlnum(s[1..]);
      assert forall i :: 1 <= i < k ==> s[i] == s[1..][i - 1];
      k
    else 0
  }

  /** The maximal runs of `[a-z0-9]` in `s`, in order. */
  function Words(s: string): (ws: seq<string>)
    ensures forall i :: 0 <= i < |ws| ==> IsWord(ws[i])
    decreases |s|
  {
    if |s| == 0 then []
    else if !IsLowerAlnum(s[0]) then Words(s[1..])
    else
      var k := LeadingAlnum(s);
      [s[..k]] + Words(s[k..])
  }

  /** A slug: empty, or words of `[a-z0-9]` separated by single dashes. */
  predicate IsSlug(t: string)
  {
    && (forall i :: 0 <= i < |t| ==> IsLowerAlnum(t[i]) || t[i] == '-')
    && (|t| > 0 ==> t[0] != '-' && t[|t| - 1] != '-')
    && !HasDoubleDash(t)
  }

  /** A slug has no upper-case letter, so lower-casing keeps it. */
  lemma {:induction false} SlugIsLower(t: string)
    requires IsSlug(t)
    ensures Lower(t) == t
  {
    assert forall i :: 0 <= i < |t| ==> Lower(t)[i] == t[i];
  }

  lemma {:induction false} CollapseWord(w: string, r: string, p: bool)
    requires forall i :: 0 <= i < |w| ==> IsLowerAlnum(w[i])
    requires |w| > 0
    ensures Collapse(w + r, p) == w + Collapse(r, false)
  {
    assert (w + r)[0] == w[0];
    assert (w + r)[1..] == w[1..] + r;
    if |w| > 1 {
      CollapseWord(w[1..], r, false);
    } else {
      assert w[1..] + r == r;
    }
  }

  lemma {:induction false} CollapseAfterDash(t: string)
    ensures |Collapse(t, true)| > 0 ==> Collapse(t, true)[0] != '-'
  {
    if |t| > 0 && !IsLowerAlnum(t[0]) {
      CollapseAfterDash(t[1..]);
    }
  }

  lemma DropLeadingDash(x: string)
    ensures DropDashes("-" + x) == DropDashes(x)
  {
    assert ("-" + x)[1..] == x;
  }

  lemma DropAroundDash(w: string, y: string)
    requires IsWord(w)
    requires |y| > 0 ==> y[0] != '-'
    ensures DropDashes(w + "-" + y) == if DropDashes(y) == "" then w else w + "-" + DropDashes(y)
  {
    var x := w + "-" + y;
    assert x[0] == w[0];
    assert TrimStart(x, IsDash) == x;
    assert TrimStart(y, IsDash) == y;
    TrimEndAppend(w + "-", y, IsDash);
    if exists i :: 0 <= i < |y| && !IsDash(y[i]) {
      var i :| 0 <= i < |y| && !IsDash(y[i]);
      var ty := TrimEnd(y, IsDash);
      assert |ty| > i;
    } else {
      assert TrimEnd(y, IsDash) == "";
      TrimEndAppend(w, "-", IsDash);
      assert TrimEnd("-", IsDash) == "";
      assert TrimEnd(w, IsDash) == w;
    }
  }

  lemma {:induction false} JoinWordsEmpty(ws: seq<string>)
    requires forall i :: 0 <= i < |ws| ==> IsWord(ws[i])
    ensures Join(ws, "-") == "" <==> ws == []
    ensures |ws| > 0 ==> IsWord(ws[0]) && |Join(ws, "-")| >= |ws[0]| > 0 && Join(ws, "-")[0] == ws[0][0]
  {
    if |ws| > 1 {
      JoinWordsEmpty(ws[1..]);
    }
  }

  /** After the loop and the trim, the output is exactly the words joined by '-'. */
  lemma {:induction false} DropCollapseIsJoin(s: string, p: bool)
    ensures DropDashes(Collapse(s, p)) == Join(Words(s), "-")
    decreases |s|
  {
    if |s| == 0 {
    } else if !IsLowerAlnum(s[0]) {
      DropCollapseIsJoin(s[1..], true);
      if !p { DropLeadingDash(Collapse(s[1..], true)); }
    } else {
      var k := LeadingAlnum(s);
      if k < |s| {
        DropCollapseIsJoin(s[k + 1..], true);
      }
      DropCollapseWordFirst(s, p, k);
    }
  }

  /** The step of `DropCollapseIsJoin` for text that starts with a word of length `k`. */
  lemma {:induction false} DropCollapseWordFirst(s: string, p: bool, k: nat)
    requires |s| > 0 && IsLowerAlnum(s[0]) && k == LeadingAlnum(s)
    requires k < |s| ==> DropDashes(Collapse(s[k + 1..], true)) == Join(Words(s[k + 1..]), "-")
    ensures DropDashes(Collapse(s, p)) == Join(Words(s), "-")
  {
    var w, r := s[..k], s[k..];
    assert s == w + r;
    CollapseWord(w, r, p);
    assert IsWord(w);
    assert Words(s) == [w] + Words(r);
    if |r| == 0 {
      assert s == w && Words(r) == [];
      DropCollapseWordOnly(s, p, w);
    } else {
      assert r[1..] == s[k + 1..];
      DropCollapseWordThenRest(s, p, w, r);
    }
  }

  /** Text that is one word is its own slug. */
  lemma {:induction false} DropCollapseWordOnly(s: string, p: bool, w: string)
    requires IsWord(w) && s == w && Collapse(s, p) == w + Collapse("", false)
    requires Words(s) == [w]
    ensures DropDashes(Collapse(s, p)) == Join(Words(s), "-")
  {
    assert Collapse("", false) == "";
    assert w + "" == w;
    TrimOfTrimmed(w, IsDash);
  }

  /** A word, a separator, then text whose slug is already known. */
  lemma {:induction false} DropCollapseWordThenRest(s: string, p: bool, w: string, r: string)
    requires IsWord(w) && |r| > 0 && !IsLowerAlnum(r[0]) && s == w + r
    requires Collapse(s, p) == w + Collapse(r, false)
    requires Words(s) == [w] + Words(r)
    requires DropDashes(Collapse(r[1..], true)) == Join(Words(r[1..]), "-")
    ensures DropDashes(Collapse(s, p)) == Join(Words(s), "-")
  {
    var y := Collapse(r[1..], true);
    assert Collapse(r, false) == "-" + y;
    assert Words(r) == Words(r[1..]);
    CollapseAfterDash(r[1..]);
    assert w + ("-" + y) == w + "-" + y;
    DropAroundDash(w, y);
    JoinWordsEmpty(Words(r[1..]));
  }

  lemma {:induction false} JoinWordsIsSlug(ws: seq<string>)
    requires forall i :: 0 <= i < |ws| ==> IsWord(ws[i])
    ensures IsSlug(Join(ws, "-"))
  {
    if |ws| == 1 {
      assert !HasDoubleDash(ws[0]);
    } else if |ws| > 1 {
      var w, j := ws[0], Join(ws[1..], "-");
      JoinWordsIsSlug(ws[1..]);
      JoinWordsEmpty(ws[1..]);
      var t := w + "-" + j;
      assert Join(ws, "-") == t;
      assert forall i :: 0 <= i < |w| ==> t[i] == w[i];
      assert t[|w|] == '-';
      assert forall i :: |w| < i < |t| ==> t[i] == j[i - |w| - 1];
      forall i | 0 <= i < |t| - 1 ensures !(t[i] == '-' && t[i + 1] == '-') {
        if i < |w| {
          assert t[i] == w[i];
        } else if i == |w| {
          assert t[i + 1] == j[0];
        } else {
          assert t[i] == j[i - |w| - 1] && t[i + 1] == j[i - |w|];
        }
      }
    }
  }

  lemma {:induction false} WordsOfJoin(ws: seq<string>)
    requires forall i :: 0 <= i < |ws| ==> IsWord(ws[i])
    ensures Words(Join(ws, "-")) == ws
  {
    if |ws| == 1 {
      var w := ws[0];
      assert LeadingAlnum(w) == |w|;
      assert w[..|w|] == w && w[|w|..] == "";
    } else if |ws| > 1 {
      var w, j := ws[0], Join(ws[1..], "-");
      WordsOfJoin(ws[1..]);
      var t := w + "-" + j;
      assert Join(ws, "-") == t;
      assert forall i :: 0 <= i < |w| ==> t[i] == w[i];
      assert t[|w|] == '-';
      assert LeadingAlnum(t) == |w|;
      assert t[..|w|] == w;
      assert t[|w|..] == "-" + j;
      assert ("-" + j)[1..] == j;
    }
  }

  /** The slug is exactly the input's `[a-z0-9]` runs joined with single dashes. */
  lemma SlugCoreIsJoinedWords(s: string)
    ensures SlugCore(s) == Join(Words(s), "-")
  {
    DropCollapseIsJoin(s, false);
    JoinWordsIsSlug(Words(s));
  }

  /** The slug has the shape `^[a-z0-9]+(-[a-z0-9]+)*$` or is empty. */
  lemma SlugCoreIsSlug(s: string)
    ensures IsSlug(SlugCore(s))
  {
    SlugCoreIsJoinedWords(s);
    JoinWordsIsSlug(Words(s));
  }

  /** Applying the rule to its own output changes nothing. */
  lemma SlugCoreIdempotent(s: string)
    ensures SlugCore(SlugCore(s)) == SlugCore(s)
  {
    SlugCoreIsJoinedWords(s);
    SlugCoreIsJoinedWords(SlugCore(s));
    WordsOfJoin(Words(s));
  }
}
