/** Small shared vocabulary: optional values, results, string joining and
    ordered key/value entries (the shape of a decoded record or a JSON object). */
module Base {

  datatype Option<+T> = None | Some(value: T)

  datatype Result<+T, +E> = Success(value: T) | Failure(error: E)

  /** The smaller of two integers, as `Math.min` and Python's `min` give it. */
  function Min(a: int, b: int): int { if a <= b then a else b }

  /** `parts.join(sep)`: the parts with `sep` between consecutive ones. */
  function Join(parts: seq<string>, sep: string): string
  {
    if |parts| == 0 then ""
    else if |parts| == 1 then parts[0]
    else parts[0] + sep + Join(parts[1..], sep)
  }

  /** The concatenation of all parts, in order (what a Blob of chunks holds). */
  function Concat(parts: seq<string>): string
  {
    if |parts| == 0 then "" else parts[0] + Concat(parts[1..])
  }

  lemma {:induction false} ConcatAppend(a: seq<string>, b: seq<string>)
    ensures Concat(a + b) == Concat(a) + Concat(b)
  {
    if |a| == 0 {
      assert a + b == b;
    } else {
      assert (a + b)[1..] == a[1..] + b;
      ConcatAppend(a[1..], b);
    }
  }

  lemma {:induction false} JoinAppendOne(parts: seq<string>, x: string, sep: string)
    requires |parts| > 0
    ensures Join(parts + [x], sep) == Join(parts, sep) + sep + x
  {
    if |parts| == 1 {
      assert (parts + [x])[1..] == [x];
    } else {
      assert (parts + [x])[1..] == parts[1..] + [x];
      JoinAppendOne(parts[1..], x, sep);
    }
  }

  lemma {:induction false} JoinAppend(a: seq<string>, b: seq<string>, sep: string)
    requires |a| > 0 && |b| > 0
    ensures Join(a + b, sep) == Join(a, sep) + sep + Join(b, sep)
  {
    if |a| == 1 {
      assert (a + b)[1..] == b;
    } else {
      assert (a + b)[1..] == a[1..] + b;
      JoinAppend(a[1..], b, sep);
    }
  }

  /** Ordered key/value pairs: a decoded record, a dict, or a JSON object. */
  type Entries<V> = seq<(string, V)>

  function KeysOf<V>(e: Entries<V>): (ks: seq<string>)
    ensures |ks| == |e|
    ensures forall i :: 0 <= i < |e| ==> ks[i] == e[i].0
  {
    seq(|e|, i requires 0 <= i < |e| => e[i].0)
  }

  /** No key occurs twice (true of every JS object and Python dict). */
  predicate DistinctKeys<V>(e: Entries<V>)
  {
    forall i, j :: 0 <= i < j < |e| ==> e[i].0 != e[j].0
  }

  /** The value stored under `k` (`k in rec ? rec[k] : undefined`). */
  function Lookup<V>(e: Entries<V>, k: string): (r: Option<V>)
    ensures r.Some? <==> k in KeysOf(e)
    ensures r.Some? ==> (k, r.value) in e
    ensures r.None? ==> forall i :: 0 <= i < |e| ==> e[i].0 != k
  {
    if |e| == 0 then None
    else if e[0].0 == k then Some(e[0].1)
    else
      var r := Lookup(e[1..], k);
      assert KeysOf(e) == [e[0].0] + KeysOf(e[1..]);
      r
  }

  /** With distinct keys, the value found is the one stored beside the key. */
  lemma {:induction false} LookupAt<V>(e: Entries<V>, i: nat)
    requires DistinctKeys(e) && i < |e|
    ensures Lookup(e, e[i].0) == Some(e[i].1)
  {
    if i > 0 {
      assert DistinctKeys(e[1..]) by {
        forall a, b | 0 <= a < b < |e[1..]| ensures e[1..][a].0 != e[1..][b].0 {
          assert e[1..][a] == e[a + 1] && e[1..][b] == e[b + 1];
        }
      }
      assert e[0].0 != e[i].0;
      LookupAt(e[1..], i - 1);
      assert e[1..][i - 1] == e[i];
    }
  }

  /** The index of the first element satisfying `p`, if any. */
  function FirstWhere<T>(xs: seq<T>, p: T -> bool): (r: Option<nat>)
    ensures r.Some? ==> r.value < |xs| && p(xs[r.value])
    ensures r.Some? ==> forall j :: 0 <= j < r.value ==> !p(xs[j])
    ensures r.None? ==> forall j :: 0 <= j < |xs| ==> !p(xs[j])
  {
    if |xs| == 0 then None
    else if p(xs[0]) then Some(0)
    else
      var r := FirstWhere(xs[1..], p);
      assert forall j :: 1 <= j < |xs| ==> xs[j] == xs[1..][j - 1];
      if r.None? then None else Some(r.value + 1)
  }

  /** `FirstWhere` finds the index before which nothing satisfies `p`. */
  lemma FirstWhereAt<T>(xs: seq<T>, p: T -> bool, i: nat)
    requires i < |xs| && p(xs[i])
    requires forall j :: 0 <= j < i ==> !p(xs[j])
    ensures FirstWhere(xs, p) == Some(i)
  {
    var f := FirstWhere(xs, p);
    assert f.Some?;
    assert !(f.value < i);
    assert !(f.value > i);
  }

  /** One more element that fails `p` extends a prefix in which nothing satisfies it. */
  lemma NoneWhereExtend<T>(xs: seq<T>, p: T -> bool, i: nat)
    requires i < |xs| && !p(xs[i])
    requires forall j :: 0 <= j < i ==> !p(xs[j])
    ensures forall j :: 0 <= j < i + 1 ==> !p(xs[j])
  {
  }
}
