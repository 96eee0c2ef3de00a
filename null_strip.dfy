/** The null-stripping helpers of `storefront-config.api.ts`: the API refuses nulls in PATCH
    bodies, so `removeNullValues` drops the null or undefined members of an object and
    `removeNullValuesDeep` does the same at every depth of a JSON-like value. */
module NullStrip {

  /** A JSON-like value. An object is the list of its own enumerable members in
      enumeration order, which is what `Object.entries` yields and `Object.fromEntries` rebuilds. */
  datatype Json =
    | JUndefined
    | JNull
    | JBool(b: bool)
    | JNum(x: real)
    | JStr(s: string)
    | JArray(items: seq<Json>)
    | JObject(members: seq<Member>)

  datatype Member = Member(key: string, value: Json)

  /** `value !== null && value !== undefined` fails. */
  predicate IsNullish(v: Json) { v.JNull? || v.JUndefined? }

  function KeysOf(ms: seq<Member>): set<string>
  {
    set m | m in ms :: m.key
  }

  /** `removeNullValues(obj)`: the members whose value is neither null nor undefined, in order. */
  function RemoveNullValues(ms: seq<Member>): (r: seq<Member>)
    ensures |r| <= |ms|
    ensures forall m :: m in r <==> m in ms && !IsNullish(m.value)
  {
    if |ms| == 0 then []
    else (if IsNullish(ms[0].value) then [] else [ms[0]]) + RemoveNullValues(ms[1..])
  }

  /** The shallow result keeps exactly the keys that carry a non-null value, so its keys are
      among the input's. */
  lemma ShallowKeys(ms: seq<Member>)
    ensures KeysOf(RemoveNullValues(ms)) == set m | m in ms && !IsNullish(m.value) :: m.key
    ensures KeysOf(RemoveNullValues(ms)) <= KeysOf(ms)
  {
  }

  /** Filtering keeps the order of the members it keeps: it distributes over concatenation. */
  lemma {:induction false} RemoveNullValuesAppend(a: seq<Member>, b: seq<Member>)
    ensures RemoveNullValues(a + b) == RemoveNullValues(a) + RemoveNullValues(b)
  {
    if |a| == 0 {
      assert a + b == b;
    } else {
      assert (a + b)[0] == a[0] && (a + b)[1..] == a[1..] + b;
      RemoveNullValuesAppend(a[1..], b);
    }
  }

  /** An object without null members comes back as it was; in particular the shallow strip is
      idempotent. */
  lemma {:induction false} NothingToRemove(ms: seq<Member>)
    requires forall i :: 0 <= i < |ms| ==> !IsNullish(ms[i].value)
    ensures RemoveNullValues(ms) == ms
  {
    if |ms| > 0 {
      NothingToRemove(ms[1..]);
    }
  }

  lemma ShallowIdempotent(ms: seq<Member>)
    ensures RemoveNullValues(RemoveNullValues(ms)) == RemoveNullValues(ms)
  {
    var r := RemoveNullValues(ms);
    assert forall i :: 0 <= i < |r| ==> r[i] in r;
    NothingToRemove(r);
  }

  /** `removeNullValuesDeep(obj)`: null and undefined come back as they are, arrays are mapped
      element by element (so null elements stay), objects lose their null members and have the
      rest stripped in turn, and every other value is returned unchanged. */
  function RemoveNullValuesDeep(v: Json): (r: Json)
    ensures v.JArray? <==> r.JArray?
    ensures v.JObject? <==> r.JObject?
    ensures r.JArray? ==> |r.items| == |v.items|
    ensures r.JObject? ==> |r.members| <= |v.members|
    decreases v
  {
    match v
    case JArray(items) => JArray(DeepItems(items))
    case JObject(ms) => JObject(DeepMembers(ms))
    case _ => v
  }

  /** `obj.map(removeNullValuesDeep)`. */
  function DeepItems(items: seq<Json>): (r: seq<Json>)
    ensures |r| == |items|
    decreases items
  {
    if |items| == 0 then [] else [RemoveNullValuesDeep(items[0])] + DeepItems(items[1..])
  }

  /** The filter, then the recursive map over the members that remain. */
  function DeepMembers(ms: seq<Member>): (r: seq<Member>)
    ensures |r| <= |ms|
    decreases ms
  {
    if |ms| == 0 then []
    else
      (if IsNullish(ms[0].value) then [] else [Member(ms[0].key, RemoveNullValuesDeep(ms[0].value))])
        + DeepMembers(ms[1..])
  }

  /** Null, undefined and every primitive come back unchanged. */
  lemma PrimitivesUnchanged(v: Json)
    requires !v.JArray? && !v.JObject?
    ensures RemoveNullValuesDeep(v) == v
  {
  }

  /** Each array element is stripped on its own, and a null element stays null. */
  lemma {:induction false} ArrayElements(items: seq<Json>, i: nat)
    requires i < |items|
    ensures DeepItems(items)[i] == RemoveNullValuesDeep(items[i])
    ensures IsNullish(items[i]) ==> DeepItems(items)[i] == items[i]
    decreases i
  {
    if i > 0 {
      ArrayElements(items[1..], i - 1);
    }
  }

  /** The deep strip of an object is the shallow strip with each remaining value stripped in
      turn: the same keys, in the same order. */
  lemma {:induction false} DeepIsShallowThenMap(ms: seq<Member>)
    ensures |DeepMembers(ms)| == |RemoveNullValues(ms)|
    ensures forall i :: 0 <= i < |DeepMembers(ms)| ==>
      DeepMembers(ms)[i].key == RemoveNullValues(ms)[i].key
      && DeepMembers(ms)[i].value == RemoveNullValuesDeep(RemoveNullValues(ms)[i].value)
  {
    if |ms| > 0 {
      DeepIsShallowThenMap(ms[1..]);
    }
  }

  /** The deep strip keeps exactly the keys that carry a non-null value. */
  lemma DeepKeys(ms: seq<Member>)
    ensures KeysOf(DeepMembers(ms)) == set m | m in ms && !IsNullish(m.value) :: m.key
  {
    DeepIsShallowThenMap(ms);
    var d := DeepMembers(ms);
    var s := RemoveNullValues(ms);
    forall k | k in KeysOf(d)
      ensures k in KeysOf(s)
    {
      var i :| 0 <= i < |d| && d[i].key == k;
      assert s[i] in s;
    }
    forall k | k in KeysOf(s)
      ensures k in KeysOf(d)
    {
      var i :| 0 <= i < |s| && s[i].key == k;
      assert d[i] in d;
    }
    ShallowKeys(ms);
  }

  /** No object member at any depth is null or undefined. */
  predicate Clean(v: Json)
    decreases v
  {
    match v
    case JArray(items) => forall i :: 0 <= i < |items| ==> Clean(items[i])
    case JObject(ms) => forall i :: 0 <= i < |ms| ==> !IsNullish(ms[i].value) && Clean(ms[i].value)
    case _ => true
  }

  /** The deep result is clean. */
  lemma {:induction false} DeepIsClean(v: Json)
    ensures Clean(RemoveNullValuesDeep(v))
    decreases v
  {
    match v
    case JArray(items) => DeepItemsClean(items);
    case JObject(ms) => DeepMembersClean(ms);
    case _ =>
  }

  lemma {:induction false} DeepItemsClean(items: seq<Json>)
    ensures forall i :: 0 <= i < |DeepItems(items)| ==> Clean(DeepItems(items)[i])
    decreases items
  {
    if |items| > 0 {
      DeepIsClean(items[0]);
      DeepItemsClean(items[1..]);
    }
  }

  lemma {:induction false} DeepMembersClean(ms: seq<Member>)
    ensures forall i :: 0 <= i < |DeepMembers(ms)| ==>
      !IsNullish(DeepMembers(ms)[i].value) && Clean(DeepMembers(ms)[i].value)
    decreases ms
  {
    if |ms| > 0 {
      if !IsNullish(ms[0].value) {
        DeepIsClean(ms[0].value);
      }
      DeepMembersClean(ms[1..]);
    }
  }

  /** A clean value is left as it is. */
  lemma {:induction false} CleanUnchanged(v: Json)
    requires Clean(v)
    ensures RemoveNullValuesDeep(v) == v
    decreases v
  {
    match v
    case JArray(items) => CleanItemsUnchanged(items);
    case JObject(ms) => CleanMembersUnchanged(ms);
    case _ =>
  }

  lemma {:induction false} CleanItemsUnchanged(items: seq<Json>)
    requires forall i :: 0 <= i < |items| ==> Clean(items[i])
    ensures DeepItems(items) == items
    decreases items
  {
    if |items| > 0 {
      CleanUnchanged(items[0]);
      CleanItemsUnchanged(items[1..]);
    }
  }

  lemma {:induction false} CleanMembersUnchanged(ms: seq<Member>)
    requires forall i :: 0 <= i < |ms| ==> !IsNullish(ms[i].value) && Clean(ms[i].value)
    ensures DeepMembers(ms) == ms
    decreases ms
  {
    if |ms| > 0 {
      CleanUnchanged(ms[0].value);
      CleanMembersUnchanged(ms[1..]);
    }
  }

  /** Stripping twice is stripping once. */
  lemma DeepIdempotent(v: Json)
    ensures RemoveNullValuesDeep(RemoveNullValuesDeep(v)) == RemoveNullValuesDeep(v)
  {
    DeepIsClean(v);
    CleanUnchanged(RemoveNullValuesDeep(v));
  }
}
