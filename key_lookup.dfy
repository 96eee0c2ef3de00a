/** Finding a record field under any spelling of its name (`normalizeKey`,
    `buildKeyMap`, `getValueByField`) and picking the first usable candidate
    (`pickStr`, `pickNum`), from `dbf.worker.ts`. */
module KeyLookup {
  import opened Base
  import opened Text
  import opened JsValues

  /** A decoded record: its fields in `Object.keys` order. */
  type Record = Entries<Value>

  /** `normalizeKey`: trim, lower-case, and keep only `[a-z0-9]`. */
  function NormalizeKey(k: string): (r: string)
    ensures forall i :: 0 <= i < |r| ==> IsLowerAlnum(r[i])
  {
    Keep(Lower(TrimJs(k)), IsLowerAlnum)
  }

  /** White space, lower-cased, contributes nothing to a normalised key. */
  lemma {:induction false} SpacesAreDropped(w: string)
    requires forall i :: 0 <= i < |w| ==> IsJsSpace(w[i])
    ensures Keep(Lower(w), IsLowerAlnum) == ""
  {
    var lw := Lower(w);
    assert forall i :: 0 <= i < |lw| ==> lw[i] == w[i];
    KeepNone(lw, IsLowerAlnum);
  }

  /** Trimming adds nothing: white space is never kept. */
  lemma {:induction false} NormalizeKeyIgnoresTrim(k: string)
    ensures NormalizeKey(k) == Keep(Lower(k), IsLowerAlnum)
  {
    var a, b := TrimSplits(k, IsJsSpace);
    var t := TrimJs(k);
    assert Lower(k) == Lower(a) + Lower(t) + Lower(b) by {
      LowerAppend(a + t, b);
      LowerAppend(a, t);
    }
    assert Keep(Lower(k), IsLowerAlnum) == Keep(Lower(a), IsLowerAlnum) + Keep(Lower(t), IsLowerAlnum) + Keep(Lower(b), IsLowerAlnum) by {
      KeepAppend(Lower(a) + Lower(t), Lower(b), IsLowerAlnum);
      KeepAppend(Lower(a), Lower(t), IsLowerAlnum);
    }
    SpacesAreDropped(a);
    SpacesAreDropped(b);
  }

  /** Normalising a normalised key changes nothing. */
  lemma {:induction false} NormalizeKeyIdempotent(k: string)
    ensures NormalizeKey(NormalizeKey(k)) == NormalizeKey(k)
  {
    var r := NormalizeKey(k);
    NormalizeKeyIgnoresTrim(r);
    assert Lower(r) == r;
    KeepAll(r, IsLowerAlnum);
  }

  /** The normalised key does not depend on letter case. */
  lemma {:induction false} NormalizeKeyIgnoresCase(k: string)
    ensures NormalizeKey(Lower(k)) == NormalizeKey(k)
  {
    NormalizeKeyIgnoresTrim(k);
    NormalizeKeyIgnoresTrim(Lower(k));
    LowerIdempotent(k);
  }

  /** `Record<string, string>` from a spelling to a field name. */
  type KeyMap = map<string, string>

  /** The three spellings under which `buildKeyMap` files key `k`. */
  predicate Spelling(x: string, k: string)
  {
    x == NormalizeKey(k) || x == Lower(k) || x == k
  }

  /** One iteration of `buildKeyMap`'s loop: file `k` under its normalised,
      then its lower-cased, then its exact spelling. */
  function File(m: KeyMap, k: string): KeyMap
  {
    m[NormalizeKey(k) := k][Lower(k) := k][k := k]
  }

  /** The map `buildKeyMap` builds from the keys, in order; later writes win. */
  function KeyMapOf(keys: seq<string>): KeyMap
  {
    if |keys| == 0 then map[] else File(KeyMapOf(keys[..|keys| - 1]), keys[|keys| - 1])
  }

  /** Every entry of `m` leads to a key of `keys`, from one of that key's spellings. */
  predicate FromSpellings(m: KeyMap, keys: seq<string>)
  {
    forall x :: x in m ==> m[x] in keys && Spelling(x, m[x])
  }

  /** Writing key `k` under one of its spellings keeps every entry's provenance. */
  lemma UpdateKeepsProvenance(m: KeyMap, keys: seq<string>, x: string, k: string)
    requires FromSpellings(m, keys) && k in keys && Spelling(x, k)
    ensures FromSpellings(m[x := k], keys)
  {
  }

  /** Filing a key keeps every entry pointing at a key from one of its spellings. */
  lemma FileKeepsProvenance(m: KeyMap, keys: seq<string>, k: string)
    requires FromSpellings(m, keys)
    ensures FromSpellings(File(m, k), keys + [k])
  {
    var keys' := keys + [k];
    assert FromSpellings(m, keys') by {
      assert forall j :: j in keys ==> j in keys';
    }
    assert k in keys';
    var m1 := m[NormalizeKey(k) := k];
    UpdateKeepsProvenance(m, keys', NormalizeKey(k), k);
    var m2 := m1[Lower(k) := k];
    UpdateKeepsProvenance(m1, keys', Lower(k), k);
    UpdateKeepsProvenance(m2, keys', k, k);
  }

  /** Filing a key keeps what was filed and adds the key's three spellings. */
  lemma FileCovers(m: KeyMap, keys: seq<string>, k: string)
    requires forall j :: j in keys ==> NormalizeKey(j) in m && Lower(j) in m && j in m
    ensures forall j :: j in keys + [k] ==> NormalizeKey(j) in File(m, k) && Lower(j) in File(m, k) && j in File(m, k)
  {
  }

  /** Every entry of the key map leads to a key, from one of that key's spellings. */
  lemma {:induction false} KeyMapProvenance(keys: seq<string>)
    ensures FromSpellings(KeyMapOf(keys), keys)
  {
    if |keys| > 0 {
      var init, last := keys[..|keys| - 1], keys[|keys| - 1];
      KeyMapProvenance(init);
      assert keys == init + [last];
      assert KeyMapOf(keys) == File(KeyMapOf(init), last);
      FileKeepsProvenance(KeyMapOf(init), init, last);
    }
  }

  /** Every spelling of every key is filed. */
  lemma {:induction false} KeyMapCovers(keys: seq<string>)
    ensures forall k :: k in keys ==> NormalizeKey(k) in KeyMapOf(keys) && Lower(k) in KeyMapOf(keys) && k in KeyMapOf(keys)
  {
    if |keys| > 0 {
      var init, last := keys[..|keys| - 1], keys[|keys| - 1];
      KeyMapCovers(init);
      assert keys == init + [last];
      assert KeyMapOf(keys) == File(KeyMapOf(init), last);
      FileCovers(KeyMapOf(init), init, last);
    }
  }

  /** Each key is filed under its three spellings. */
  lemma KeyFiled(keys: seq<string>, k: string)
    requires k in keys
    ensures NormalizeKey(k) in KeyMapOf(keys) && Lower(k) in KeyMapOf(keys) && k in KeyMapOf(keys)
  {
    KeyMapCovers(keys);
  }

  /** The map of one more key is the map of the keys before it, with that key filed. */
  lemma KeyMapOfPrefix(keys: seq<string>, i: nat)
    requires i < |keys|
    ensures KeyMapOf(keys[..i + 1]) == File(KeyMapOf(keys[..i]), keys[i])
  {
    assert keys[..i + 1][..i] == keys[..i];
  }

  /** `buildKeyMap(sampleRecord)`. */
  method BuildKeyMap(rec: Record) returns (m: KeyMap)
    ensures m == KeyMapOf(KeysOf(rec))
  {
    var keys := KeysOf(rec);
    m := map[];
    var i := 0;
    while i < |rec|
      invariant 0 <= i <= |rec|
      invariant m == KeyMapOf(keys[..i])
    {
      var key := rec[i].0;
      // the normalised spelling, then the lower-cased one, then the exact one
      m := m[NormalizeKey(key) := key][Lower(key) := key][key := key];
      KeyMapOfPrefix(keys, i);
      i := i + 1;
    }
    assert keys[..|rec|] == keys;
  }

  /** `keyMap[x]`, with a missing entry read as "" (both are falsy). */
  function MapGet(km: KeyMap, x: string): string
  {
    if x in km then km[x] else ""
  }

  /** The key whose value `getValueByField` returns, or None for `undefined`. */
  function ResolveKey(rec: Record, km: KeyMap, field: string): (r: Option<string>)
    ensures r.Some? ==> r.value in KeysOf(rec)
    ensures field in KeysOf(rec) ==> r == Some(field)
    ensures field !in KeysOf(rec) && Lower(field) in KeysOf(rec) ==> r == Some(Lower(field))
  {
    var keys := KeysOf(rec);
    if field in keys then Some(field)
    else if Lower(field) in keys then Some(Lower(field))
    else
      var a := MapGet(km, NormalizeKey(field));
      var b := if a != "" then a else MapGet(km, Lower(field));
      var actual := if b != "" then b else MapGet(km, field);
      if actual != "" && actual in keys then Some(actual) else None
  }

  /** `getValueByField`: the value under the resolved key, or `undefined`. */
  function GetValueByField(rec: Record, km: KeyMap, field: string): (v: Value)
    ensures ResolveKey(rec, km, field).None? ==> v.Undefined?
    ensures ResolveKey(rec, km, field).Some? ==> (ResolveKey(rec, km, field).value, v) in rec
  {
    match ResolveKey(rec, km, field)
    case None => Undefined
    case Some(k) => Lookup(rec, k).value
  }

  /** A key map entry under a non-empty spelling names a non-empty key. */
  lemma NonEmptyEntry(keys: seq<string>, x: string)
    requires x in KeyMapOf(keys) && x != ""
    ensures KeyMapOf(keys)[x] in keys && KeyMapOf(keys)[x] != ""
  {
    KeyMapProvenance(keys);
    var k := KeyMapOf(keys)[x];
    assert Spelling(x, k);
    assert k == "" ==> NormalizeKey(k) == "" && Lower(k) == "";
  }

  /** When the map's entries are keys of the record, the chain
      `keyMap[normalized] || keyMap[lower] || keyMap[field]` resolves as soon as
      one of its first two links is a non-empty name. */
  lemma {:induction false} ChainResolves(rec: Record, km: KeyMap, field: string)
    requires field !in KeysOf(rec) && Lower(field) !in KeysOf(rec)
    requires forall x :: x in km ==> km[x] in KeysOf(rec)
    requires MapGet(km, NormalizeKey(field)) != "" || MapGet(km, Lower(field)) != ""
    ensures ResolveKey(rec, km, field).Some?
  {
  }

  /** With the key map built from the record itself, a field resolves whenever some
      key has the same non-empty normalised form or the same lower-cased form. */
  lemma {:induction false} ResolvesWhenSpelledAlike(rec: Record, field: string, i: nat)
    requires i < |rec|
    requires NormalizeKey(rec[i].0) == NormalizeKey(field) != "" || Lower(rec[i].0) == Lower(field)
    ensures ResolveKey(rec, KeyMapOf(KeysOf(rec)), field).Some?
  {
    var keys := KeysOf(rec);
    var km := KeyMapOf(keys);
    var nf, lf := NormalizeKey(field), Lower(field);
    if field !in keys && lf !in keys {
      assert MapGet(km, nf) != "" || MapGet(km, lf) != "" by {
        assert keys[i] == rec[i].0 && keys[i] in keys;
        KeyFiled(keys, keys[i]);
        if nf != "" && NormalizeKey(keys[i]) == nf {
          NonEmptyEntry(keys, nf);
        } else {
          assert Lower(keys[i]) == lf;
          assert lf != "" by {
            assert |keys[i]| == |lf|;
          }
          NonEmptyEntry(keys, lf);
        }
      }
      assert forall x :: x in km ==> km[x] in keys by {
        KeyMapProvenance(keys);
      }
      ChainResolves(rec, km, field);
    }
  }

  /** What the resolved key has to do with the field: it is the field, its
      lower-cased form, or a key one of whose spellings is one of the field's. */
  lemma {:induction false} ResolvedKeyIsASpelling(rec: Record, field: string)
    requires ResolveKey(rec, KeyMapOf(KeysOf(rec)), field).Some?
    ensures var k := ResolveKey(rec, KeyMapOf(KeysOf(rec)), field).value;
      k == field || k == Lower(field)
      || Spelling(NormalizeKey(field), k) || Spelling(Lower(field), k) || Spelling(field, k)
  {
    KeyMapProvenance(KeysOf(rec));
  }

  // ---- pickStr / pickNum ----

  /** The values found for each candidate field, in order. */
  function Candidates(rec: Record, km: KeyMap, fields: seq<string>): (vs: seq<Value>)
    ensures |vs| == |fields|
  {
    if |fields| == 0 then [] else [GetValueByField(rec, km, fields[0])] + Candidates(rec, km, fields[1..])
  }

  /** The i-th candidate value is the value found for the i-th field. */
  lemma {:induction false} CandidateAt(rec: Record, km: KeyMap, fields: seq<string>, i: nat)
    requires i < |fields|
    ensures Candidates(rec, km, fields)[i] == GetValueByField(rec, km, fields[i])
  {
    if i > 0 {
      CandidateAt(rec, km, fields[1..], i - 1);
    }
  }

  /** A value `pickStr` takes: neither nullish nor a blank string. */
  predicate Usable(v: Value) { !IsNullish(v) && !IsBlankString(v) }

  /** A value `pickNum` takes: one `parseNumberish` accepts. */
  predicate Numeric(v: Value) { ParseNumberish(v).Some? }

  /** The text `pickStr` returns for the candidates' values. */
  function FirstText(vs: seq<Value>): string
  {
    match FirstWhere(vs, Usable)
    case None => ""
    case Some(i) => NormalizeValue(vs[i])
  }

  /** The number `pickNum` returns for the candidates' values. */
  function FirstNumber(vs: seq<Value>): Option<Num>
  {
    match FirstWhere(vs, Numeric)
    case None => None
    case Some(i) => ParseNumberish(vs[i])
  }

  /** `pickStr`: the normalised value of the first usable candidate, else "". */
  function PickStr(rec: Record, km: KeyMap, fields: seq<string>): string
  {
    FirstText(Candidates(rec, km, fields))
  }

  /** `pickNum`: the number of the first candidate `parseNumberish` accepts, else null. */
  function PickNum(rec: Record, km: KeyMap, fields: seq<string>): Option<Num>
  {
    FirstNumber(Candidates(rec, km, fields))
  }

  /** The text picked is the trimmed text of the first usable value. */
  lemma {:induction false} FirstTextIsFirstUsable(vs: seq<Value>, i: nat)
    requires i < |vs| && Usable(vs[i])
    requires forall j :: 0 <= j < i ==> !Usable(vs[j])
    ensures FirstText(vs) == NormalizeValue(vs[i])
    ensures vs[i].Str? ==> FirstText(vs) == TrimJs(vs[i].s) && FirstText(vs) != ""
  {
    FirstWhereAt(vs, Usable, i);
  }

  /** No usable value: "" is picked. */
  lemma {:induction false} FirstTextNoneUsable(vs: seq<Value>)
    requires forall j :: 0 <= j < |vs| ==> !Usable(vs[j])
    ensures FirstText(vs) == ""
  {
  }

  /** The number picked is the first one `parseNumberish` accepts. */
  lemma {:induction false} FirstNumberIsFirstNumeric(vs: seq<Value>, i: nat)
    requires i < |vs| && ParseNumberish(vs[i]).Some?
    requires forall j :: 0 <= j < i ==> !Numeric(vs[j])
    ensures FirstNumber(vs) == ParseNumberish(vs[i])
  {
    FirstWhereAt(vs, Numeric, i);
  }

  /** No number is picked exactly when no value is accepted. */
  lemma {:induction false} FirstNumberNone(vs: seq<Value>)
    ensures FirstNumber(vs).None? <==> forall j :: 0 <= j < |vs| ==> ParseNumberish(vs[j]).None?
  {
    var f := FirstWhere(vs, Numeric);
    if f.Some? {
      assert ParseNumberish(vs[f.value]).Some?;
    }
  }

  /** No value accepted: null is picked. */
  lemma {:induction false} FirstNumberNoneNumeric(vs: seq<Value>)
    requires forall j :: 0 <= j < |vs| ==> !Numeric(vs[j])
    ensures FirstNumber(vs).None?
  {
  }

  /** `pickStr` returns the trimmed value of the first candidate that is neither nullish nor blank. */
  lemma {:induction false} PickStrFirstUsable(rec: Record, km: KeyMap, fields: seq<string>, i: nat)
    requires i < |fields| && Usable(GetValueByField(rec, km, fields[i]))
    requires forall j :: 0 <= j < i ==> !Usable(GetValueByField(rec, km, fields[j]))
    ensures PickStr(rec, km, fields) == NormalizeValue(GetValueByField(rec, km, fields[i]))
  {
    var vs := Candidates(rec, km, fields);
    forall j | 0 <= j <= i ensures vs[j] == GetValueByField(rec, km, fields[j]) {
      CandidateAt(rec, km, fields, j);
    }
    FirstTextIsFirstUsable(vs, i);
  }

  /** `pickStr` returns "" when no candidate is usable. */
  lemma {:induction false} PickStrNone(rec: Record, km: KeyMap, fields: seq<string>)
    requires forall j :: 0 <= j < |fields| ==> !Usable(GetValueByField(rec, km, fields[j]))
    ensures PickStr(rec, km, fields) == ""
  {
    var vs := Candidates(rec, km, fields);
    forall j | 0 <= j < |fields| ensures vs[j] == GetValueByField(rec, km, fields[j]) {
      CandidateAt(rec, km, fields, j);
    }
    FirstTextNoneUsable(vs);
  }

  /** `pickNum` returns the number of the first candidate `parseNumberish` accepts. */
  lemma {:induction false} PickNumFirstNumeric(rec: Record, km: KeyMap, fields: seq<string>, i: nat)
    requires i < |fields| && Numeric(GetValueByField(rec, km, fields[i]))
    requires forall j :: 0 <= j < i ==> !Numeric(GetValueByField(rec, km, fields[j]))
    ensures PickNum(rec, km, fields) == ParseNumberish(GetValueByField(rec, km, fields[i]))
  {
    var vs := Candidates(rec, km, fields);
    forall j | 0 <= j <= i ensures vs[j] == GetValueByField(rec, km, fields[j]) {
      CandidateAt(rec, km, fields, j);
    }
    FirstNumberIsFirstNumeric(vs, i);
  }

  /** `pickNum` returns null exactly when no candidate is accepted. */
  lemma {:induction false} PickNumNone(rec: Record, km: KeyMap, fields: seq<string>)
    ensures PickNum(rec, km, fields).None? <==>
      forall j :: 0 <= j < |fields| ==> ParseNumberish(GetValueByField(rec, km, fields[j])).None?
  {
    var vs := Candidates(rec, km, fields);
    forall j | 0 <= j < |fields| ensures vs[j] == GetValueByField(rec, km, fields[j]) {
      CandidateAt(rec, km, fields, j);
    }
    FirstNumberNone(vs);
  }

  /** `pickStr` as written: the candidate loop with its early return. */
  method PickStrScan(rec: Record, km: KeyMap, fields: seq<string>) returns (r: string)
    ensures r == PickStr(rec, km, fields)
  {
    ghost var vs := Candidates(rec, km, fields);
    var i := 0;
    while i < |fields|
      invariant 0 <= i <= |fields|
      invariant forall j :: 0 <= j < i ==> !Usable(vs[j])
    {
      var v := GetValueByField(rec, km, fields[i]);
      assert v == vs[i] by {
        CandidateAt(rec, km, fields, i);
      }
      if IsNullish(v) || IsBlankString(v) {
        NoneWhereExtend(vs, Usable, i);
        i := i + 1;
        continue;
      }
      FirstTextIsFirstUsable(vs, i);
      return NormalizeValue(v);
    }
    FirstTextNoneUsable(vs);
    return "";
  }

  /** `pickNum` as written: the candidate loop with its early return. */
  method PickNumScan(rec: Record, km: KeyMap, fields: seq<string>) returns (r: Option<Num>)
    ensures r == PickNum(rec, km, fields)
  {
    ghost var vs := Candidates(rec, km, fields);
    var i := 0;
    while i < |fields|
      invariant 0 <= i <= |fields|
      invariant forall j :: 0 <= j < i ==> !Numeric(vs[j])
    {
      var v := GetValueByField(rec, km, fields[i]);
      assert v == vs[i] by {
        CandidateAt(rec, km, fields, i);
      }
      var num := ParseNumberish(v);
      if num.Some? {
        FirstNumberIsFirstNumeric(vs, i);
        return num;
      }
      NoneWhereExtend(vs, Numeric, i);
      i := i + 1;
    }
    FirstNumberNoneNumeric(vs);
    return None;
  }
}
