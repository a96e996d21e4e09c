/** Dictionaries that were read: their fields, and the sorted form that represents them.

    A dictionary that was read is represented by its sorted form, which
    `CanonicalJson.SortedIsMeaning` shows to be the same thing. */
module Fields {
  import opened Outcomes
  import opened Actions
  import opened Json
  import opened JsonText
  import opened CanonicalJson
  import opened Rotations

  // ---------- fields of dictionaries ----------

  function Keys(members: seq<Member>): set<string> {
    set m | m in members :: m.key
  }

  function Get(members: seq<Member>, key: string): Option<Value> {
    if members == [] then None
    else if members[0].key == key then Some(members[0].value)
    else Get(members[1..], key)
  }

  /** The field of an object, null if there is none. */
  function Field(v: Value, key: string): Value {
    if v.Obj? && Get(v.members, key).Some? then Get(v.members, key).value else Null
  }

  lemma {:induction false} GetMeans(members: seq<Member>, key: string, x: Value)
    requires DistinctKeys(members)
    ensures Get(members, key) == Some(x) <==> Member(key, x) in members
    ensures Get(members, key).Some? <==> key in Keys(members)
  {
    if members != [] {
      assert members == [members[0]] + members[1..];
      GetMeans(members[1..], key, x);
      if Member(key, x) in members[1..] {
        var i :| 0 <= i < |members[1..]| && members[1..][i] == Member(key, x);
        assert members[i + 1].key == key;
      }
    }
  }

  lemma {:induction false} GetAfterSort(members: seq<Member>, key: string)
    requires DistinctKeys(members)
    ensures var sorted := SortMembers(SortedValues(members));
      && DistinctKeys(sorted)
      && Keys(sorted) == Keys(members)
      && Get(sorted, key) == match Get(members, key) { case None => None case Some(x) => Some(Sorted(x)) }
  {
    hide Sorted, SortMembers, Before;
    var values := SortedValues(members);
    var sorted := SortMembers(values);
    SortAscends(values);
    AscendingIsDistinct(sorted);
    SortKeeps(values);
    assert Keys(sorted) == Keys(members) by {
      forall k ensures k in Keys(sorted) <==> k in Keys(members) {
        if k in Keys(sorted) {
          var m :| m in sorted && m.key == k;
          var i :| 0 <= i < |values| && values[i] == m;
          assert members[i] in members;
        }
        if k in Keys(members) {
          var m :| m in members && m.key == k;
          var i :| 0 <= i < |members| && members[i] == m;
          assert values[i] in values;
        }
      }
    }
    GetMeans(members, key, Null);
    GetMeans(sorted, key, Null);
    if Get(members, key).Some? {
      var x := Get(members, key).value;
      GetMeans(members, key, x);
      var i :| 0 <= i < |members| && members[i] == Member(key, x);
      assert values[i] in values;
      GetMeans(sorted, key, Sorted(x));
    }
  }

  lemma SortedObject(members: seq<Member>)
    ensures Sorted(Obj(members)) == Obj(SortMembers(SortedValues(members)))
  {
  }

  lemma FieldOf(members: seq<Member>, i: nat)
    requires DistinctKeys(members) && i < |members|
    ensures Field(Sorted(Obj(members)), members[i].key) == Sorted(members[i].value)
  {
    hide SortMembers, Sorted, SortedValues;
    SortedObject(members);
    GetAfterSort(members, members[i].key);
    GetMeans(members, members[i].key, members[i].value);
    assert members[i] in members;
  }

  /** Keys told apart by their first letter and their length. */
  lemma TaggedKeysDiffer(m: seq<Member>, letters: string, lengths: seq<nat>)
    requires |m| == |letters| == |lengths|
    requires forall i :: 0 <= i < |m| ==> m[i].key != [] && m[i].key[0] == letters[i] && |m[i].key| == lengths[i]
    requires forall i, j :: 0 <= i < j < |m| ==> letters[i] != letters[j] || lengths[i] != lengths[j]
    ensures DistinctKeys(m)
  {
  }

  // ---------- values in sorted form ----------

  /** A value in sorted form that the engine accepts. */
  predicate IsNormal(v: Value) {
    Valid(v) && Sorted(v) == v
  }

  /** `parse_json_bytes`, in sorted form. */
  function Read(body: string): Result<Value> {
    var v :- Parse(body);
    Success(Sorted(v))
  }

  lemma ReadsBack(v: Value)
    requires IsNormal(v)
    ensures Read(CanonicalText(v)) == Success(v)
  {
    hide Valid, Sorted, Parse, CanonicalText;
    CanonicalRoundTrip(v);
  }

  lemma ReadIsNormal(body: string)
    ensures Read(body).Success? ==> IsNormal(Read(body).value)
  {
    hide WellFormed, IsCanonizable, Sorted, Parse;
    ParseIsValid(body);
    if Parse(body).Success? {
      SortedKeeps(Parse(body).value, MAX_JSON_NESTING);
    }
  }

  lemma AscendingMembers(v: Value)
    requires v.Obj? && WellFormed(v) && Sorted(v) == v
    ensures Ascending(v.members) && DistinctKeys(v.members)
  {
    hide StringAtMost;
    SortAscends(SortedValues(v.members));
  }

  lemma ValuesAreSorted(v: Value, k: nat)
    requires v.Obj? && WellFormed(v) && Sorted(v) == v && k < |v.members|
    ensures Sorted(v.members[k].value) == v.members[k].value
  {
    AscendingMembers(v);
    hide Before, WellFormed, IsCanonizable;
    var members := v.members;
    SortKeeps(SortedValues(members));
    assert SortMembers(SortedValues(members)) == members;
    assert members[k] in members;
    var j :| 0 <= j < |members| && SortedValues(members)[j] == members[k];
    assert members[j].key == members[k].key;
  }

  lemma FieldIsMember(v: Value, m: Member)
    requires v.Obj? && DistinctKeys(v.members)
    ensures m in v.members <==> m.key in Keys(v.members) && Field(v, m.key) == m.value
  {
    GetMeans(v.members, m.key, m.value);
    if m.key in Keys(v.members) {
      GetMeans(v.members, m.key, Get(v.members, m.key).value);
    }
    assert m in v.members ==> m.key in Keys(v.members);
  }

  /** Two objects in sorted form are the same when they have the same keys and fields. */
  lemma SameFields(v: Value, w: Value)
    requires v.Obj? && w.Obj? && IsNormal(v) && IsNormal(w) && Keys(v.members) == Keys(w.members)
    requires forall key :: key in Keys(v.members) ==> Field(v, key) == Field(w, key)
    ensures v == w
  {
    AscendingMembers(v);
    AscendingMembers(w);
    hide Field, Keys, Valid, Sorted, Ascending;
    forall m ensures m in v.members <==> m in w.members {
      FieldIsMember(v, m);
      FieldIsMember(w, m);
    }
    AscendingUnique(v.members, w.members);
  }

  lemma {:induction false} MoreLevels(v: Value, less: nat, more: nat)
    requires IsCanonizable(v, less) && less <= more
    ensures IsCanonizable(v, more)
    decreases v
  {
    match v
    case Arr(items) =>
      forall i | 0 <= i < |items| ensures IsCanonizable(items[i], more - 1) {
        MoreLevels(items[i], less - 1, more - 1);
      }
    case Obj(members) =>
      forall i | 0 <= i < |members| ensures IsCanonizable(members[i].value, more - 1) {
        MoreLevels(members[i].value, less - 1, more - 1);
      }
    case _ =>
  }

  lemma Shallower(v: Value)
    requires WellFormed(v) && IsCanonizable(v, MAX_JSON_NESTING - 2) && Sorted(v) == v
    ensures IsNormal(v)
  {
    hide Sorted, WellFormed;
    MoreLevels(v, MAX_JSON_NESTING - 2, MAX_JSON_NESTING);
  }

  lemma IntsAreSafe(v: Value, key: string)
    requires v.Obj? && IsNormal(v) && Field(v, key).Int?
    ensures -MAX_SAFE_INTEGER <= Field(v, key).n <= MAX_SAFE_INTEGER
  {
    AscendingMembers(v);
    hide Sorted, Ascending, Keys;
    var x := Field(v, key);
    GetMeans(v.members, key, x);
    var i :| 0 <= i < |v.members| && v.members[i] == Member(key, x);
    assert IsCanonizable(v.members[i].value, MAX_JSON_NESTING - 1);
  }

  lemma StringsAreSorted(s: string)
    ensures Sorted(Str(s)) == Str(s)
  {
  }

  lemma ListItems(x: Value)
    requires x.Arr? && WellFormed(x) && IsCanonizable(x, MAX_JSON_NESTING - 1) && Sorted(x) == x
    ensures forall i :: 0 <= i < |x.items| ==> IsNormal(x.items[i])
  {
    forall i | 0 <= i < |x.items| ensures IsNormal(x.items[i]) {
      assert SortedItems(x.items)[i] == x.items[i];
      MoreLevels(x.items[i], MAX_JSON_NESTING - 2, MAX_JSON_NESTING);
    }
  }

  /** Items of a list in sorted form are in sorted form. */
  lemma ItemsAreNormal(v: Value, key: string)
    requires v.Obj? && IsNormal(v) && Field(v, key).Arr?
    ensures forall i :: 0 <= i < |Field(v, key).items| ==> IsNormal(Field(v, key).items[i])
  {
    AscendingMembers(v);
    var x := Field(v, key);
    assert exists k :: 0 <= k < |v.members| && v.members[k] == Member(key, x) by {
      hide Sorted, Ascending;
      GetMeans(v.members, key, x);
    }
    var k :| 0 <= k < |v.members| && v.members[k] == Member(key, x);
    hide Ascending, DistinctKeys, Get, Field;
    ValuesAreSorted(v, k);
    assert WellFormed(v.members[k].value) && IsCanonizable(v.members[k].value, MAX_JSON_NESTING - 1);
    ListItems(x);
  }

  lemma ObjectIsNormal(members: seq<Member>)
    requires DistinctKeys(members) && SortMembers(SortedValues(members)) == members
    requires forall i :: 0 <= i < |members| ==>
      WellFormed(members[i].value) && IsCanonizable(members[i].value, MAX_JSON_NESTING - 1)
    ensures IsNormal(Obj(members))
  {
    SortedObject(members);
    hide Sorted, SortMembers, SortedValues, DistinctKeys;
  }

  predicate IsScalar(v: Value) {
    match v
    case Arr(_) => false
    case Obj(_) => false
    case Int(n) => -MAX_SAFE_INTEGER <= n <= MAX_SAFE_INTEGER
    case _ => true
  }

  predicate IsScalarList(v: Value) {
    v.Arr? && forall i :: 0 <= i < |v.items| ==> IsScalar(v.items[i])
  }

  lemma ListIsAccepted(v: Value)
    requires IsScalar(v) || IsScalarList(v)
    ensures WellFormed(v) && IsCanonizable(v, MAX_JSON_NESTING - 1)
  {
  }

  lemma MembersAreNormal(m: seq<Member>)
    requires DistinctKeys(m) && forall i :: 0 <= i < |m| ==> IsScalar(m[i].value) || IsScalarList(m[i].value)
    ensures WellFormed(Obj(m))
    ensures IsNormal(Sorted(Obj(m)))
  {
    hide Sorted;
    forall i | 0 <= i < |m| ensures WellFormed(m[i].value) && IsCanonizable(m[i].value, MAX_JSON_NESTING - 1) {
      ListIsAccepted(m[i].value);
    }
    SortedKeeps(Obj(m), MAX_JSON_NESTING);
  }

  // ---------- strings and digests ----------

  function Strs(items: seq<string>): (r: seq<Value>)
    ensures |r| == |items| && forall i :: 0 <= i < |items| ==> r[i] == Str(items[i])
  {
    seq(|items|, i requires 0 <= i < |items| => Str(items[i]))
  }

  /** The strings of a list of strings. */
  function StringsOf(v: Value): (r: Option<seq<string>>) {
    if v.Arr? && forall i :: 0 <= i < |v.items| ==> v.items[i].Str? then
      Some(seq(|v.items|, i requires 0 <= i < |v.items| => v.items[i].s))
    else None
  }

  lemma StringsAre(x: Value)
    ensures StringsOf(x).Some? ==> x == Arr(Strs(StringsOf(x).value))
  {
    if StringsOf(x).Some? {
      assert Strs(StringsOf(x).value) == x.items;
    }
  }

  lemma StringsRoundTrip(items: seq<string>)
    ensures StringsOf(Arr(Strs(items))) == Some(items)
    ensures Sorted(Arr(Strs(items))) == Arr(Strs(items))
  {
    var v := Arr(Strs(items));
    assert seq(|v.items|, i requires 0 <= i < |v.items| => v.items[i].s) == items;
    forall i | 0 <= i < |items| ensures SortedItems(v.items)[i] == v.items[i] {
    }
    assert SortedItems(v.items) == v.items;
  }

  /** What Python's `or` takes for false. */
  predicate IsFalsy(v: Value) {
    v == Null || v == Bool(false) || v == Int(0) || v == Str("") || v == Arr([]) || v == Obj([])
  }

  predicate IsDigest(s: string) {
    |s| == 64 && forall i :: 0 <= i < |s| ==> '0' <= s[i] <= '9' || 'a' <= s[i] <= 'f'
  }

  predicate IsDigestValue(v: Value) {
    v.Str? && IsDigest(v.s)
  }

  function DomainHash(sha: string -> string, domain: string, v: Value): string {
    sha(Preimage(domain, v))
  }

  // ---------- records with given keys ----------

  function KeySet(keys: seq<string>): set<string> {
    set k | k in keys
  }

  ghost predicate AreDistinctKeys(keys: seq<string>) {
    forall i, j :: 0 <= i < j < |keys| ==> keys[i] != keys[j]
  }

  /** Texts told apart by their first letter and their length. */
  lemma TaggedTextsDiffer(keys: seq<string>, letters: seq<char>, lengths: seq<nat>)
    requires |keys| == |letters| == |lengths|
    requires forall i :: 0 <= i < |keys| ==> keys[i] != [] && keys[i][0] == letters[i] && |keys[i]| == lengths[i]
    requires forall i, j :: 0 <= i < j < |keys| ==> letters[i] != letters[j] || lengths[i] != lengths[j]
    ensures AreDistinctKeys(keys)
  {
  }

  /** The members of a record, one for each of the keys. */
  function Zip(keys: seq<string>, values: seq<Value>): (m: seq<Member>)
    requires |keys| == |values|
    ensures |m| == |keys|
    ensures forall i :: 0 <= i < |keys| ==> m[i] == Member(keys[i], values[i])
  {
    seq(|keys|, i requires 0 <= i < |keys| => Member(keys[i], values[i]))
  }

  /** A record, in sorted form. */
  function RecordOf(keys: seq<string>, values: seq<Value>): Value
    requires |keys| == |values|
  {
    Sorted(Obj(Zip(keys, values)))
  }

  lemma ZipKeys(keys: seq<string>, values: seq<Value>)
    requires |keys| == |values|
    ensures Keys(Zip(keys, values)) == KeySet(keys)
  {
    var m := Zip(keys, values);
    forall k ensures k in Keys(m) <==> k in keys {
      if k in Keys(m) {
        var x :| x in m && x.key == k;
      }
      if k in keys {
        var i :| 0 <= i < |keys| && keys[i] == k;
        assert m[i] in m;
      }
    }
  }

  /** A record of values in sorted form has the given keys and, under each, its value. */
  lemma RecordFields(keys: seq<string>, values: seq<Value>)
    requires |keys| == |values| && AreDistinctKeys(keys)
    requires forall i :: 0 <= i < |values| ==> Sorted(values[i]) == values[i]
    ensures var v := RecordOf(keys, values);
      && v.Obj? && Keys(v.members) == KeySet(keys)
      && forall i :: 0 <= i < |keys| ==> Field(v, keys[i]) == values[i]
  {
    hide Sorted, Field, Get, SortMembers, Keys, KeySet;
    var m := Zip(keys, values);
    SortedObject(m);
    GetAfterSort(m, "");
    ZipKeys(keys, values);
    forall i | 0 <= i < |keys| ensures Field(RecordOf(keys, values), keys[i]) == values[i] {
      FieldOf(m, i);
    }
  }

  /** A record of accepted values is an accepted value in sorted form. */
  lemma RecordIsNormal(keys: seq<string>, values: seq<Value>, levels: nat)
    requires |keys| == |values| && AreDistinctKeys(keys) && levels >= 1
    requires forall i :: 0 <= i < |values| ==> WellFormed(values[i]) && IsCanonizable(values[i], levels - 1)
    ensures var v := RecordOf(keys, values);
      WellFormed(v) && IsCanonizable(v, levels) && Sorted(v) == v
  {
    hide Sorted;
    SortedKeeps(Obj(Zip(keys, values)), levels);
  }

  /** What is under a key of a value in sorted form. */
  lemma FieldIsKept(v: Value, key: string, levels: nat)
    requires v.Obj? && WellFormed(v) && IsCanonizable(v, levels + 1) && Sorted(v) == v
    ensures var x := Field(v, key);
      WellFormed(x) && IsCanonizable(x, levels) && Sorted(x) == x
  {
    SortAscends(SortedValues(v.members));
    hide Sorted, Ascending, SortMembers, Before, Keys;
    var x := Field(v, key);
    if Get(v.members, key).Some? {
      GetMeans(v.members, key, x);
      var i :| 0 <= i < |v.members| && v.members[i] == Member(key, x);
      ValuesAreSorted(v, i);
    }
    NullIsSorted();
  }

  lemma NullIsSorted()
    ensures Sorted(Null) == Null
  {
  }
}
