/** JSON values, as the engine exchanges them, and their canonical order (canonical.py).

    A dictionary is the list of its members in insertion order, with distinct keys. */
module Json {
  import opened Rotations
  import opened Sorting
  import opened Outcomes

  const MAX_SAFE_INTEGER := 0x1F_FFFF_FFFF_FFFF  // 2^53 - 1
  const MAX_JSON_NESTING := 128

  datatype Value = Null | Bool(truth: bool) | Int(n: int) | Str(s: string) | Arr(items: seq<Value>) | Obj(members: seq<Member>)

  datatype Member = Member(key: string, value: Value)

  // ---------- values the engine accepts ----------

  predicate DistinctKeys(members: seq<Member>) {
    forall i, j :: 0 <= i < j < |members| ==> members[i].key != members[j].key
  }

  /** Every dictionary has distinct keys. */
  predicate WellFormed(v: Value) {
    match v
    case Arr(items) => forall i :: 0 <= i < |items| ==> WellFormed(items[i])
    case Obj(members) => DistinctKeys(members) && forall i :: 0 <= i < |members| ==> WellFormed(members[i].value)
    case _ => true
  }

  /** At most so many containers inside one another, and integers in the safe range. */
  predicate IsCanonizable(v: Value, levels: nat) {
    match v
    case Int(n) => -MAX_SAFE_INTEGER <= n <= MAX_SAFE_INTEGER
    case Arr(items) => levels > 0 && forall i :: 0 <= i < |items| ==> IsCanonizable(items[i], levels - 1)
    case Obj(members) => levels > 0 && forall i :: 0 <= i < |members| ==> IsCanonizable(members[i].value, levels - 1)
    case _ => true
  }

  predicate Valid(v: Value) {
    WellFormed(v) && IsCanonizable(v, MAX_JSON_NESTING)
  }

  /** `_validate`: the first fault on the way down, depth first.  (A value of a datatype has no cycles.) */
  function Validate(v: Value, depth: nat): Result<()>
    decreases v
  {
    match v
    case Int(n) => if -MAX_SAFE_INTEGER <= n <= MAX_SAFE_INTEGER then Success(()) else Failure(CanonicalInvalid)
    case Arr(items) => if depth >= MAX_JSON_NESTING then Failure(JsonNestingTooDeep) else ValidateItems(items, depth + 1)
    case Obj(members) => if depth >= MAX_JSON_NESTING then Failure(JsonNestingTooDeep) else ValidateMembers(members, depth + 1)
    case _ => Success(())
  }

  function ValidateItems(items: seq<Value>, depth: nat): Result<()>
    decreases items
  {
    if items == [] then Success(())
    else
      var first :- Validate(items[0], depth);
      ValidateItems(items[1..], depth)
  }

  function ValidateMembers(members: seq<Member>, depth: nat): Result<()>
    decreases members
  {
    if members == [] then Success(())
    else
      var first :- Validate(members[0].value, depth);
      ValidateMembers(members[1..], depth)
  }

  /** Validation accepts exactly the values with safe integers and at most 128 levels. */
  lemma {:induction false} ValidateMeans(v: Value, depth: nat)
    requires depth <= MAX_JSON_NESTING
    ensures Validate(v, depth).Success? <==> IsCanonizable(v, MAX_JSON_NESTING - depth)
    decreases v
  {
    match v
    case Arr(items) =>
      if depth < MAX_JSON_NESTING {
        ValidateItemsMeans(items, depth + 1);
      }
    case Obj(members) =>
      if depth < MAX_JSON_NESTING {
        ValidateMembersMeans(members, depth + 1);
      }
    case _ =>
  }

  lemma {:induction false} ValidateItemsMeans(items: seq<Value>, depth: nat)
    requires depth <= MAX_JSON_NESTING
    ensures ValidateItems(items, depth).Success? <==>
      forall i :: 0 <= i < |items| ==> IsCanonizable(items[i], MAX_JSON_NESTING - depth)
    decreases items
  {
    if items != [] {
      ValidateMeans(items[0], depth);
      ValidateItemsMeans(items[1..], depth);
      assert forall i :: 1 <= i < |items| ==> items[i] == items[1..][i - 1];
    }
  }

  lemma {:induction false} ValidateMembersMeans(members: seq<Member>, depth: nat)
    requires depth <= MAX_JSON_NESTING
    ensures ValidateMembers(members, depth).Success? <==>
      forall i :: 0 <= i < |members| ==> IsCanonizable(members[i].value, MAX_JSON_NESTING - depth)
    decreases members
  {
    if members != [] {
      ValidateMeans(members[0].value, depth);
      ValidateMembersMeans(members[1..], depth);
      assert forall i :: 1 <= i < |members| ==> members[i] == members[1..][i - 1];
    }
  }

  // ---------- sorting the keys ----------

  predicate Before(a: string, b: string) {
    StringAtMost(a, b) && a != b
  }

  ghost predicate Ascending(members: seq<Member>) {
    forall i, j :: 0 <= i < j < |members| ==> Before(members[i].key, members[j].key)
  }

  predicate KeyAtMost(a: Member, b: Member) {
    StringAtMost(a.key, b.key)
  }

  function SortMembers(members: seq<Member>): (r: seq<Member>)
    ensures |r| == |members|
  {
    Sort(members, KeyAtMost)
  }

  /** The value with the members of every dictionary in the order of their keys. */
  function Sorted(v: Value): Value {
    match v
    case Arr(items) => Arr(SortedItems(items))
    case Obj(members) => Obj(SortMembers(SortedValues(members)))
    case _ => v
  }

  function SortedItems(items: seq<Value>): (r: seq<Value>)
    ensures |r| == |items|
    ensures forall i :: 0 <= i < |items| ==> r[i] == Sorted(items[i])
    decreases items
  {
    if items == [] then [] else [Sorted(items[0])] + SortedItems(items[1..])
  }

  function SortedValues(members: seq<Member>): (r: seq<Member>)
    ensures |r| == |members|
    ensures forall i :: 0 <= i < |members| ==> r[i] == Member(members[i].key, Sorted(members[i].value))
    decreases members
  {
    if members == [] then [] else [Member(members[0].key, Sorted(members[0].value))] + SortedValues(members[1..])
  }

  lemma SortKeeps(members: seq<Member>)
    ensures forall x :: x in SortMembers(members) <==> x in members
  {
    hide Sort;
    forall x ensures x in SortMembers(members) <==> x in members {
      assert x in SortMembers(members) <==> x in multiset(SortMembers(members));
      assert x in members <==> x in multiset(members);
    }
  }

  lemma KeysAreOrdered()
    ensures IsTotalPreorder(KeyAtMost)
  {
    StringAtMostIsTotal();
    hide StringAtMost;
  }

  /** Distinct keys let their order tell the members apart. */
  lemma KeysSeparate(members: seq<Member>)
    requires DistinctKeys(members)
    ensures Separates(KeyAtMost, members)
    ensures forall i, j :: 0 <= i < j < |members| ==> members[i] != members[j]
  {
    StringAtMostIsTotal();
    hide StringAtMost;
    forall x, y | x in multiset(members) && y in multiset(members) && KeyAtMost(x, y) && KeyAtMost(y, x) ensures x == y {
      var i :| 0 <= i < |members| && members[i] == x;
      var j :| 0 <= j < |members| && members[j] == y;
    }
  }

  /** Distinct keys, once sorted, strictly ascend. */
  lemma SortAscends(members: seq<Member>)
    requires DistinctKeys(members)
    ensures Ascending(SortMembers(members))
  {
    hide StringAtMost, Sort;
    var sorted := SortMembers(members);
    KeysAreOrdered();
    KeysSeparate(members);
    SortSorts(members, KeyAtMost);
    NoRepeats(members, sorted);
    forall i, j | 0 <= i < j < |sorted| ensures Before(sorted[i].key, sorted[j].key) {
      assert KeyAtMost(sorted[i], sorted[j]);
      assert sorted[i] in members && sorted[j] in members;
      var k :| 0 <= k < |members| && members[k] == sorted[i];
      var l :| 0 <= l < |members| && members[l] == sorted[j];
    }
  }

  lemma AscendingIsDistinct(members: seq<Member>)
    requires Ascending(members)
    ensures DistinctKeys(members)
  {
    hide StringAtMost;
  }

  lemma AscendingIsSorted(members: seq<Member>)
    requires Ascending(members)
    ensures SortedBy(members, KeyAtMost)
  {
    hide StringAtMost;
    forall i, j | 0 <= i < j < |members| ensures KeyAtMost(members[i], members[j]) {
      assert Before(members[i].key, members[j].key);
    }
  }

  lemma SortOfAscending(members: seq<Member>)
    requires Ascending(members)
    ensures SortMembers(members) == members
  {
    hide KeyAtMost, Sort, Ascending, DistinctKeys;
    KeysAreOrdered();
    AscendingIsDistinct(members);
    AscendingIsSorted(members);
    KeysSeparate(members);
    SortOfSorted(members, KeyAtMost);
  }

  /** Ascending members are determined by what they contain. */
  lemma AscendingUnique(a: seq<Member>, b: seq<Member>)
    requires Ascending(a) && Ascending(b)
    requires forall x :: x in a <==> x in b
    ensures a == b
  {
    hide KeyAtMost, Ascending, DistinctKeys;
    KeysAreOrdered();
    AscendingIsDistinct(a);
    AscendingIsDistinct(b);
    AscendingIsSorted(a);
    AscendingIsSorted(b);
    KeysSeparate(a);
    KeysSeparate(b);
    SortedSetUnique(a, b, KeyAtMost);
  }

  // ---------- sorting loses nothing ----------

  lemma {:induction false} SortedKeeps(v: Value, levels: nat)
    requires WellFormed(v)
    ensures WellFormed(Sorted(v))
    ensures IsCanonizable(v, levels) <==> IsCanonizable(Sorted(v), levels)
    ensures Sorted(Sorted(v)) == Sorted(v)
    decreases v
  {
    hide SortMembers, DistinctKeys;
    var below := if levels > 0 then levels - 1 else 0;
    match v
    case Arr(items) =>
      forall i | 0 <= i < |items|
        ensures WellFormed(Sorted(items[i])) && Sorted(Sorted(items[i])) == Sorted(items[i])
        ensures IsCanonizable(items[i], below) <==> IsCanonizable(Sorted(items[i]), below)
      {
        SortedKeeps(items[i], below);
      }
      assert SortedItems(SortedItems(items)) == SortedItems(items);
    case Obj(members) =>
      forall i | 0 <= i < |members| ensures KeepsValue(members[i].value, below) {
        SortedKeeps(members[i].value, below);
      }
      SortedMembersKeep(members, below);
    case _ =>
  }

  ghost predicate KeepsValue(v: Value, levels: nat) {
    && WellFormed(Sorted(v)) && Sorted(Sorted(v)) == Sorted(v)
    && (IsCanonizable(v, levels) <==> IsCanonizable(Sorted(v), levels))
  }

  lemma SortedMembersKeep(members: seq<Member>, levels: nat)
    requires DistinctKeys(members)
    requires forall i :: 0 <= i < |members| ==> KeepsValue(members[i].value, levels)
    ensures var sorted := SortMembers(SortedValues(members));
      && DistinctKeys(sorted) && (forall i :: 0 <= i < |sorted| ==> WellFormed(sorted[i].value))
      && SortMembers(SortedValues(sorted)) == sorted
      && ((forall i :: 0 <= i < |members| ==> IsCanonizable(members[i].value, levels)) <==>
        (forall i :: 0 <= i < |sorted| ==> IsCanonizable(sorted[i].value, levels)))
  {
    hide WellFormed, IsCanonizable, Sorted, Before, SortMembers;
    var sorted := SortMembers(SortedValues(members));
    SortAscends(SortedValues(members));
    AscendingIsDistinct(sorted);
    SortOfAscending(sorted);
    hide Ascending, DistinctKeys;
    forall i | 0 <= i < |sorted|
      ensures WellFormed(sorted[i].value) && Sorted(sorted[i].value) == sorted[i].value
      ensures (forall k :: 0 <= k < |members| ==> IsCanonizable(members[k].value, levels)) ==>
        IsCanonizable(sorted[i].value, levels)
    {
      var k := SortedFrom(members, i);
    }
    assert SortedValues(sorted) == sorted;
    forall k | 0 <= k < |members|
      ensures (forall i :: 0 <= i < |sorted| ==> IsCanonizable(sorted[i].value, levels)) ==>
        IsCanonizable(members[k].value, levels)
    {
      var i := SortedTo(members, k);
    }
  }

  lemma SortedFrom(members: seq<Member>, i: nat) returns (k: nat)
    requires i < |members|
    ensures k < |members|
    ensures SortMembers(SortedValues(members))[i] == Member(members[k].key, Sorted(members[k].value))
  {
    hide SortMembers, Sorted;
    var values := SortedValues(members);
    SortKeeps(values);
    var x := SortMembers(values)[i];
    assert x in SortMembers(values);
    k :| 0 <= k < |values| && values[k] == x;
  }

  lemma SortedTo(members: seq<Member>, k: nat) returns (i: nat)
    requires k < |members|
    ensures i < |members|
    ensures SortMembers(SortedValues(members))[i] == Member(members[k].key, Sorted(members[k].value))
  {
    hide SortMembers, Sorted;
    var values := SortedValues(members);
    SortKeeps(values);
    assert values[k] in values;
    i :| 0 <= i < |values| && SortMembers(values)[i] == values[k];
  }
}
