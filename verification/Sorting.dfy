/** Sorting by a total order: what `sorted` and `list.sort` promise wherever the engine uses them. */
module Sorting {

  ghost predicate IsTotalPreorder<T(!new)>(le: (T, T) -> bool) {
    && (forall x, y :: le(x, y) || le(y, x))
    && (forall x, y, z :: le(x, y) && le(y, z) ==> le(x, z))
  }

  ghost predicate IsTotalOrder<T(!new)>(le: (T, T) -> bool) {
    IsTotalPreorder(le) && forall x, y :: le(x, y) && le(y, x) ==> x == y
  }

  ghost predicate SortedBy<T>(s: seq<T>, le: (T, T) -> bool) {
    forall i, j :: 0 <= i < j < |s| ==> le(s[i], s[j])
  }

  /** x placed after every element it does not precede. */
  function Insert<T>(s: seq<T>, x: T, le: (T, T) -> bool): (r: seq<T>)
    ensures |r| == |s| + 1
    ensures multiset(r) == multiset(s) + multiset{x}
  {
    if s == [] then
      [x]
    else if le(s[|s| - 1], x) then
      s + [x]
    else
      assert s == s[..|s| - 1] + [s[|s| - 1]];
      Insert(s[..|s| - 1], x, le) + [s[|s| - 1]]
  }

  function Sort<T>(s: seq<T>, le: (T, T) -> bool): (r: seq<T>)
    ensures |r| == |s|
    ensures multiset(r) == multiset(s)
  {
    if s == [] then []
    else
      assert s == s[..|s| - 1] + [s[|s| - 1]];
      Insert(Sort(s[..|s| - 1], le), s[|s| - 1], le)
  }

  lemma {:induction false} InsertSorts<T(!new)>(s: seq<T>, x: T, le: (T, T) -> bool)
    requires IsTotalPreorder(le) && SortedBy(s, le)
    ensures SortedBy(Insert(s, x, le), le)
  {
    if s != [] && !le(s[|s| - 1], x) {
      var front, last := s[..|s| - 1], s[|s| - 1];
      InsertSorts(front, x, le);
      var r := Insert(front, x, le);
      forall i | 0 <= i < |r| ensures le(r[i], last) {
        assert r[i] in multiset(r);
        if r[i] != x {
          assert r[i] in front;
        }
      }
    }
  }

  lemma {:induction false} SortSorts<T(!new)>(s: seq<T>, le: (T, T) -> bool)
    requires IsTotalPreorder(le)
    ensures SortedBy(Sort(s, le), le)
  {
    if s != [] {
      SortSorts(s[..|s| - 1], le);
      InsertSorts(Sort(s[..|s| - 1], le), s[|s| - 1], le);
    }
  }

  lemma LastIsGreatest<T(!new)>(a: seq<T>, x: T, le: (T, T) -> bool)
    requires IsTotalPreorder(le) && SortedBy(a, le) && x in multiset(a)
    ensures a != [] && le(x, a[|a| - 1])
  {
    var i :| 0 <= i < |a| && a[i] == x;
  }

  lemma SplitLast<T>(a: seq<T>)
    requires a != []
    ensures multiset(a[..|a| - 1]) == multiset(a) - multiset{a[|a| - 1]}
    ensures a[|a| - 1] in multiset(a)
    ensures a == a[..|a| - 1] + [a[|a| - 1]]
  {
    assert a == a[..|a| - 1] + [a[|a| - 1]];
  }

  /** The order tells the elements of a apart. */
  ghost predicate Separates<T(!new)>(le: (T, T) -> bool, a: seq<T>) {
    forall x, y :: x in multiset(a) && y in multiset(a) && le(x, y) && le(y, x) ==> x == y
  }

  /** A sorted sequence is determined by its elements. */
  lemma {:induction false} SortedUnique<T(!new)>(a: seq<T>, b: seq<T>, le: (T, T) -> bool)
    requires IsTotalPreorder(le) && Separates(le, a)
    requires SortedBy(a, le) && SortedBy(b, le) && multiset(a) == multiset(b)
    ensures a == b
  {
    assert |multiset(a)| == |a| && |multiset(b)| == |b|;
    if a != [] {
      SplitLast(a);
      SplitLast(b);
      LastIsGreatest(b, a[|a| - 1], le);
      LastIsGreatest(a, b[|b| - 1], le);
      SortedUnique(a[..|a| - 1], b[..|b| - 1], le);
    }
  }

  /** Sorting forgets the order it was given. */
  lemma SortForgetsOrder<T(!new)>(a: seq<T>, b: seq<T>, le: (T, T) -> bool)
    requires IsTotalPreorder(le) && Separates(le, a) && multiset(a) == multiset(b)
    ensures Sort(a, le) == Sort(b, le)
  {
    SortSorts(a, le);
    SortSorts(b, le);
    SortedUnique(Sort(a, le), Sort(b, le), le);
  }

  /** Sorting what is sorted changes nothing. */
  lemma SortOfSorted<T(!new)>(a: seq<T>, le: (T, T) -> bool)
    requires IsTotalPreorder(le) && Separates(le, a) && SortedBy(a, le)
    ensures Sort(a, le) == a
  {
    SortSorts(a, le);
    SortedUnique(Sort(a, le), a, le);
  }

  predicate AtMost(a: int, b: int) {
    a <= b
  }

  lemma AtMostIsTotal()
    ensures IsTotalOrder(AtMost)
  {
  }

  /** Appending unless present: the keys of a dictionary in insertion order. */
  function Include(keys: seq<int>, k: int): (r: seq<int>)
    ensures forall v :: v in r <==> v in keys || v == k
    ensures |r| <= |keys| + 1
    ensures (forall i, j :: 0 <= i < j < |keys| ==> keys[i] != keys[j]) ==>
      forall i, j :: 0 <= i < j < |r| ==> r[i] != r[j]
  {
    if k in keys then keys else keys + [k]
  }

  /** Sorting distinct integers makes them strictly ascending. */
  lemma SortedDistinct(a: seq<int>, b: seq<int>)
    requires multiset(a) == multiset(b) && SortedBy(b, AtMost)
    requires forall i, j :: 0 <= i < j < |a| ==> a[i] != a[j]
    ensures forall v :: v in b <==> v in a
    ensures forall i, j :: 0 <= i < j < |b| ==> b[i] < b[j]
  {
    NoRepeats(a, b);
    forall i, j | 0 <= i < j < |b| ensures b[i] < b[j] {
      assert AtMost(b[i], b[j]);
    }
  }

  lemma TwiceInside<T>(b: seq<T>, i: nat, j: nat)
    requires i < j < |b| && b[i] == b[j]
    ensures multiset(b)[b[i]] >= 2
  {
    assert b == b[..j] + b[j..];
    assert b[..j][i] == b[i] && b[j..][0] == b[i];
    assert multiset(b) == multiset(b[..j]) + multiset(b[j..]);
  }

  lemma {:induction false} OnceInside<T>(a: seq<T>, v: T)
    requires forall i, j :: 0 <= i < j < |a| ==> a[i] != a[j]
    ensures multiset(a)[v] <= 1
  {
    if a != [] {
      var n := |a| - 1;
      assert a == a[..n] + [a[n]];
      OnceInside(a[..n], v);
      if v == a[n] {
        assert v !in a[..n];
      }
    }
  }

  /** Moving elements around repeats none. */
  lemma NoRepeats<T>(a: seq<T>, b: seq<T>)
    requires multiset(a) == multiset(b) && forall i, j :: 0 <= i < j < |a| ==> a[i] != a[j]
    ensures forall i, j :: 0 <= i < j < |b| ==> b[i] != b[j]
    ensures forall x :: x in a <==> x in b
  {
    forall i, j | 0 <= i < j < |b| ensures b[i] != b[j] {
      OnceInside(a, b[i]);
      if b[i] == b[j] {
        TwiceInside(b, i, j);
        assert false;
      }
    }
    forall x ensures x in a <==> x in b {
      assert x in a <==> x in multiset(a);
      assert x in b <==> x in multiset(b);
    }
  }

  /** Elements without repetition, sorted, are determined by which they are. */
  lemma SortedSetUnique<T(!new)>(a: seq<T>, b: seq<T>, le: (T, T) -> bool)
    requires IsTotalPreorder(le) && Separates(le, a) && SortedBy(a, le) && SortedBy(b, le)
    requires forall i, j :: 0 <= i < j < |a| ==> a[i] != a[j]
    requires forall i, j :: 0 <= i < j < |b| ==> b[i] != b[j]
    requires forall x :: x in a <==> x in b
    ensures a == b
  {
    forall x ensures multiset(a)[x] == multiset(b)[x] {
      OnceInside(a, x);
      OnceInside(b, x);
      assert x in a <==> x in multiset(a);
      assert x in b <==> x in multiset(b);
    }
    assert multiset(a) == multiset(b);
    SortedUnique(a, b, le);
  }
}
