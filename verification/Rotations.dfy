/** Lexicographic order and canonical rotations (`_canonical_rotation`, `_canonical_edge_cycle`). */
module Rotations {
  import opened Sorting

  /** Python's order on lists and tuples. */
  predicate LexLe<T(==)>(le: (T, T) -> bool, a: seq<T>, b: seq<T>) {
    a == [] || (b != [] && (if a[0] == b[0] then LexLe(le, a[1..], b[1..]) else le(a[0], b[0])))
  }

  lemma {:induction false} LexTotal<T(!new)>(le: (T, T) -> bool, a: seq<T>, b: seq<T>)
    requires IsTotalOrder(le)
    ensures LexLe(le, a, b) || LexLe(le, b, a)
    ensures LexLe(le, a, b) && LexLe(le, b, a) ==> a == b
  {
    if a != [] && b != [] && a[0] == b[0] {
      LexTotal(le, a[1..], b[1..]);
      assert a == [a[0]] + a[1..] && b == [b[0]] + b[1..];
    }
  }

  lemma {:induction false} LexTransitive<T(!new)>(le: (T, T) -> bool, a: seq<T>, b: seq<T>, c: seq<T>)
    requires IsTotalOrder(le) && LexLe(le, a, b) && LexLe(le, b, c)
    ensures LexLe(le, a, c)
  {
    if a != [] && a[0] == b[0] == c[0] {
      LexTransitive(le, a[1..], b[1..], c[1..]);
    }
  }

  /** The rotation that starts at index k. */
  function Rotate<T>(s: seq<T>, k: nat): seq<T>
    requires k <= |s|
  {
    s[k..] + s[..k]
  }

  ghost predicate IsRotation<T>(s: seq<T>, r: seq<T>) {
    exists k :: 0 <= k < |s| && r == Rotate(s, k)
  }

  /** The least of the rotations that start before index n. */
  function LeastRotation<T(==)>(le: (T, T) -> bool, s: seq<T>, n: nat): seq<T>
    requires 1 <= n <= |s|
  {
    if n == 1 then Rotate(s, 0)
    else
      var best := LeastRotation(le, s, n - 1);
      if LexLe(le, best, Rotate(s, n - 1)) then best else Rotate(s, n - 1)
  }

  /** The least rotation; the source asks for it only of non-empty lists. */
  function CanonicalRotation<T(==)>(le: (T, T) -> bool, s: seq<T>): seq<T>
    requires s != []
  {
    LeastRotation(le, s, |s|)
  }

  lemma {:induction false} LeastOfRotations<T(!new)>(le: (T, T) -> bool, s: seq<T>, n: nat)
    requires IsTotalOrder(le) && 1 <= n <= |s|
    ensures IsRotation(s, LeastRotation(le, s, n))
    ensures forall k :: 0 <= k < n ==> LexLe(le, LeastRotation(le, s, n), Rotate(s, k))
  {
    if n == 1 {
      LexTotal(le, Rotate(s, 0), Rotate(s, 0));
    } else {
      LeastOfRotations(le, s, n - 1);
      var best, next := LeastRotation(le, s, n - 1), Rotate(s, n - 1);
      LexTotal(le, best, next);
      LexTotal(le, next, next);
      forall k | 0 <= k < n ensures LexLe(le, LeastRotation(le, s, n), Rotate(s, k)) {
        if k < n - 1 && !LexLe(le, best, next) {
          LexTransitive(le, next, best, Rotate(s, k));
        }
      }
    }
  }

  /** The canonical rotation is a rotation, and no rotation precedes it. */
  lemma CanonicalIsLeast<T(!new)>(le: (T, T) -> bool, s: seq<T>)
    requires IsTotalOrder(le) && s != []
    ensures IsRotation(s, CanonicalRotation(le, s))
    ensures forall r :: IsRotation(s, r) ==> LexLe(le, CanonicalRotation(le, s), r)
  {
    LeastOfRotations(le, s, |s|);
  }

  /** One step of rotation. */
  function Turn<T>(s: seq<T>): (r: seq<T>)
    requires s != []
    ensures |r| == |s|
  {
    s[1..] + [s[0]]
  }

  lemma TurnedRotation<T>(s: seq<T>, r: seq<T>)
    requires s != [] && IsRotation(s, r)
    ensures IsRotation(Turn(s), r)
  {
    var k :| 0 <= k < |s| && r == Rotate(s, k);
    assert r == Rotate(Turn(s), if k == 0 then |s| - 1 else k - 1);
  }

  lemma RotationOfTurned<T>(s: seq<T>, r: seq<T>)
    requires s != [] && IsRotation(Turn(s), r)
    ensures IsRotation(s, r)
  {
    var k :| 0 <= k < |s| && r == Rotate(Turn(s), k);
    if k + 1 < |s| {
      assert r == Rotate(s, k + 1);
    } else {
      assert r == Rotate(s, 0);
    }
  }

  /** Rotating a list does not change its canonical rotation. */
  lemma CanonicalOfTurned<T(!new)>(le: (T, T) -> bool, s: seq<T>)
    requires IsTotalOrder(le) && s != []
    ensures CanonicalRotation(le, Turn(s)) == CanonicalRotation(le, s)
  {
    var a, b := CanonicalRotation(le, s), CanonicalRotation(le, Turn(s));
    CanonicalIsLeast(le, s);
    CanonicalIsLeast(le, Turn(s));
    TurnedRotation(s, a);
    RotationOfTurned(s, b);
    LexTotal(le, a, b);
  }

  function Turns<T>(s: seq<T>, n: nat): (r: seq<T>)
    requires s != []
    ensures |r| == |s|
    decreases n
  {
    if n == 0 then s else Turns(Turn(s), n - 1)
  }

  lemma {:induction false} TurnsRotate<T>(s: seq<T>, n: nat)
    requires s != [] && n <= |s|
    ensures Turns(s, n) == Rotate(s, n)
    ensures n == |s| ==> Turns(s, n) == s
  {
    TurnsFrom(s, s, 0, n);
  }

  lemma {:induction false} TurnsFrom<T>(s: seq<T>, r: seq<T>, k: nat, n: nat)
    requires s != [] && k + n <= |s| && r == Rotate(s, k)
    ensures Turns(r, n) == Rotate(s, k + n)
    decreases n
  {
    if n > 0 {
      assert Turn(r) == Rotate(s, k + 1);
      TurnsFrom(s, Turn(r), k + 1, n - 1);
    }
  }

  lemma {:induction false} CanonicalOfTurns<T(!new)>(le: (T, T) -> bool, s: seq<T>, n: nat)
    requires IsTotalOrder(le) && s != []
    ensures CanonicalRotation(le, Turns(s, n)) == CanonicalRotation(le, s)
    decreases n
  {
    if n > 0 {
      CanonicalOfTurned(le, s);
      CanonicalOfTurns(le, Turn(s), n - 1);
    }
  }

  /** Two lists have the same canonical rotation just when one is a rotation of the other. */
  lemma SameCanonical<T(!new)>(le: (T, T) -> bool, s: seq<T>, r: seq<T>)
    requires IsTotalOrder(le) && s != [] && r != []
    ensures CanonicalRotation(le, s) == CanonicalRotation(le, r) <==> IsRotation(s, r)
  {
    hide CanonicalRotation;
    if IsRotation(s, r) {
      var k :| 0 <= k < |s| && r == Rotate(s, k);
      TurnsRotate(s, k);
      CanonicalOfTurns(le, s, k);
    }
    if CanonicalRotation(le, s) == CanonicalRotation(le, r) {
      CanonicalIsLeast(le, s);
      CanonicalIsLeast(le, r);
      var c := CanonicalRotation(le, s);
      var i :| 0 <= i < |s| && c == Rotate(s, i);
      var j :| 0 <= j < |r| && c == Rotate(r, j);
      UndoRotation(s, r, i, j);
    }
  }

  lemma UndoRotation<T>(s: seq<T>, r: seq<T>, i: nat, j: nat)
    requires i < |s| && j < |r| && Rotate(s, i) == Rotate(r, j)
    ensures IsRotation(s, r)
  {
    var c, n := Rotate(s, i), |s|;
    assert |c| == |r| == n;
    var back := if j == 0 then 0 else n - j;
    assert r == Rotate(c, back);
    var k := if i + back < n then i + back else i + back - n;
    assert r == Rotate(s, k);
  }

  // ---------- lexicographic order is a total order ----------

  predicate CharAtMost(a: char, b: char) {
    a <= b
  }

  predicate StringAtMost(a: string, b: string) {
    LexLe(CharAtMost, a, b)
  }

  /** a is a beginning of b, or smaller at the first place where they differ. */
  ghost predicate IsSmaller<T(!new)>(le: (T, T) -> bool, a: seq<T>, b: seq<T>) {
    exists k: nat :: FirstDifference(le, a, b, k)
  }

  ghost predicate FirstDifference<T(!new)>(le: (T, T) -> bool, a: seq<T>, b: seq<T>, k: nat) {
    && k <= |a| && k <= |b| && a[..k] == b[..k]
    && (k == |a| || (k < |b| && a[k] != b[k] && le(a[k], b[k])))
  }

  lemma SameStart<T(!new)>(le: (T, T) -> bool, a: seq<T>, b: seq<T>, k: nat)
    requires FirstDifference(le, a, b, k) && k > 0
    ensures a[0] == b[0]
  {
    assert a[..k][0] == a[0] && b[..k][0] == b[0];
  }

  lemma {:induction false} LexMeans<T(!new)>(le: (T, T) -> bool, a: seq<T>, b: seq<T>)
    ensures LexLe(le, a, b) <==> IsSmaller(le, a, b)
  {
    if a == [] {
      assert FirstDifference(le, a, b, 0);
    } else if b != [] && a[0] == b[0] {
      LexMeans(le, a[1..], b[1..]);
      if LexLe(le, a, b) {
        var k: nat :| FirstDifference(le, a[1..], b[1..], k);
        assert a[..k + 1] == [a[0]] + a[1..][..k] && b[..k + 1] == [b[0]] + b[1..][..k];
        assert FirstDifference(le, a, b, k + 1);
      }
      if k: nat :| FirstDifference(le, a, b, k) {
        assert k > 0;
        assert a[1..][..k - 1] == a[..k][1..] && b[1..][..k - 1] == b[..k][1..];
        assert FirstDifference(le, a[1..], b[1..], k - 1);
      }
    } else if b != [] {
      if LexLe(le, a, b) {
        assert FirstDifference(le, a, b, 0);
      }
      if k: nat :| FirstDifference(le, a, b, k) {
        if k > 0 {
          SameStart(le, a, b, k);
        }
      }
    }
  }

  /** Strings stand in the order of their code points. */
  lemma StringOrder(a: string, b: string)
    ensures StringAtMost(a, b) <==>
      exists k: nat :: k <= |a| && k <= |b| && a[..k] == b[..k] && (k == |a| || (k < |b| && a[k] as int < b[k] as int))
  {
    LexMeans(CharAtMost, a, b);
    hide LexLe;
    if StringAtMost(a, b) {
      var k: nat :| FirstDifference(CharAtMost, a, b, k);
      assert a[..k] == b[..k];
    }
    if k: nat :| k <= |a| && k <= |b| && a[..k] == b[..k] && (k == |a| || (k < |b| && a[k] as int < b[k] as int)) {
      assert FirstDifference(CharAtMost, a, b, k);
    }
  }

  lemma StringAtMostIsTotal()
    ensures IsTotalOrder(StringAtMost)
  {
    forall a, b
      ensures StringAtMost(a, b) || StringAtMost(b, a)
      ensures StringAtMost(a, b) && StringAtMost(b, a) ==> a == b
    {
      LexTotal(CharAtMost, a, b);
    }
    forall a, b, c | StringAtMost(a, b) && StringAtMost(b, c) ensures StringAtMost(a, c) {
      LexTransitive(CharAtMost, a, b, c);
    }
  }

  /** The order of patterns, as tuples of labels. */
  predicate PatternAtMost(a: seq<string>, b: seq<string>) {
    LexLe(StringAtMost, a, b)
  }

  lemma PatternAtMostIsTotal()
    ensures IsTotalOrder(PatternAtMost)
  {
    StringAtMostIsTotal();
    hide StringAtMost;
    forall a, b
      ensures PatternAtMost(a, b) || PatternAtMost(b, a)
      ensures PatternAtMost(a, b) && PatternAtMost(b, a) ==> a == b
    {
      LexTotal(StringAtMost, a, b);
    }
    forall a, b, c | PatternAtMost(a, b) && PatternAtMost(b, c) ensures PatternAtMost(a, c) {
      LexTransitive(StringAtMost, a, b, c);
    }
  }

  predicate TupleAtMost(a: seq<int>, b: seq<int>) {
    LexLe(AtMost, a, b)
  }

  lemma TupleAtMostIsTotal()
    ensures IsTotalOrder(TupleAtMost)
  {
    AtMostIsTotal();
    forall a, b
      ensures TupleAtMost(a, b) || TupleAtMost(b, a)
      ensures TupleAtMost(a, b) && TupleAtMost(b, a) ==> a == b
    {
      LexTotal(AtMost, a, b);
    }
    forall a, b, c | TupleAtMost(a, b) && TupleAtMost(b, c) ensures TupleAtMost(a, c) {
      LexTransitive(AtMost, a, b, c);
    }
  }
}
