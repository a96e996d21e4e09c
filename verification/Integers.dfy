/** Integer products and finite sums.  As in `Fractions`, products go through a named function
    that a proof can hide. */
module Integers {

  function Mul(a: int, b: int): int {
    a * b
  }

  lemma MulCommutes(a: int, b: int)
    ensures Mul(a, b) == Mul(b, a)
  {
  }

  lemma MulAssociates(a: int, b: int, c: int)
    ensures Mul(Mul(a, b), c) == Mul(a, Mul(b, c))
  {
  }

  lemma MulDistributes(a: int, b: int, c: int)
    ensures Mul(a, b + c) == Mul(a, b) + Mul(a, c)
    ensures Mul(b + c, a) == Mul(b, a) + Mul(c, a)
  {
  }

  lemma MulUnits(a: int)
    ensures Mul(a, 0) == Mul(0, a) == 0
    ensures Mul(a, 1) == Mul(1, a) == a
  {
  }

  // ---------- sums ----------

  function Total(s: seq<int>): int {
    if s == [] then 0 else Total(s[..|s| - 1]) + s[|s| - 1]
  }

  lemma {:induction false} TotalAdds(a: seq<int>, b: seq<int>, c: seq<int>)
    requires |a| == |b| == |c| && forall i :: 0 <= i < |a| ==> c[i] == a[i] + b[i]
    ensures Total(c) == Total(a) + Total(b)
  {
    if a != [] {
      var n := |a| - 1;
      TotalAdds(a[..n], b[..n], c[..n]);
    }
  }

  lemma {:induction false} TotalScales(k: int, a: seq<int>, b: seq<int>)
    requires |a| == |b| && forall i :: 0 <= i < |a| ==> b[i] == Mul(k, a[i])
    ensures Total(b) == Mul(k, Total(a))
  {
    hide Mul;
    if a == [] {
      MulUnits(k);
    } else {
      var n := |a| - 1;
      TotalScales(k, a[..n], b[..n]);
      MulDistributes(k, Total(a[..n]), a[n]);
    }
  }

  lemma {:induction false} TotalZero(a: seq<int>)
    requires forall i :: 0 <= i < |a| ==> a[i] == 0
    ensures Total(a) == 0
  {
    if a != [] {
      TotalZero(a[..|a| - 1]);
    }
  }

  lemma {:induction false} TotalPicks(a: seq<int>, k: nat)
    requires k < |a| && forall i :: 0 <= i < |a| && i != k ==> a[i] == 0
    ensures Total(a) == a[k]
  {
    if k == |a| - 1 {
      TotalZero(a[..k]);
    } else {
      TotalPicks(a[..|a| - 1], k);
    }
  }

  lemma {:induction false} TotalJoins(a: seq<int>, b: seq<int>)
    ensures Total(a + b) == Total(a) + Total(b)
  {
    if b == [] {
      assert a + b == a;
    } else {
      var n := |b| - 1;
      assert (a + b)[..|a + b| - 1] == a + b[..n];
      TotalJoins(a, b[..n]);
    }
  }

  // ---------- double sums ----------

  type Grid = seq<seq<int>>

  ghost predicate IsRectangular(g: Grid, width: nat) {
    forall i :: 0 <= i < |g| ==> |g[i]| == width
  }

  ghost function Column(g: Grid, width: nat, j: nat): seq<int>
    requires IsRectangular(g, width) && j < width
  {
    seq(|g|, i requires 0 <= i < |g| => g[i][j])
  }

  ghost function RowTotals(g: Grid): seq<int> {
    seq(|g|, i requires 0 <= i < |g| => Total(g[i]))
  }

  ghost function ColumnTotals(g: Grid, width: nat): seq<int>
    requires IsRectangular(g, width)
  {
    seq(width, j requires 0 <= j < width => Total(Column(g, width, j)))
  }

  /** A double sum does not depend on the order of summation. */
  lemma {:induction false} TotalSwaps(g: Grid, width: nat)
    requires IsRectangular(g, width)
    ensures Total(RowTotals(g)) == Total(ColumnTotals(g, width))
  {
    if g == [] {
      TotalZero(ColumnTotals(g, width));
    } else {
      var n := |g| - 1;
      var front := g[..n];
      TotalSwaps(front, width);
      assert RowTotals(g)[..n] == RowTotals(front);
      forall j | 0 <= j < width
        ensures ColumnTotals(g, width)[j] == ColumnTotals(front, width)[j] + g[n][j]
      {
        assert Column(g, width, j)[..n] == Column(front, width, j);
      }
      TotalAdds(ColumnTotals(front, width), g[n], ColumnTotals(g, width));
    }
  }
}
