/** Truncated power series with integer coefficients, under convolution.

    Only series of equal length meet; `Theta` is t*d/dt.  These are the laws that carry Newton's
    identities from a matrix to a bordered one. */
module PowerSeries {
  import opened Integers

  type Series = seq<int>

  ghost function Add(a: Series, b: Series): (c: Series)
    requires |a| == |b|
    ensures |c| == |a|
  {
    seq(|a|, i requires 0 <= i < |a| => a[i] + b[i])
  }

  ghost function Negate(a: Series): (c: Series)
    ensures |c| == |a|
  {
    seq(|a|, i requires 0 <= i < |a| => -a[i])
  }

  ghost function Delta(n: nat): (d: Series)
    ensures |d| == n
  {
    seq(n, i => if i == 0 then 1 else 0)
  }

  ghost function Theta(a: Series): (c: Series)
    ensures |c| == |a|
  {
    seq(|a|, i requires 0 <= i < |a| => Mul(i, a[i]))
  }

  ghost function Terms(a: Series, b: Series, k: nat): (t: seq<int>)
    requires |a| == |b| && k < |a|
    ensures |t| == k + 1
  {
    seq(k + 1, i requires 0 <= i <= k => Mul(a[i], b[k - i]))
  }

  ghost function Convolve(a: Series, b: Series): (c: Series)
    requires |a| == |b|
    ensures |c| == |a|
    ensures forall k :: 0 <= k < |a| ==> c[k] == Total(Terms(a, b, k))
  {
    seq(|a|, k requires 0 <= k < |a| => Total(Terms(a, b, k)))
  }

  ghost function Reverse(s: seq<int>): (r: seq<int>)
    ensures |r| == |s|
  {
    seq(|s|, i requires 0 <= i < |s| => s[|s| - 1 - i])
  }

  lemma {:induction false} TotalReverse(s: seq<int>)
    ensures Total(Reverse(s)) == Total(s)
  {
    if s != [] {
      var n := |s| - 1;
      TotalReverse(s[..n]);
      assert Reverse(s) == [s[n]] + Reverse(s[..n]);
      TotalJoins([s[n]], Reverse(s[..n]));
      assert [s[n]][..0] == [];
    }
  }

  lemma ConvolveCommutes(a: Series, b: Series)
    requires |a| == |b|
    ensures Convolve(a, b) == Convolve(b, a)
  {
    hide Mul;
    forall k | 0 <= k < |a| ensures Convolve(a, b)[k] == Convolve(b, a)[k] {
      forall i | 0 <= i <= k ensures Terms(a, b, k)[i] == Reverse(Terms(b, a, k))[i] {
        MulCommutes(a[i], b[k - i]);
      }
      assert Terms(a, b, k) == Reverse(Terms(b, a, k));
      TotalReverse(Terms(b, a, k));
    }
  }

  lemma ConvolveAdds(a: Series, b: Series, c: Series)
    requires |a| == |b| == |c|
    ensures Convolve(a, Add(b, c)) == Add(Convolve(a, b), Convolve(a, c))
  {
    hide Mul;
    forall k | 0 <= k < |a| ensures Convolve(a, Add(b, c))[k] == Convolve(a, b)[k] + Convolve(a, c)[k] {
      forall i | 0 <= i <= k ensures Terms(a, Add(b, c), k)[i] == Terms(a, b, k)[i] + Terms(a, c, k)[i] {
        MulDistributes(a[i], b[k - i], c[k - i]);
      }
      TotalAdds(Terms(a, b, k), Terms(a, c, k), Terms(a, Add(b, c), k));
    }
    assert Convolve(a, Add(b, c)) == Add(Convolve(a, b), Convolve(a, c));
  }

  lemma ConvolveNegates(a: Series, b: Series)
    requires |a| == |b|
    ensures Convolve(a, Negate(b)) == Negate(Convolve(a, b))
  {
    hide Mul;
    forall k | 0 <= k < |a| ensures Convolve(a, Negate(b))[k] == -Convolve(a, b)[k] {
      var s, t := Terms(a, b, k), Terms(a, Negate(b), k);
      forall i | 0 <= i <= k ensures t[i] == Mul(-1, s[i]) {
        MulMinus(a[i], b[k - i]);
      }
      TotalScales(-1, s, t);
      MulMinus(1, Total(s));
      MulUnits(Total(s));
    }
  }

  lemma MulMinus(a: int, b: int)
    ensures Mul(a, -b) == -Mul(a, b) == Mul(-a, b) == Mul(-1, Mul(a, b))
  {
  }

  lemma ConvolveDelta(a: Series)
    ensures Convolve(a, Delta(|a|)) == a
  {
    hide Mul;
    forall k | 0 <= k < |a| ensures Convolve(a, Delta(|a|))[k] == a[k] {
      var t := Terms(a, Delta(|a|), k);
      forall i | 0 <= i <= k ensures t[i] == if i == k then a[k] else 0 {
        MulUnits(a[i]);
      }
      TotalPicks(t, k);
    }
  }

  /** The product rule. */
  lemma ThetaConvolve(a: Series, b: Series)
    requires |a| == |b|
    ensures Theta(Convolve(a, b)) == Add(Convolve(Theta(a), b), Convolve(a, Theta(b)))
  {
    hide Mul;
    var left, right := Theta(Convolve(a, b)), Add(Convolve(Theta(a), b), Convolve(a, Theta(b)));
    forall k | 0 <= k < |a| ensures left[k] == right[k] {
      var first, second := Terms(Theta(a), b, k), Terms(a, Theta(b), k);
      var both := seq(k + 1, i requires 0 <= i <= k => Mul(k, Terms(a, b, k)[i]));
      forall i | 0 <= i <= k ensures both[i] == first[i] + second[i] {
        Weigh(i, k - i, a[i], b[k - i]);
      }
      TotalScales(k, Terms(a, b, k), both);
      TotalAdds(first, second, both);
    }
  }

  lemma Weigh(i: int, j: int, a: int, b: int)
    ensures Mul(i + j, Mul(a, b)) == Mul(Mul(i, a), b) + Mul(a, Mul(j, b))
  {
    hide Mul;
    MulDistributes(Mul(a, b), i, j);
    MulAssociates(i, a, b);
    MulAssociates(j, a, b);
    MulCommutes(j, a);
    MulAssociates(a, j, b);
  }

  // ---------- associativity ----------

  ghost function Triangle(a: Series, b: Series, c: Series, k: nat): (g: Grid)
    requires |a| == |b| == |c| && k < |a|
    ensures |g| == k + 1 && IsRectangular(g, k + 1)
  {
    seq(k + 1, i requires 0 <= i <= k =>
      seq(k + 1, p requires 0 <= p <= k => if p <= i then Mul(Mul(a[p], b[i - p]), c[k - i]) else 0))
  }

  lemma TriangleRow(a: Series, b: Series, c: Series, k: nat, i: nat)
    requires |a| == |b| == |c| && i <= k < |a|
    ensures Total(Triangle(a, b, c, k)[i]) == Mul(Convolve(a, b)[i], c[k - i])
  {
    hide Mul;
    var row, t := Triangle(a, b, c, k)[i], Terms(a, b, i);
    assert row == row[..i + 1] + row[i + 1..];
    TotalJoins(row[..i + 1], row[i + 1..]);
    TotalZero(row[i + 1..]);
    forall p | 0 <= p <= i ensures row[..i + 1][p] == Mul(c[k - i], t[p]) {
      MulCommutes(c[k - i], t[p]);
    }
    TotalScales(c[k - i], t, row[..i + 1]);
    MulCommutes(c[k - i], Total(t));
  }

  lemma TriangleColumn(a: Series, b: Series, c: Series, k: nat, p: nat)
    requires |a| == |b| == |c| && p <= k < |a|
    ensures Total(Column(Triangle(a, b, c, k), k + 1, p)) == Mul(a[p], Convolve(b, c)[k - p])
  {
    hide Mul, Total, Convolve, Triangle;
    var column, t := Column(Triangle(a, b, c, k), k + 1, p), Terms(b, c, k - p);
    ColumnEntries(a, b, c, k, p);
    assert column == column[..p] + column[p..];
    TotalJoins(column[..p], column[p..]);
    TotalZero(column[..p]);
    TotalScales(a[p], t, column[p..]);
  }

  lemma ColumnEntries(a: Series, b: Series, c: Series, k: nat, p: nat)
    requires |a| == |b| == |c| && p <= k < |a|
    ensures var column, t := Column(Triangle(a, b, c, k), k + 1, p), Terms(b, c, k - p);
      && |column| == k + 1 && (forall i :: 0 <= i < p ==> column[i] == 0)
      && forall j :: 0 <= j <= k - p ==> column[p..][j] == Mul(a[p], t[j])
  {
    hide Mul, Total;
    var column, t := Column(Triangle(a, b, c, k), k + 1, p), Terms(b, c, k - p);
    forall j | 0 <= j <= k - p ensures column[p..][j] == Mul(a[p], t[j]) {
      MulAssociates(a[p], b[j], c[k - p - j]);
    }
  }

  lemma ConvolveAssociates(a: Series, b: Series, c: Series)
    requires |a| == |b| == |c|
    ensures Convolve(Convolve(a, b), c) == Convolve(a, Convolve(b, c))
  {
    hide Mul;
    forall k | 0 <= k < |a| ensures Convolve(Convolve(a, b), c)[k] == Convolve(a, Convolve(b, c))[k] {
      var g := Triangle(a, b, c, k);
      TotalSwaps(g, k + 1);
      forall i | 0 <= i <= k
        ensures RowTotals(g)[i] == Terms(Convolve(a, b), c, k)[i]
        ensures ColumnTotals(g, k + 1)[i] == Terms(a, Convolve(b, c), k)[i]
      {
        TriangleRow(a, b, c, k, i);
        TriangleColumn(a, b, c, k, i);
      }
      assert RowTotals(g) == Terms(Convolve(a, b), c, k);
      assert ColumnTotals(g, k + 1) == Terms(a, Convolve(b, c), k);
    }
  }
}
