/** Integer solutions of Newton's identities for every integer matrix.

    The recurrence of `characteristic_polynomial` divides by k in round k.  Here is why that
    division is always exact: bordering a matrix M by one more row and column multiplies its
    series of coefficients by 1 - f, where f_L adds up the closed walks of length L that return
    to the new vertex for the first time.  These are integers, so all coefficients are. */
module NewtonIdentities {
  import opened Integers
  import opened Matrices
  import PS = PowerSeries

  // ---------- scalar products ----------

  ghost function Dot(v: seq<int>, w: seq<int>): int
    requires |v| == |w|
  {
    Total(Products(v, w))
  }

  ghost function Products(v: seq<int>, w: seq<int>): (t: seq<int>)
    requires |v| == |w|
    ensures |t| == |v|
  {
    seq(|v|, p requires 0 <= p < |v| => Mul(v[p], w[p]))
  }

  lemma DotCommutes(v: seq<int>, w: seq<int>)
    requires |v| == |w|
    ensures Dot(v, w) == Dot(w, v)
  {
    hide Mul;
    forall p | 0 <= p < |v| ensures Products(v, w)[p] == Products(w, v)[p] {
      MulCommutes(v[p], w[p]);
    }
    assert Products(v, w) == Products(w, v);
  }

  lemma DotSplits(v: seq<int>, w: seq<int>, m: nat)
    requires |v| == |w| == m + 1
    ensures Dot(v, w) == Dot(v[..m], w[..m]) + Mul(v[m], w[m])
  {
    hide Mul;
    assert Products(v, w)[..m] == Products(v[..m], w[..m]);
  }

  lemma DotAdds(v: seq<int>, w: seq<int>, w': seq<int>, s: seq<int>)
    requires |v| == |w| == |w'| == |s| && forall p :: 0 <= p < |v| ==> s[p] == w[p] + w'[p]
    ensures Dot(v, s) == Dot(v, w) + Dot(v, w')
  {
    hide Mul;
    forall p | 0 <= p < |v| ensures Products(v, s)[p] == Products(v, w)[p] + Products(v, w')[p] {
      MulDistributes(v[p], w[p], w'[p]);
    }
    TotalAdds(Products(v, w), Products(v, w'), Products(v, s));
  }

  /** Row p of the combination of the vectors xs with coefficients ks. */
  ghost function At(xs: Grid, ks: seq<int>, width: nat, p: nat): (t: seq<int>)
    requires |xs| == |ks| && IsRectangular(xs, width) && p < width
    ensures |t| == |ks|
  {
    seq(|ks|, i requires 0 <= i < |ks| => Mul(xs[i][p], ks[i]))
  }

  ghost function Table(v: seq<int>, xs: Grid, ks: seq<int>): (g: Grid)
    requires |xs| == |ks| && IsRectangular(xs, |v|)
    ensures |g| == |v| && IsRectangular(g, |ks|)
    ensures forall p, i :: 0 <= p < |v| && 0 <= i < |ks| ==> g[p][i] == Mul(Mul(v[p], xs[i][p]), ks[i])
  {
    seq(|v|, p requires 0 <= p < |v| => seq(|ks|, i requires 0 <= i < |ks| => Mul(Mul(v[p], xs[i][p]), ks[i])))
  }

  lemma TableRow(v: seq<int>, xs: Grid, ks: seq<int>, p: nat)
    requires |xs| == |ks| && IsRectangular(xs, |v|) && p < |v|
    ensures Total(Table(v, xs, ks)[p]) == Mul(v[p], Total(At(xs, ks, |v|, p)))
  {
    hide Mul;
    var line, row := At(xs, ks, |v|, p), Table(v, xs, ks)[p];
    forall i | 0 <= i < |ks| ensures row[i] == Mul(v[p], line[i]) {
      MulAssociates(v[p], xs[i][p], ks[i]);
    }
    TotalScales(v[p], line, row);
  }

  lemma TableColumn(v: seq<int>, xs: Grid, ks: seq<int>, i: nat)
    requires |xs| == |ks| && IsRectangular(xs, |v|) && i < |ks|
    ensures Total(Column(Table(v, xs, ks), |ks|, i)) == Mul(Dot(v, xs[i]), ks[i])
  {
    hide Mul;
    var column, line := Column(Table(v, xs, ks), |ks|, i), Products(v, xs[i]);
    forall p | 0 <= p < |v| ensures column[p] == Mul(ks[i], line[p]) {
      MulCommutes(ks[i], line[p]);
    }
    TotalScales(ks[i], line, column);
    MulCommutes(ks[i], Total(line));
  }

  /** The terms k_i (v . x_i). */
  ghost function Images(v: seq<int>, xs: Grid, ks: seq<int>): (t: seq<int>)
    requires |xs| == |ks| && IsRectangular(xs, |v|)
    ensures |t| == |ks|
  {
    seq(|ks|, i requires 0 <= i < |ks| => Mul(Dot(v, xs[i]), ks[i]))
  }

  /** v . (sum of k_i x_i) = sum of k_i (v . x_i) */
  lemma DotCombination(v: seq<int>, h: seq<int>, xs: Grid, ks: seq<int>)
    requires |v| == |h| && |xs| == |ks| && IsRectangular(xs, |v|)
    requires forall p :: 0 <= p < |v| ==> h[p] == Total(At(xs, ks, |v|, p))
    ensures Dot(v, h) == Total(Images(v, xs, ks))
  {
    var g := Table(v, xs, ks);
    assert Dot(v, h) == Total(Products(v, h));
    hide Mul, At, Table, Dot, Total;
    TotalSwaps(g, |ks|);
    forall p | 0 <= p < |v| ensures RowTotals(g)[p] == Products(v, h)[p] {
      TableRow(v, xs, ks, p);
    }
    assert RowTotals(g) == Products(v, h);
    forall i | 0 <= i < |ks| ensures ColumnTotals(g, |ks|)[i] == Images(v, xs, ks)[i] {
      TableColumn(v, xs, ks, i);
    }
    assert ColumnTotals(g, |ks|) == Images(v, xs, ks);
  }

  // ---------- products and powers ----------

  lemma ProductEntry(a: Matrix, b: Matrix, n: nat, i: nat, j: nat)
    requires IsSquare(a, n) && IsSquare(b, n) && i < n && j < n
    ensures Product(a, b, n)[i][j] == Dot(a[i], Column(b, n, j))
  {
    hide Mul;
    assert Terms(a, b, n, i, j, n) == Products(a[i], Column(b, n, j));
  }

  lemma ProductAssociates(a: Matrix, b: Matrix, c: Matrix, n: nat)
    requires IsSquare(a, n) && IsSquare(b, n) && IsSquare(c, n)
    ensures Product(Product(a, b, n), c, n) == Product(a, Product(b, c, n), n)
  {
    hide Mul, Dot;
    var ab, bc := Product(a, b, n), Product(b, c, n);
    forall i, j | 0 <= i < n && 0 <= j < n ensures Product(ab, c, n)[i][j] == Product(a, bc, n)[i][j] {
      ProductEntry(ab, c, n, i, j);
      ProductEntry(a, bc, n, i, j);
      var xs: Grid := seq(n, q requires 0 <= q < n => Column(b, n, q));
      var ks := Column(c, n, j);
      forall q | 0 <= q < n ensures Products(ab[i], ks)[q] == Images(a[i], xs, ks)[q] {
        ProductEntry(a, b, n, i, q);
      }
      assert Products(ab[i], ks) == Images(a[i], xs, ks);
      forall p | 0 <= p < n ensures Column(bc, n, j)[p] == Total(At(xs, ks, n, p)) {
        assert At(xs, ks, n, p) == Terms(b, c, n, p, j, n);
      }
      DotCombination(a[i], Column(bc, n, j), xs, ks);
      DotIsTotal(ab[i], ks);
    }
    SameMatrix(Product(ab, c, n), Product(a, bc, n), n);
  }

  lemma DotIsTotal(v: seq<int>, w: seq<int>)
    requires |v| == |w|
    ensures Dot(v, w) == Total(Products(v, w))
  {
  }

  lemma ProductIdentity(a: Matrix, n: nat)
    requires IsSquare(a, n)
    ensures Product(a, Identity(n), n) == a == Product(Identity(n), a, n)
  {
    hide Mul;
    var left, right := Product(a, Identity(n), n), Product(Identity(n), a, n);
    forall i, j | 0 <= i < n && 0 <= j < n ensures left[i][j] == a[i][j] == right[i][j] {
      var s, t := Terms(a, Identity(n), n, i, j, n), Terms(Identity(n), a, n, i, j, n);
      forall p | 0 <= p < n
        ensures s[p] == if p == j then a[i][j] else 0
        ensures t[p] == if p == i then a[i][j] else 0
      {
        MulUnits(a[i][p]);
        MulUnits(a[p][j]);
      }
      TotalPicks(s, j);
      TotalPicks(t, i);
    }
    SameMatrix(left, a, n);
    SameMatrix(right, a, n);
  }

  lemma {:induction false} PowerCommutes(a: Matrix, e: nat, n: nat)
    requires IsSquare(a, n)
    ensures Product(a, Power(a, e, n), n) == Product(Power(a, e, n), a, n)
  {
    hide Product;
    if e == 0 {
      ProductIdentity(a, n);
    } else {
      PowerCommutes(a, e - 1, n);
      ProductAssociates(a, Power(a, e - 1, n), a, n);
    }
  }

  // ---------- walks in a bordered matrix ----------

  // From here on, a is a square matrix of order m + 1 seen as the matrix `Minor` of order m
  // bordered by one new vertex, number m.

  ghost function Minor(a: Matrix, m: nat): (b: Matrix)
    requires IsSquare(a, m + 1)
    ensures IsSquare(b, m)
  {
    seq(m, i requires 0 <= i < m => a[i][..m])
  }

  /** Walks of length i + 1 to the new vertex that meet it only at their end, by starting vertex. */
  ghost function Walk(a: Matrix, m: nat, i: nat): (x: seq<int>)
    requires IsSquare(a, m + 1)
    ensures |x| == m
  {
    if i == 0 then seq(m, r requires 0 <= r < m => a[r][m])
    else
      var x := Walk(a, m, i - 1);
      seq(m, r requires 0 <= r < m => Dot(a[r][..m], x))
  }

  /** First returns of length k to the new vertex. */
  ghost function FirstReturn(a: Matrix, m: nat, k: nat): int
    requires IsSquare(a, m + 1)
  {
    if k == 0 then 0
    else if k == 1 then a[m][m]
    else Dot(a[m][..m], Walk(a, m, k - 2))
  }

  /** Closed walks of length e at the new vertex. */
  ghost function Closed(a: Matrix, m: nat, e: nat): int
    requires IsSquare(a, m + 1)
  {
    Power(a, e, m + 1)[m][m]
  }

  lemma PowerStep(a: Matrix, m: nat, e: nat, r: nat, c: nat)
    requires IsSquare(a, m + 1) && r <= m && c <= m
    ensures Power(a, e + 1, m + 1)[r][c]
         == Dot(a[r][..m], Column(Power(a, e, m + 1), m + 1, c)[..m]) + Mul(a[r][m], Power(a, e, m + 1)[m][c])
  {
    hide Mul, Dot;
    ProductEntry(a, Power(a, e, m + 1), m + 1, r, c);
    DotSplits(a[r], Column(Power(a, e, m + 1), m + 1, c), m);
  }

  ghost function Base(a: Matrix, m: nat, e: nat, r: nat, c: nat): int
    requires IsSquare(a, m + 1) && r < m && c <= m
  {
    if c < m then Power(Minor(a, m), e, m)[r][c] else 0
  }

  lemma BaseStep(a: Matrix, m: nat, e: nat, r: nat, c: nat, base: seq<int>)
    requires IsSquare(a, m + 1) && r < m && c <= m && |base| == m
    requires forall p :: 0 <= p < m ==> base[p] == Base(a, m, e, p, c)
    ensures Dot(a[r][..m], base) == Base(a, m, e + 1, r, c)
  {
    hide Mul;
    var minor := Minor(a, m);
    if c < m {
      ProductEntry(minor, Power(minor, e, m), m, r, c);
      assert base == Column(Power(minor, e, m), m, c);
    } else {
      forall p | 0 <= p < m ensures Products(a[r][..m], base)[p] == 0 {
        MulUnits(a[r][p]);
      }
      TotalZero(Products(a[r][..m], base));
    }
  }

  ghost function Walks(a: Matrix, m: nat, e: nat): (xs: Grid)
    requires IsSquare(a, m + 1)
    ensures |xs| == e && IsRectangular(xs, m)
    ensures forall i :: 0 <= i < e ==> xs[i] == Walk(a, m, i)
  {
    seq(e, i requires 0 <= i < e => Walk(a, m, i))
  }

  ghost function Tails(a: Matrix, m: nat, e: nat, c: nat): (ks: seq<int>)
    requires IsSquare(a, m + 1) && c <= m
    ensures |ks| == e
    ensures forall i :: 0 <= i < e ==> ks[i] == Power(a, e - 1 - i, m + 1)[m][c]
  {
    seq(e, i requires 0 <= i < e => Power(a, e - 1 - i, m + 1)[m][c])
  }

  /** Walks of length e from r to c that meet the new vertex, by the time of the first visit. */
  ghost function ReachTerms(a: Matrix, m: nat, e: nat, r: nat, c: nat): (t: seq<int>)
    requires IsSquare(a, m + 1) && r < m && c <= m
    ensures |t| == e
  {
    At(Walks(a, m, e), Tails(a, m, e, c), m, r)
  }

  lemma WalkStep(a: Matrix, m: nat, i: nat, r: nat)
    requires IsSquare(a, m + 1) && r < m
    ensures Walk(a, m, i + 1)[r] == Dot(a[r][..m], Walk(a, m, i))
  {
    hide Dot;
  }

  ghost predicate Reached(a: Matrix, m: nat, e: nat, r: nat, c: nat)
    requires IsSquare(a, m + 1) && r < m && c <= m
  {
    Power(a, e, m + 1)[r][c] == Base(a, m, e, r, c) + Total(ReachTerms(a, m, e, r, c))
  }

  /** A walk from r to c either avoids the new vertex or has a first visit to it. */
  lemma {:induction false} Reach(a: Matrix, m: nat, e: nat, r: nat, c: nat)
    requires IsSquare(a, m + 1) && r < m && c <= m
    ensures Reached(a, m, e, r, c)
  {
    if e > 0 {
      var d := e - 1;
      forall p: nat | p < m ensures Reached(a, m, d, p, c) {
        Reach(a, m, d, p, c);
      }
      ReachOnce(a, m, d, r, c);
    }
  }

  lemma ReachOnce(a: Matrix, m: nat, e: nat, r: nat, c: nat)
    requires IsSquare(a, m + 1) && r < m && c <= m
    requires forall p: nat :: p < m ==> Reached(a, m, e, p, c)
    ensures Reached(a, m, e + 1, r, c)
  {
    hide Mul, Dot, Power, Base, Walk, Total, ReachTerms;
    var whole := Column(Power(a, e, m + 1), m + 1, c)[..m];
    var base := seq(m, p requires 0 <= p < m => Base(a, m, e, p, c));
    var reach := seq(m, p requires 0 <= p < m => Total(ReachTerms(a, m, e, p, c)));
    forall p: nat | p < m ensures whole[p] == base[p] + reach[p] {
      assert Reached(a, m, e, p, c);
    }
    PowerStep(a, m, e, r, c);
    DotAdds(a[r][..m], base, reach, whole);
    BaseStep(a, m, e, r, c, base);
    ReachTail(a, m, e, r, c, reach);
  }

  lemma AtHead(xs: Grid, ks: seq<int>, width: nat, p: nat)
    requires |xs| == |ks| >= 1 && IsRectangular(xs, width) && p < width
    ensures Total(At(xs, ks, width, p)) == Mul(xs[0][p], ks[0]) + Total(At(xs[1..], ks[1..], width, p))
  {
    hide Mul, Total;
    var first, rest := [Mul(xs[0][p], ks[0])], At(xs[1..], ks[1..], width, p);
    assert At(xs, ks, width, p) == first + rest;
    TotalJoins(first, rest);
    TotalOne(first[0]);
  }

  lemma ReachTail(a: Matrix, m: nat, e: nat, r: nat, c: nat, reach: seq<int>)
    requires IsSquare(a, m + 1) && r < m && c <= m && |reach| == m
    requires forall p :: 0 <= p < m ==> reach[p] == Total(ReachTerms(a, m, e, p, c))
    ensures Total(ReachTerms(a, m, e + 1, r, c))
         == Mul(a[r][m], Power(a, e, m + 1)[m][c]) + Dot(a[r][..m], reach)
  {
    hide Mul, Dot, Power, Walk, Total, At, Images, Walks, Tails;
    var xs, ks := Walks(a, m, e), Tails(a, m, e, c);
    var ys, ls := Walks(a, m, e + 1), Tails(a, m, e + 1, c);
    AtHead(ys, ls, m, r);
    HeadsAndTails(a, m, e, r, c);
    SameImages(a, m, e, r, c);
    DotCombination(a[r][..m], reach, xs, ks);
  }

  lemma HeadsAndTails(a: Matrix, m: nat, e: nat, r: nat, c: nat)
    requires IsSquare(a, m + 1) && r < m && c <= m
    ensures Walks(a, m, e + 1)[0][r] == a[r][m]
    ensures Tails(a, m, e + 1, c)[0] == Power(a, e, m + 1)[m][c]
    ensures Tails(a, m, e + 1, c)[1..] == Tails(a, m, e, c)
  {
    hide Power, Mul, Dot;
    var ks, ls := Tails(a, m, e, c), Tails(a, m, e + 1, c);
    forall i: nat | i < e ensures ls[i + 1] == ks[i] {
      assert (e + 1) - 1 - (i + 1) == e - 1 - i;
    }
    assert ls[1..] == ks;
  }

  lemma SameImages(a: Matrix, m: nat, e: nat, r: nat, c: nat)
    requires IsSquare(a, m + 1) && r < m && c <= m
    ensures At(Walks(a, m, e + 1)[1..], Tails(a, m, e, c), m, r)
         == Images(a[r][..m], Walks(a, m, e), Tails(a, m, e, c))
  {
    hide Mul, Dot, Power, Walk, Total;
    var ys, ks := Walks(a, m, e + 1)[1..], Tails(a, m, e, c);
    forall i: nat | i < e ensures At(ys, ks, m, r)[i] == Images(a[r][..m], Walks(a, m, e), ks)[i] {
      WalkStep(a, m, i, r);
      assert ys[i] == Walk(a, m, i + 1);
    }
    assert At(ys, ks, m, r) == Images(a[r][..m], Walks(a, m, e), ks);
  }

  lemma TotalOne(k: int)
    ensures Total([k]) == k
  {
    assert [k][..0] == [];
  }

  // ---------- the two walk identities as series ----------

  ghost function Returns(a: Matrix, m: nat, n: nat): (f: seq<int>)
    requires IsSquare(a, m + 1)
    ensures |f| == n && forall k :: 0 <= k < n ==> f[k] == FirstReturn(a, m, k)
  {
    seq(n, k requires 0 <= k < n => FirstReturn(a, m, k))
  }

  ghost function ClosedWalks(a: Matrix, m: nat, n: nat): (u: seq<int>)
    requires IsSquare(a, m + 1)
    ensures |u| == n && forall e :: 0 <= e < n ==> u[e] == Closed(a, m, e)
  {
    seq(n, e requires 0 <= e < n => Closed(a, m, e))
  }

  /** A closed walk at the new vertex splits at its first return. */
  lemma ClosedSplits(a: Matrix, m: nat, e: nat, n: nat)
    requires IsSquare(a, m + 1) && e + 1 < n
    ensures Closed(a, m, e + 1) == Total(PS.Terms(Returns(a, m, n), ClosedWalks(a, m, n), e + 1))
  {
    hide Mul, Dot, Power, Walk;
    var reach := Column(Power(a, e, m + 1), m + 1, m)[..m];
    forall p: nat | p < m ensures reach[p] == Total(ReachTerms(a, m, e, p, m)) {
      Reach(a, m, e, p, m);
    }
    PowerStep(a, m, e, m, m);
    DotCombination(a[m][..m], reach, Walks(a, m, e), Tails(a, m, e, m));
    FirstReturnTerms(a, m, e, n);
  }

  lemma FirstReturnTerms(a: Matrix, m: nat, e: nat, n: nat)
    requires IsSquare(a, m + 1) && e + 1 < n
    ensures Total(PS.Terms(Returns(a, m, n), ClosedWalks(a, m, n), e + 1))
         == Mul(a[m][m], Closed(a, m, e)) + Total(Images(a[m][..m], Walks(a, m, e), Tails(a, m, e, m)))
  {
    hide Mul, Dot, Power, Walk, Total, Closed;
    var f, u, t := Returns(a, m, n), ClosedWalks(a, m, n), Images(a[m][..m], Walks(a, m, e), Tails(a, m, e, m));
    var whole := PS.Terms(f, u, e + 1);
    var zero, one := [whole[0]], [whole[1]];
    forall i: nat | i < e ensures whole[i + 2] == t[i] {
      ClosedIsPower(a, m, e - 1 - i);
      assert f[i + 2] == Dot(a[m][..m], Walk(a, m, i));
    }
    assert whole == zero + (one + t);
    TotalJoins(zero, one + t);
    TotalJoins(one, t);
    TotalOne(whole[0]);
    TotalOne(whole[1]);
    MulUnits(u[e + 1]);
  }

  lemma ClosedIsPower(a: Matrix, m: nat, e: nat)
    requires IsSquare(a, m + 1)
    ensures Closed(a, m, e) == Power(a, e, m + 1)[m][m]
  {
  }

  /** Walks of length l from the new vertex, continued by a first visit of length i + 1. */
  ghost function Crossing(a: Matrix, m: nat, l: nat, i: nat): int
    requires IsSquare(a, m + 1)
  {
    Dot(Power(a, l, m + 1)[m][..m], Walk(a, m, i))
  }

  lemma CrossingStep(a: Matrix, m: nat, l: nat, i: nat)
    requires IsSquare(a, m + 1)
    ensures Crossing(a, m, l + 1, i) == Crossing(a, m, l, i + 1) + Mul(Closed(a, m, l), FirstReturn(a, m, i + 2))
  {
    var n, p, q, x := m + 1, Power(a, l, m + 1), Power(a, l + 1, m + 1), Walk(a, m, i);
    assert q == Product(p, a, n) by { PowerCommutes(a, l, n); }
    var h := seq(n, s requires 0 <= s < n => Dot(a[s][..m], x));
    assert h[..m] == Walk(a, m, i + 1);
    assert h[m] == FirstReturn(a, m, i + 2);
    hide Mul, Dot, Power, Walk, FirstReturn, Product;
    RowThroughProduct(a, m, p, q, x, h);
    DotSplits(p[m], h, m);
  }

  /** (p a) x = p (a x), for the last row of p and a vector on the old vertices. */
  lemma RowThroughProduct(a: Matrix, m: nat, p: Matrix, q: Matrix, x: seq<int>, h: seq<int>)
    requires IsSquare(a, m + 1) && IsSquare(p, m + 1) && q == Product(p, a, m + 1) && |x| == m
    requires |h| == m + 1 && forall s: nat :: s <= m ==> h[s] == Dot(a[s][..m], x)
    ensures Dot(q[m][..m], x) == Dot(p[m], h)
  {
    hide Mul, Dot;
    var n, row := m + 1, q[m][..m];
    var xs: Grid := seq(m, r requires 0 <= r < m => Column(a, n, r));
    forall r: nat | r < m ensures Products(row, x)[r] == Images(p[m], xs, x)[r] {
      ProductEntry(p, a, n, m, r);
    }
    assert Products(row, x) == Images(p[m], xs, x);
    forall s: nat | s < n ensures h[s] == Total(At(xs, x, n, s)) {
      DotIsTotal(a[s][..m], x);
      assert At(xs, x, n, s) == Products(a[s][..m], x);
    }
    DotCombination(p[m], h, xs, x);
    DotIsTotal(row, x);
  }

  lemma CrossingNone(a: Matrix, m: nat, i: nat)
    requires IsSquare(a, m + 1)
    ensures Crossing(a, m, 0, i) == 0
  {
    hide Mul;
    var v, x := Power(a, 0, m + 1)[m][..m], Walk(a, m, i);
    forall p | 0 <= p < m ensures Products(v, x)[p] == 0 {
      MulUnits(x[p]);
    }
    TotalZero(Products(v, x));
  }

  ghost function Crossings(a: Matrix, m: nat, e: nat): (bs: seq<int>)
    requires IsSquare(a, m + 1)
    ensures |bs| == e && forall i :: 0 <= i < e ==> bs[i] == Crossing(a, m, e - 1 - i, i)
  {
    seq(e, i requires 0 <= i < e => Crossing(a, m, e - 1 - i, i))
  }

  /** Closed walks through the new vertex, sorted by where they start. */
  lemma TraceSplits(a: Matrix, m: nat, e: nat)
    requires IsSquare(a, m + 1)
    ensures Trace(Power(a, e, m + 1), m + 1)
         == Trace(Power(Minor(a, m), e, m), m) + Total(Crossings(a, m, e)) + Closed(a, m, e)
  {
    hide Mul, Dot, Walk, Power;
    var n, p, minor := m + 1, Power(a, e, m + 1), Power(Minor(a, m), e, m);
    var g: Grid := seq(m, r requires 0 <= r < m => ReachTerms(a, m, e, r, r));
    forall r: nat | r < m ensures Diagonal(p, n)[r] == Diagonal(minor, m)[r] + RowTotals(g)[r] {
      Reach(a, m, e, r, r);
    }
    TotalAdds(Diagonal(minor, m), RowTotals(g), Diagonal(p, n)[..m]);
    TotalSwaps(g, e);
    forall i: nat | i < e ensures ColumnTotals(g, e)[i] == Crossings(a, m, e)[i] {
      CrossingColumn(a, m, e, i, Column(g, e, i));
    }
    assert ColumnTotals(g, e) == Crossings(a, m, e);
  }

  lemma CrossingColumn(a: Matrix, m: nat, e: nat, i: nat, column: seq<int>)
    requires IsSquare(a, m + 1) && i < e && |column| == m
    requires forall r: nat :: r < m ==> column[r] == ReachTerms(a, m, e, r, r)[i]
    ensures Total(column) == Crossing(a, m, e - 1 - i, i)
  {
    hide Mul, Walk, Power;
    var v, x := Power(a, e - 1 - i, m + 1)[m][..m], Walk(a, m, i);
    DotCommutes(x, v);
    assert column == Products(x, v);
  }

  /** Abel summation of the crossings against first returns. */
  lemma {:induction false} CrossingsWeigh(bs: seq<int>, gs: seq<int>, ws: seq<int>, j: nat)
    requires 1 <= j <= |bs| && |gs| == |ws| == |bs| + 1
    requires gs[0] == 0 && (forall k: nat :: k < |ws| ==> ws[k] == Mul(k, gs[k]))
    requires forall i: nat :: i + 1 < |bs| ==> bs[i] == bs[i + 1] + gs[i + 2]
    ensures Total(bs[..j]) + Total(gs[..j + 1]) == Total(ws[..j + 1]) + Mul(j, bs[j - 1])
  {
    hide Mul;
    assert bs[..j][..j - 1] == bs[..j - 1];
    assert gs[..j + 1][..j] == gs[..j] && ws[..j + 1][..j] == ws[..j];
    if j == 1 {
      MulUnits(gs[1]);
      MulUnits(bs[0]);
      MulUnits(gs[0]);
      assert gs[..1] == [gs[0]] && ws[..1] == [ws[0]] && bs[..1] == [bs[0]];
      TotalOne(gs[0]);
      TotalOne(ws[0]);
      TotalOne(bs[0]);
    } else {
      CrossingsWeigh(bs, gs, ws, j - 1);
      assert bs[j - 2] == bs[j - 1] + gs[j];
      AbelStep(j, bs[j - 1], gs[j]);
    }
  }

  lemma AbelStep(j: nat, b: int, g: int)
    ensures Mul(j - 1, b + g) + b + g == Mul(j, g) + Mul(j, b)
  {
  }

  ghost function PowerSums(a: Matrix, k: nat, n: nat): (p: seq<int>)
    requires IsSquare(a, k)
    ensures |p| == n && forall e :: 0 < e < n ==> p[e] == Trace(Power(a, e, k), k)
  {
    seq(n, e requires 0 <= e < n => if e == 0 then 0 else Trace(Power(a, e, k), k))
  }

  /** The traces that a border adds are the weighted first returns times the closed walks. */
  lemma BorderTraces(a: Matrix, m: nat, n: nat)
    requires IsSquare(a, m + 1) && n >= 1
    ensures PowerSums(a, m + 1, n)
         == PS.Add(PowerSums(Minor(a, m), m, n), PS.Convolve(PS.Theta(Returns(a, m, n)), ClosedWalks(a, m, n)))
  {
    hide Mul, Power, Trace, Minor, Crossing, Closed, FirstReturn;
    var f, u := Returns(a, m, n), ClosedWalks(a, m, n);
    var theta := PS.Theta(f);
    forall e: nat | e < n
      ensures PowerSums(a, m + 1, n)[e] == PowerSums(Minor(a, m), m, n)[e] + PS.Convolve(theta, u)[e]
    {
      var ws := PS.Terms(theta, u, e);
      if e == 0 {
        FirstReturnZero(a, m);
        assert ws == [Mul(Mul(0, f[0]), u[0])];
        MulUnits(0);
        MulUnits(u[0]);
        TotalOne(ws[0]);
      } else {
        BorderTrace(a, m, n, e);
      }
    }
    assert PowerSums(a, m + 1, n) == PS.Add(PowerSums(Minor(a, m), m, n), PS.Convolve(theta, u));
  }

  lemma ClosedZero(a: Matrix, m: nat)
    requires IsSquare(a, m + 1)
    ensures Closed(a, m, 0) == 1
  {
  }

  lemma FirstReturnZero(a: Matrix, m: nat)
    requires IsSquare(a, m + 1)
    ensures FirstReturn(a, m, 0) == 0
  {
  }

  lemma BorderTrace(a: Matrix, m: nat, n: nat, e: nat)
    requires IsSquare(a, m + 1) && 1 <= e < n
    ensures Trace(Power(a, e, m + 1), m + 1) == Trace(Power(Minor(a, m), e, m), m)
         + Total(PS.Terms(PS.Theta(Returns(a, m, n)), ClosedWalks(a, m, n), e))
  {
    hide Mul, Power, Trace, Minor, Crossing, Closed, FirstReturn;
    var f, u := Returns(a, m, n), ClosedWalks(a, m, n);
    var bs, gs, ws := Crossings(a, m, e), PS.Terms(f, u, e), PS.Terms(PS.Theta(f), u, e);
    forall k: nat | k <= e ensures ws[k] == Mul(k, gs[k]) {
      MulAssociates(k, f[k], u[e - k]);
    }
    FirstReturnZero(a, m);
    MulUnits(u[e]);
    forall i: nat | i + 1 < e ensures bs[i] == bs[i + 1] + gs[i + 2] {
      CrossingStep(a, m, e - 2 - i, i);
      MulCommutes(f[i + 2], u[e - 2 - i]);
    }
    CrossingsWeigh(bs, gs, ws, e);
    CrossingNone(a, m, e - 1);
    MulUnits(e);
    assert bs[..e] == bs && gs[..e + 1] == gs && ws[..e + 1] == ws;
    TraceSplits(a, m, e);
    ClosedSplits(a, m, e - 1, n);
  }

  // ---------- Newton's identities ----------

  /** k*c_k = -(c_0 p_k + ... + c_(k-1) p_1) for all k, written as one identity of series. */
  ghost predicate SolvesNewton(c: seq<int>, p: seq<int>) {
    |c| == |p| >= 1 && c[0] == 1 && PS.Theta(c) == PS.Negate(PS.Convolve(c, p))
  }

  /** Multiplying by the series of a border carries the identities over to the larger matrix. */
  lemma BorderKeepsNewton(f: seq<int>, u: seq<int>, c: seq<int>, p: seq<int>, q: seq<int>) returns (d: seq<int>)
    requires |f| == |u| == |p| == |q| && SolvesNewton(c, p)
    requires f[0] == 0
    requires u == PS.Add(PS.Delta(|f|), PS.Convolve(f, u))
    requires q == PS.Add(p, PS.Convolve(PS.Theta(f), u))
    ensures SolvesNewton(d, q) && d == PS.Convolve(PS.Add(PS.Delta(|f|), PS.Negate(f)), c)
  {
    hide PS.Convolve, PS.Theta, Mul;
    var n := |f|;
    var s := PS.Add(PS.Delta(n), PS.Negate(f));
    d := PS.Convolve(s, c);
    var t := PS.Convolve(PS.Theta(f), u);
    BorderInverse(f, u, s);
    BorderDerivative(f, s);
    // s*t = s*(Theta(f)*u) = Theta(f)*(s*u) = Theta(f)
    var theta := PS.Theta(f);
    PS.ConvolveAssociates(s, theta, u);
    PS.ConvolveCommutes(s, theta);
    PS.ConvolveAssociates(theta, s, u);
    PS.ConvolveDelta(theta);
    assert PS.Convolve(s, t) == theta;
    // Theta(s*c) = Theta(s)*c + s*Theta(c) = -(s*t)*c - s*(c*p) = -(s*c)*(t + p)
    PS.ThetaConvolve(s, c);
    PS.ConvolveNegates(s, PS.Convolve(c, p));
    PS.ConvolveAssociates(s, c, p);
    PS.ConvolveCommutes(PS.Negate(theta), c);
    PS.ConvolveNegates(c, theta);
    PS.ConvolveCommutes(c, theta);
    PS.ConvolveAssociates(s, t, c);
    PS.ConvolveCommutes(t, c);
    PS.ConvolveAssociates(s, c, t);
    PS.ConvolveAdds(d, p, t);
    assert PS.Theta(d) == PS.Add(PS.Negate(PS.Convolve(d, t)), PS.Negate(PS.Convolve(d, p)));
    assert PS.Theta(d) == PS.Negate(PS.Convolve(d, q));
    ConstantTerm(s, c);
  }

  lemma ConstantTerm(s: seq<int>, c: seq<int>)
    requires |s| == |c| >= 1 && s[0] == 1
    ensures PS.Convolve(s, c)[0] == c[0]
  {
    hide Mul;
    MulUnits(c[0]);
    assert PS.Terms(s, c, 0) == [c[0]];
    TotalOne(c[0]);
  }

  lemma BorderInverse(f: seq<int>, u: seq<int>, s: seq<int>)
    requires |f| == |u| >= 1 && u == PS.Add(PS.Delta(|f|), PS.Convolve(f, u))
    requires s == PS.Add(PS.Delta(|f|), PS.Negate(f))
    ensures PS.Convolve(s, u) == PS.Delta(|f|)
  {
    hide PS.Convolve;
    PS.ConvolveCommutes(s, u);
    PS.ConvolveAdds(u, PS.Delta(|f|), PS.Negate(f));
    PS.ConvolveDelta(u);
    PS.ConvolveNegates(u, f);
    PS.ConvolveCommutes(u, f);
    assert PS.Convolve(s, u) == PS.Delta(|f|);
  }

  lemma BorderDerivative(f: seq<int>, s: seq<int>)
    requires |f| >= 1 && s == PS.Add(PS.Delta(|f|), PS.Negate(f))
    ensures PS.Theta(s) == PS.Negate(PS.Theta(f))
  {
    hide Mul;
    forall i: nat | i < |f| ensures PS.Theta(s)[i] == -PS.Theta(f)[i] {
      MulUnits(s[i]);
      MulUnits(f[i]);
      PS.MulMinus(i, f[i]);
    }
    assert PS.Theta(s) == PS.Negate(PS.Theta(f));
  }

  /** Every integer matrix has integer coefficients that solve Newton's identities. */
  lemma {:induction false} IntegerSolution(a: Matrix, k: nat, n: nat) returns (c: seq<int>)
    requires IsSquare(a, k) && n >= 1
    ensures SolvesNewton(c, PowerSums(a, k, n))
    decreases k
  {
    if k == 0 {
      c := PS.Delta(n);
      hide Mul;
      forall e: nat | e < n
        ensures PS.Theta(c)[e] == 0 == PS.Convolve(c, PowerSums(a, 0, n))[e]
      {
        MulUnits(e);
        forall i: nat | i <= e ensures PS.Terms(c, PowerSums(a, 0, n), e)[i] == 0 {
          MulUnits(c[i]);
        }
        TotalZero(PS.Terms(c, PowerSums(a, 0, n), e));
      }
      assert PS.Theta(c) == PS.Negate(PS.Convolve(c, PowerSums(a, 0, n)));
    } else {
      var m := k - 1;
      var b := IntegerSolution(Minor(a, m), m, n);
      var f, u := Returns(a, m, n), ClosedWalks(a, m, n);
      hide Mul, PS.Convolve, PS.Theta, PowerSums, SolvesNewton;
      FirstReturnZero(a, m);
      ClosedWalksSolve(a, m, n);
      BorderTraces(a, m, n);
      c := BorderKeepsNewton(f, u, b, PowerSums(Minor(a, m), m, n), PowerSums(a, k, n));
    }
  }

  lemma ClosedWalksSolve(a: Matrix, m: nat, n: nat)
    requires IsSquare(a, m + 1) && n >= 1
    ensures var f, u := Returns(a, m, n), ClosedWalks(a, m, n);
      u == PS.Add(PS.Delta(n), PS.Convolve(f, u))
  {
    hide Mul, Closed, FirstReturn, Power;
    var f, u := Returns(a, m, n), ClosedWalks(a, m, n);
    FirstReturnZero(a, m);
    ClosedZero(a, m);
    forall e: nat | e < n ensures u[e] == PS.Delta(n)[e] + PS.Convolve(f, u)[e] {
      if e == 0 {
        MulUnits(u[0]);
        assert PS.Terms(f, u, 0) == [Mul(f[0], u[0])];
        TotalOne(0);
      } else {
        ClosedSplits(a, m, e - 1, n);
      }
    }
    assert u == PS.Add(PS.Delta(n), PS.Convolve(f, u));
  }
}
