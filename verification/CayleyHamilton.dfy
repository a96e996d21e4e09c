/** A symmetric integer matrix is a root of its own characteristic polynomial, so every real eigenvalue
    is a root of the polynomial that `characteristic_polynomial` returns.

    Newton's identities hold beyond the order of the matrix, with all further coefficients zero.
    They say that the trace of a^e p(a) is zero for every e, hence the trace of p(a) p(a), which
    for a symmetric matrix is the sum of the squares of all entries of p(a). */
module CayleyHamilton {
  import opened Integers
  import opened Matrices
  import opened NewtonIdentities
  import opened FaddeevLeVerrier
  import PS = PowerSeries

  ghost predicate IsSymmetric(a: Matrix, n: nat)
    requires IsSquare(a, n)
  {
    forall i, j :: 0 <= i < n && 0 <= j < n ==> a[i][j] == a[j][i]
  }

  /** The value of the polynomial with coefficients c at the matrix. */
  ghost function AtMatrix(a: Matrix, n: nat, c: seq<int>): (m: Matrix)
    requires IsSquare(a, n) && |c| >= n + 1
    ensures IsSquare(m, n)
  {
    Partial(a, n, c, n, n + 1)
  }

  // ---------- powers of the matrix times its polynomial ----------

  lemma {:induction false} PartialTimesPower(a: Matrix, n: nat, c: seq<int>, k: nat, j: nat, e: nat)
    requires IsSquare(a, n) && j <= |c| && j <= k + 1
    ensures Product(Power(a, e, n), Partial(a, n, c, k, j), n) == Partial(a, n, c, k + e, j)
  {
    hide Product, Partial;
    if e == 0 {
      ProductIdentity(Partial(a, n, c, k, j), n);
    } else {
      PartialTimesPower(a, n, c, k, j, e - 1);
      ProductAssociates(a, Power(a, e - 1, n), Partial(a, n, c, k, j), n);
      PartialShifts(a, n, c, k + e - 1, j);
    }
  }

  /** Entry sums of one row of the polynomial against a vector. */
  ghost function RowTerms(a: Matrix, n: nat, c: seq<int>, k: nat, j: nat, p: nat, v: seq<int>): (t: seq<int>)
    requires IsSquare(a, n) && j <= |c| && j <= k + 1 && p < n && |v| == n
    ensures |t| == j
  {
    seq(j, i requires 0 <= i < j => Mul(c[i], Dot(Power(a, k - i, n)[p], v)))
  }

  lemma DotScaled(x: seq<int>, y: seq<int>, z: seq<int>, k: int, v: seq<int>)
    requires |x| == |y| == |z| == |v| && forall i :: 0 <= i < |v| ==> z[i] == x[i] + Mul(k, y[i])
    ensures Dot(z, v) == Dot(x, v) + Mul(k, Dot(y, v))
  {
    hide Mul;
    var scaled := seq(|v|, i requires 0 <= i < |v| => Mul(k, Products(y, v)[i]));
    forall i | 0 <= i < |v| ensures Products(z, v)[i] == Products(x, v)[i] + scaled[i] {
      MulDistributes(v[i], x[i], Mul(k, y[i]));
      MulAssociates(k, y[i], v[i]);
    }
    TotalScales(k, Products(y, v), scaled);
    TotalAdds(Products(x, v), scaled, Products(z, v));
  }

  lemma ZeroDot(v: seq<int>, w: seq<int>)
    requires |v| == |w| && forall i :: 0 <= i < |v| ==> v[i] == 0
    ensures Dot(v, w) == 0
  {
    hide Mul;
    forall i | 0 <= i < |v| ensures Products(v, w)[i] == 0 {
      MulUnits(w[i]);
    }
    TotalZero(Products(v, w));
  }

  lemma {:induction false} PartialRow(a: Matrix, n: nat, c: seq<int>, k: nat, j: nat, p: nat, v: seq<int>)
    requires IsSquare(a, n) && j <= |c| && j <= k + 1 && p < n && |v| == n
    ensures Dot(Partial(a, n, c, k, j)[p], v) == Total(RowTerms(a, n, c, k, j, p, v))
  {
    hide Mul, Power, Dot, Total;
    if j == 0 {
      ZeroDot(Zero(n)[p], v);
      TotalZero(RowTerms(a, n, c, k, 0, p, v));
    } else {
      PartialRow(a, n, c, k, j - 1, p, v);
      DotScaled(Partial(a, n, c, k, j - 1)[p], Power(a, k - (j - 1), n)[p], Partial(a, n, c, k, j)[p], c[j - 1], v);
      var t := RowTerms(a, n, c, k, j, p, v);
      assert t[..j - 1] == RowTerms(a, n, c, k, j - 1, p, v);
      TotalLast(t);
    }
  }

  // ---------- the coefficients beyond the order ----------

  ghost predicate IsWalked(a: Matrix, m: nat, i: nat, r: nat)
    requires IsSquare(a, m + 1) && r < m
  {
    Walk(a, m, i)[r] == Dot(Power(Minor(a, m), i, m)[r], Walk(a, m, 0))
  }

  /** A walk that ends at the new vertex is a walk among the old ones and a last step. */
  lemma {:induction false} WalkIsPower(a: Matrix, m: nat, i: nat, r: nat)
    requires IsSquare(a, m + 1) && r < m
    ensures IsWalked(a, m, i, r)
  {
    hide IsWalked;
    if i == 0 {
      FirstWalk(a, m, r);
    } else {
      var d := i - 1;
      forall p: nat | p < m ensures IsWalked(a, m, d, p) {
        WalkIsPower(a, m, d, p);
      }
      WalkOnce(a, m, d, r);
    }
  }

  lemma FirstWalk(a: Matrix, m: nat, r: nat)
    requires IsSquare(a, m + 1) && r < m
    ensures IsWalked(a, m, 0, r)
  {
    hide Mul, Dot, Walk;
    UnitDot(m, r, Walk(a, m, 0));
  }

  lemma WalkOnce(a: Matrix, m: nat, i: nat, r: nat)
    requires IsSquare(a, m + 1) && r < m && forall p: nat :: p < m ==> IsWalked(a, m, i, p)
    ensures IsWalked(a, m, i + 1, r)
  {
    hide Mul, Dot, Walk, Power;
    var minor, v := Minor(a, m), Walk(a, m, 0);
    forall p: nat | p < m ensures Walk(a, m, i)[p] == Dot(Power(minor, i, m)[p], v) {
      assert IsWalked(a, m, i, p);
    }
    WalkStep(a, m, i, r);
    PowerRow(minor, m, i, r, v, Walk(a, m, i));
  }

  lemma UnitDot(m: nat, r: nat, v: seq<int>)
    requires r < m && |v| == m
    ensures Dot(Identity(m)[r], v) == v[r]
  {
    hide Mul;
    var t := Products(Identity(m)[r], v);
    forall p | 0 <= p < m ensures t[p] == if p == r then v[r] else 0 {
      MulUnits(v[p]);
    }
    TotalPicks(t, r);
  }

  /** (a^(e+1) v)[r] = a[r] . (a^e v) */
  lemma PowerRow(a: Matrix, m: nat, e: nat, r: nat, v: seq<int>, w: seq<int>)
    requires IsSquare(a, m) && r < m && |v| == |w| == m
    requires forall p: nat :: p < m ==> w[p] == Dot(Power(a, e, m)[p], v)
    ensures Dot(Power(a, e + 1, m)[r], v) == Dot(a[r], w)
  {
    var b := Power(a, e, m);
    var row := Power(a, e + 1, m)[r];
    var xs: Grid := seq(m, q requires 0 <= q < m => Column(b, m, q));
    hide Mul, Dot, Power;
    assert Power(a, e + 1, m) == Product(a, b, m) by { PowerUnfolds(a, m, e); }
    forall q: nat | q < m ensures Products(row, v)[q] == Images(a[r], xs, v)[q] {
      ProductEntry(a, b, m, r, q);
    }
    assert Products(row, v) == Images(a[r], xs, v);
    forall p: nat | p < m ensures w[p] == Total(At(xs, v, m, p)) {
      DotIsTotal(b[p], v);
      assert At(xs, v, m, p) == Products(b[p], v);
    }
    DotCombination(a[r], w, xs, v);
    DotIsTotal(row, v);
  }

  lemma PowerUnfolds(a: Matrix, m: nat, e: nat)
    requires IsSquare(a, m)
    ensures Power(a, e + 1, m) == Product(a, Power(a, e, m), m)
  {
  }

  /** The terms of b_0 w_e + ... + b_m w_(e-m) at row p, for the walks w to the new vertex. */
  ghost function WalkTerms(a: Matrix, m: nat, b: seq<int>, e: nat, p: nat): (t: seq<int>)
    requires IsSquare(a, m + 1) && |b| >= m + 1 && e >= m && p < m
    ensures |t| == m + 1
  {
    seq(m + 1, i requires 0 <= i <= m => Mul(b[i], Walk(a, m, e - i)[p]))
  }

  /** A polynomial that the matrix is a root of leaves nothing of any row of a longer power. */
  lemma RowsCancel(a: Matrix, n: nat, c: seq<int>, k: nat, p: nat, v: seq<int>)
    requires IsSquare(a, n) && |c| >= n + 1 && k >= n && p < n && |v| == n && AtMatrix(a, n, c) == Zero(n)
    ensures Total(RowTerms(a, n, c, k, n + 1, p, v)) == 0
  {
    hide Mul, Dot, Power, Total, Partial, RowTerms, AtMatrix;
    LongPartial(a, n, c, k);
    PartialRow(a, n, c, k, n + 1, p, v);
    ZeroDot(Zero(n)[p], v);
  }

  /** Long walks to the new vertex, weighed with the coefficients of a polynomial that the minor
      is a root of, cancel out. */
  lemma WalksCancel(a: Matrix, m: nat, b: seq<int>, e: nat, p: nat)
    requires IsSquare(a, m + 1) && |b| >= m + 1 && e >= m && p < m
    requires AtMatrix(Minor(a, m), m, b) == Zero(m)
    ensures Total(WalkTerms(a, m, b, e, p)) == 0
  {
    hide Walk, Total, Minor, WalkTerms, RowTerms, AtMatrix;
    RowsCancel(Minor(a, m), m, b, e, p, Walk(a, m, 0));
    SameWalkTerms(a, m, b, e, p);
  }

  lemma LongPartial(a: Matrix, n: nat, c: seq<int>, k: nat)
    requires IsSquare(a, n) && |c| >= n + 1 && k >= n && AtMatrix(a, n, c) == Zero(n)
    ensures Partial(a, n, c, k, n + 1) == Zero(n)
  {
    hide Power, Partial, Product;
    PartialTimesPower(a, n, c, n, n + 1, k - n);
    ProductZero(Power(a, k - n, n), n);
  }

  lemma SameWalkTerms(a: Matrix, m: nat, b: seq<int>, e: nat, p: nat)
    requires IsSquare(a, m + 1) && |b| >= m + 1 && e >= m && p < m
    ensures WalkTerms(a, m, b, e, p) == RowTerms(Minor(a, m), m, b, e, m + 1, p, Walk(a, m, 0))
  {
    hide Mul, Dot, Power, Walk, Minor;
    var t, r := WalkTerms(a, m, b, e, p), RowTerms(Minor(a, m), m, b, e, m + 1, p, Walk(a, m, 0));
    forall i: nat | i <= m ensures t[i] == r[i] {
      WalkIsPower(a, m, e - i, p);
    }
    assert t == r;
  }

  /** The terms of b_0 f_k + ... + b_m f_(k-m). */
  ghost function ReturnTerms(a: Matrix, m: nat, b: seq<int>, k: nat): (t: seq<int>)
    requires IsSquare(a, m + 1) && |b| >= m + 1 && k >= m
    ensures |t| == m + 1
  {
    seq(m + 1, i requires 0 <= i <= m => Mul(b[i], FirstReturn(a, m, k - i)))
  }

  lemma ReturnsCancel(a: Matrix, m: nat, b: seq<int>, k: nat)
    requires IsSquare(a, m + 1) && |b| >= m + 1 && k >= m + 2
    requires AtMatrix(Minor(a, m), m, b) == Zero(m)
    ensures Total(ReturnTerms(a, m, b, k)) == 0
  {
    hide Mul, Dot, Walk, AtMatrix, Total;
    var v, ks := a[m][..m], b[..m + 1];
    var xs: Grid := seq(m + 1, i requires 0 <= i <= m => Walk(a, m, k - 2 - i));
    var h := seq(m, _ => 0);
    forall p: nat | p < m ensures h[p] == Total(At(xs, ks, m, p)) {
      WalksCancel(a, m, b, k - 2, p);
      var t := WalkTerms(a, m, b, k - 2, p);
      forall i: nat | i <= m ensures At(xs, ks, m, p)[i] == t[i] {
        MulCommutes(xs[i][p], ks[i]);
      }
      assert At(xs, ks, m, p) == t;
    }
    DotCombination(v, h, xs, ks);
    DotCommutes(v, h);
    ZeroDot(h, v);
    forall i: nat | i <= m ensures ReturnTerms(a, m, b, k)[i] == Images(v, xs, ks)[i] {
      MulCommutes(b[i], Dot(v, xs[i]));
    }
    assert ReturnTerms(a, m, b, k) == Images(v, xs, ks);
  }

  /** Nothing from index `from` on. */
  ghost predicate EndsBefore(c: seq<int>, from: nat) {
    forall k :: from <= k < |c| ==> c[k] == 0
  }

  lemma TotalHead(t: seq<int>, j: nat)
    requires j <= |t| && forall i :: j <= i < |t| ==> t[i] == 0
    ensures Total(t) == Total(t[..j])
  {
    assert t == t[..j] + t[j..];
    TotalJoins(t[..j], t[j..]);
    TotalZero(t[j..]);
  }

  lemma BorderTerm(a: Matrix, m: nat, b: seq<int>, k: nat)
    requires IsSquare(a, m + 1) && |b| > k >= m + 2 && EndsBefore(b, m + 1)
    requires AtMatrix(Minor(a, m), m, b) == Zero(m)
    ensures PS.Convolve(PS.Add(PS.Delta(|b|), PS.Negate(Returns(a, m, |b|))), b)[k] == 0
  {
    hide Mul, FirstReturn, AtMatrix, Total;
    var f := Returns(a, m, |b|);
    var s := PS.Add(PS.Delta(|b|), PS.Negate(f));
    PS.ConvolveCommutes(s, b);
    var t, r := PS.Terms(b, s, k), ReturnTerms(a, m, b, k);
    forall i: nat | i <= k ensures t[i] == if i <= m then Mul(-1, r[i]) else 0 {
      if i <= m {
        PS.MulMinus(b[i], f[k - i]);
      } else {
        MulUnits(s[k - i]);
      }
    }
    TotalHead(t, m + 1);
    TotalScales(-1, r, t[..m + 1]);
    ReturnsCancel(a, m, b, k);
    MulUnits(-1);
  }

  // ---------- the trace of the polynomial times a power ----------

  lemma IdentityTrace(n: nat)
    ensures Trace(Identity(n), n) == n
  {
    OnesTotal(Diagonal(Identity(n), n));
  }

  lemma {:induction false} OnesTotal(t: seq<int>)
    requires forall i :: 0 <= i < |t| ==> t[i] == 1
    ensures Total(t) == |t|
  {
    if t != [] {
      OnesTotal(t[..|t| - 1]);
    }
  }

  /** tr(a^e p(a)) = 0 */
  lemma TraceVanishes(a: Matrix, n: nat, c: seq<int>, e: nat)
    requires IsSquare(a, n) && n >= 1 && |c| > n + e && SolvesNewton(c, PowerSums(a, n, |c|)) && EndsBefore(c, n + 1)
    ensures Trace(Partial(a, n, c, n + e, n + 1), n) == 0
  {
    hide Mul, Power, Trace, Total, SolvesNewton;
    if e == 0 {
      TraceIsNewton(a, n, c, n);
      TraceIsLinear(Partial(a, n, c, n, n), c[n], Power(a, 0, n), n);
      PowerZero(a, n);
      IdentityTrace(n);
      MulCommutes(c[n], n);
    } else {
      hide Partial;
      PartialTrace(a, n, c, n + e, n + 1);
      NewtonBeyond(a, n, c, e);
    }
  }

  lemma NewtonBeyond(a: Matrix, n: nat, c: seq<int>, e: nat)
    requires IsSquare(a, n) && e >= 1 && |c| > n + e && SolvesNewton(c, PowerSums(a, n, |c|)) && EndsBefore(c, n + 1)
    ensures Total(TraceTerms(a, n, c, n + e, n + 1)) == 0
  {
    hide Mul, Power, Trace, Total, SolvesNewton;
    var p, k := PowerSums(a, n, |c|), n + e;
    NewtonAt(c, p, k);
    MulUnits(k);
    var t := PS.Terms(c, p, k);
    forall i: nat | n < i <= k ensures t[i] == 0 {
      MulUnits(p[k - i]);
    }
    TotalHead(t, n + 1);
    forall i: nat | i <= n ensures t[i] == TraceTerms(a, n, c, k, n + 1)[i] {
      assert p[k - i] == Trace(Power(a, k - i, n), n);
    }
    assert t[..n + 1] == TraceTerms(a, n, c, k, n + 1);
  }

  lemma TraceCommutes(x: Matrix, y: Matrix, n: nat)
    requires IsSquare(x, n) && IsSquare(y, n)
    ensures Trace(Product(x, y, n), n) == Trace(Product(y, x, n), n)
  {
    hide Mul, Total;
    var g: Grid := seq(n, i requires 0 <= i < n => Matrices.Terms(x, y, n, i, i, n));
    TotalSwaps(g, n);
    assert RowTotals(g) == Diagonal(Product(x, y, n), n);
    forall p | 0 <= p < n ensures ColumnTotals(g, n)[p] == Diagonal(Product(y, x, n), n)[p] {
      var column, line := Column(g, n, p), Matrices.Terms(y, x, n, p, p, n);
      forall i | 0 <= i < n ensures column[i] == line[i] {
        MulCommutes(x[i][p], y[p][i]);
      }
      assert column == line;
    }
    assert ColumnTotals(g, n) == Diagonal(Product(y, x, n), n);
  }

  /** tr(p q) = 0 if tr(p a^e) = 0 for all powers in q. */
  lemma {:induction false} TraceOfProduct(a: Matrix, n: nat, c: seq<int>, k: nat, j: nat, p: Matrix)
    requires IsSquare(a, n) && IsSquare(p, n) && j <= |c| && j <= k + 1
    requires forall e: nat :: e <= k ==> Trace(Product(p, Power(a, e, n), n), n) == 0
    ensures Trace(Product(p, Partial(a, n, c, k, j), n), n) == 0
  {
    hide Mul, Power, Trace, Product;
    if j == 0 {
      ProductZero(p, n);
      ZeroTrace(n);
    } else {
      TraceOfProduct(a, n, c, k, j - 1, p);
      var before, power := Partial(a, n, c, k, j - 1), Power(a, k - (j - 1), n);
      ProductIsLinear(p, before, c[j - 1], power, n);
      TraceIsLinear(Product(p, before, n), c[j - 1], Product(p, power, n), n);
      MulUnits(c[j - 1]);
    }
  }

  /** tr(p(a) p(a)) = 0 */
  lemma SquareTrace(a: Matrix, n: nat, c: seq<int>)
    requires IsSquare(a, n) && n >= 1 && |c| > 2 * n && SolvesNewton(c, PowerSums(a, n, |c|)) && EndsBefore(c, n + 1)
    ensures var p := AtMatrix(a, n, c);
      Trace(Product(p, p, n), n) == 0
  {
    hide Mul, Power, Trace, Product, Partial, SolvesNewton, EndsBefore;
    var p := AtMatrix(a, n, c);
    forall e: nat | e <= n ensures Trace(Product(p, Power(a, e, n), n), n) == 0 {
      TraceCommutes(p, Power(a, e, n), n);
      PartialTimesPower(a, n, c, n, n + 1, e);
      TraceVanishes(a, n, c, e);
    }
    TraceOfProduct(a, n, c, n, n + 1, p);
  }

  // ---------- symmetric matrices ----------

  lemma ProductTransposed(x: Matrix, y: Matrix, n: nat, i: nat, j: nat)
    requires IsSquare(x, n) && IsSquare(y, n) && IsSymmetric(x, n) && IsSymmetric(y, n) && i < n && j < n
    ensures Product(x, y, n)[i][j] == Product(y, x, n)[j][i]
  {
    hide Mul;
    var s, t := Matrices.Terms(x, y, n, i, j, n), Matrices.Terms(y, x, n, j, i, n);
    forall p | 0 <= p < n ensures s[p] == t[p] {
      MulCommutes(x[i][p], y[p][j]);
    }
    assert s == t;
  }

  lemma {:induction false} PowerIsSymmetric(a: Matrix, e: nat, n: nat)
    requires IsSquare(a, n) && IsSymmetric(a, n)
    ensures IsSymmetric(Power(a, e, n), n)
  {
    if e > 0 {
      PowerIsSymmetric(a, e - 1, n);
      PowerCommutes(a, e - 1, n);
      PowerUnfolds(a, n, e - 1);
      hide Power;
      CommutingProduct(a, Power(a, e - 1, n), n);
    }
  }

  lemma CommutingProduct(x: Matrix, y: Matrix, n: nat)
    requires IsSquare(x, n) && IsSquare(y, n) && IsSymmetric(x, n) && IsSymmetric(y, n)
    requires Product(x, y, n) == Product(y, x, n)
    ensures IsSymmetric(Product(x, y, n), n)
  {
    var z := Product(x, y, n);
    hide Product, IsSymmetric;
    forall i, j | 0 <= i < n && 0 <= j < n ensures z[i][j] == z[j][i] {
      ProductTransposed(x, y, n, i, j);
    }
    SymmetricByEntries(z, n);
  }

  lemma SymmetricByEntries(a: Matrix, n: nat)
    requires IsSquare(a, n) && forall i, j :: 0 <= i < n && 0 <= j < n ==> a[i][j] == a[j][i]
    ensures IsSymmetric(a, n)
  {
  }

  lemma {:induction false} PartialIsSymmetric(a: Matrix, n: nat, c: seq<int>, k: nat, j: nat)
    requires IsSquare(a, n) && IsSymmetric(a, n) && j <= |c| && j <= k + 1
    ensures IsSymmetric(Partial(a, n, c, k, j), n)
  {
    hide Mul, Power;
    if j > 0 {
      PartialIsSymmetric(a, n, c, k, j - 1);
      PowerIsSymmetric(a, k - (j - 1), n);
    }
  }

  lemma {:induction false} ZeroSum(t: seq<int>)
    requires forall i :: 0 <= i < |t| ==> t[i] >= 0
    ensures Total(t) >= 0
    ensures Total(t) == 0 ==> forall i :: 0 <= i < |t| ==> t[i] == 0
  {
    if t != [] {
      ZeroSum(t[..|t| - 1]);
    }
  }

  lemma SquareIsNatural(k: int)
    ensures Mul(k, k) >= 0 && (Mul(k, k) == 0 ==> k == 0)
  {
  }

  /** A diagonal entry of the square is the sum of the squares of a row. */
  lemma RowSquares(p: Matrix, n: nat, i: nat)
    requires IsSquare(p, n) && IsSymmetric(p, n) && i < n
    ensures Product(p, p, n)[i][i] >= 0
    ensures Product(p, p, n)[i][i] == 0 ==> forall j :: 0 <= j < n ==> p[i][j] == 0
  {
    hide Mul;
    var t := Matrices.Terms(p, p, n, i, i, n);
    forall j | 0 <= j < n ensures t[j] >= 0 && (t[j] == 0 ==> p[i][j] == 0) {
      SquareIsNatural(p[i][j]);
    }
    ZeroSum(t);
  }

  /** A symmetric matrix whose square has trace zero is zero. */
  lemma ZeroSquareTrace(p: Matrix, n: nat)
    requires IsSquare(p, n) && IsSymmetric(p, n) && Trace(Product(p, p, n), n) == 0
    ensures p == Zero(n)
  {
    var d := Diagonal(Product(p, p, n), n);
    hide Product, IsSymmetric;
    forall i | 0 <= i < n ensures d[i] >= 0 && (d[i] == 0 ==> forall j :: 0 <= j < n ==> p[i][j] == 0) {
      RowSquares(p, n, i);
    }
    ZeroSum(d);
    forall i, j | 0 <= i < n && 0 <= j < n ensures p[i][j] == 0 {
      assert d[i] == 0;
    }
    SameMatrix(p, Zero(n), n);
  }

  // ---------- the theorem ----------

  lemma NoCoefficients(c: seq<int>, p: seq<int>)
    requires SolvesNewton(c, p) && forall e :: 0 <= e < |p| ==> p[e] == 0
    ensures EndsBefore(c, 1)
  {
    hide Mul;
    forall k | 1 <= k < |c| ensures c[k] == 0 {
      NewtonAt(c, p, k);
      forall i: nat | i <= k ensures PS.Terms(c, p, k)[i] == 0 {
        MulUnits(c[i]);
      }
      TotalZero(PS.Terms(c, p, k));
      MulUnits(k);
      MulCancels(k, c[k], 0);
    }
  }

  lemma MinorIsSymmetric(a: Matrix, m: nat)
    requires IsSquare(a, m + 1) && IsSymmetric(a, m + 1)
    ensures IsSymmetric(Minor(a, m), m)
  {
  }

  /** One more vertex: what the minor satisfies, the matrix satisfies. */
  lemma Bordered(a: Matrix, m: nat, b: seq<int>, c: seq<int>)
    requires IsSquare(a, m + 1) && IsSymmetric(a, m + 1) && |c| == |b| > 2 * (m + 1)
    requires SolvesNewton(b, PowerSums(Minor(a, m), m, |b|)) && SolvesNewton(c, PowerSums(a, m + 1, |c|))
    requires EndsBefore(b, m + 1) && AtMatrix(Minor(a, m), m, b) == Zero(m)
    ensures EndsBefore(c, m + 2) && AtMatrix(a, m + 1, c) == Zero(m + 1)
  {
    var n, size := m + 1, |c|;
    var f, u := Returns(a, m, size), ClosedWalks(a, m, size);
    hide Mul, PS.Convolve, PS.Theta, PowerSums, SolvesNewton, AtMatrix, IsSymmetric, Minor, FirstReturn, Closed, EndsBefore;
    FirstReturnZero(a, m);
    ClosedWalksSolve(a, m, size);
    BorderTraces(a, m, size);
    var d := BorderKeepsNewton(f, u, b, PowerSums(Minor(a, m), m, size), PowerSums(a, n, size));
    NoPowerZero(a, n, size);
    CharacteristicUnique(c, d, PowerSums(a, n, size), size);
    assert c == d;
    forall k | n + 1 <= k < size ensures c[k] == 0 {
      BorderTerm(a, m, b, k);
    }
    AllEndsBefore(c, n + 1);
    Annihilates(a, n, c);
  }

  lemma AllEndsBefore(c: seq<int>, from: nat)
    requires forall k :: from <= k < |c| ==> c[k] == 0
    ensures EndsBefore(c, from)
  {
  }

  lemma NoPowerZero(a: Matrix, n: nat, size: nat)
    requires IsSquare(a, n) && size >= 1
    ensures PowerSums(a, n, size)[0] == 0
  {
  }

  lemma Annihilates(a: Matrix, n: nat, c: seq<int>)
    requires IsSquare(a, n) && IsSymmetric(a, n) && n >= 1 && |c| > 2 * n
    requires SolvesNewton(c, PowerSums(a, n, |c|)) && EndsBefore(c, n + 1)
    ensures AtMatrix(a, n, c) == Zero(n)
  {
    hide Power, Partial, Product, Trace, SolvesNewton, PowerSums, EndsBefore, IsSymmetric;
    SquareTrace(a, n, c);
    PartialIsSymmetric(a, n, c, n, n + 1);
    ZeroSquareTrace(AtMatrix(a, n, c), n);
  }

  /** Newton's identities, continued far enough, have no coefficients beyond the order of a symmetric
      matrix, and the matrix is a root of the polynomial. */
  lemma {:induction false} LongCayleyHamilton(a: Matrix, n: nat, c: seq<int>)
    requires IsSquare(a, n) && IsSymmetric(a, n) && |c| > 2 * n && SolvesNewton(c, PowerSums(a, n, |c|))
    ensures EndsBefore(c, n + 1) && AtMatrix(a, n, c) == Zero(n)
    decreases n
  {
    if n == 0 {
      hide Mul;
      forall e | 0 <= e < |c| ensures PowerSums(a, 0, |c|)[e] == 0 {
        TotalZero(Diagonal(Power(a, e, 0), 0));
      }
      NoCoefficients(c, PowerSums(a, 0, |c|));
      assert AtMatrix(a, 0, c) == Zero(0);
    } else {
      hide SolvesNewton, PowerSums, AtMatrix, EndsBefore;
      var m := n - 1;
      var b := IntegerSolution(Minor(a, m), m, |c|);
      assert |b| == |c| by { SameLengths(b, PowerSums(Minor(a, m), m, |c|)); }
      MinorIsSymmetric(a, m);
      LongCayleyHamilton(Minor(a, m), m, b);
      Bordered(a, m, b, c);
    }
  }

  lemma SameLengths(c: seq<int>, p: seq<int>)
    requires SolvesNewton(c, p)
    ensures |c| == |p|
  {
  }

  lemma NewtonPrefix(c: seq<int>, p: seq<int>, n: nat)
    requires SolvesNewton(c, p) && 1 <= n <= |c|
    ensures SolvesNewton(c[..n], p[..n])
  {
    hide Mul;
    var d, q := c[..n], p[..n];
    forall k: nat | k < n ensures PS.Theta(d)[k] == PS.Negate(PS.Convolve(d, q))[k] {
      assert PS.Terms(d, q, k) == PS.Terms(c, p, k);
      NewtonAt(c, p, k);
    }
    assert PS.Theta(d) == PS.Negate(PS.Convolve(d, q));
  }

  lemma {:induction false} SamePartial(a: Matrix, n: nat, c: seq<int>, d: seq<int>, k: nat, j: nat)
    requires IsSquare(a, n) && j <= |c| && j <= |d| && j <= k + 1 && c[..j] == d[..j]
    ensures Partial(a, n, c, k, j) == Partial(a, n, d, k, j)
  {
    if j > 0 {
      assert c[..j][..j - 1] == c[..j - 1] && d[..j][..j - 1] == d[..j - 1];
      assert c[..j][j - 1] == c[j - 1] && d[..j][j - 1] == d[j - 1];
      SamePartial(a, n, c, d, k, j - 1);
    }
  }

  /** The last auxiliary matrix of `characteristic_polynomial` is zero: a symmetric matrix is a root of
      its characteristic polynomial. */
  lemma CayleyHamilton(a: Matrix, n: nat, c: seq<int>)
    requires IsSquare(a, n) && IsSymmetric(a, n) && IsCharacteristic(a, n, c)
    ensures |c| == n + 1 && AtMatrix(a, n, c) == Zero(n)
  {
    hide PowerSums, SolvesNewton, IsSymmetric, Partial;
    var size := 2 * n + 1;
    var d := IntegerSolution(a, n, size);
    SameLengths(d, PowerSums(a, n, size));
    SameLengths(c, PowerSums(a, n, n + 1));
    LongCayleyHamilton(a, n, d);
    NewtonPrefix(d, PowerSums(a, n, size), n + 1);
    ShorterSums(a, n, size, n + 1);
    NoPowerZero(a, n, n + 1);
    CharacteristicUnique(c, d[..n + 1], PowerSums(a, n, n + 1), n + 1);
    SamePartial(a, n, c, d, n, n + 1);
  }

  lemma ShorterSums(a: Matrix, n: nat, size: nat, less: nat)
    requires IsSquare(a, n) && less <= size
    ensures PowerSums(a, n, size)[..less] == PowerSums(a, n, less)
  {
    hide Power, Trace;
  }
}
