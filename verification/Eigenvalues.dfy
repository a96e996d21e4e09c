/** Every real eigenvalue of the Laplacian is a root of one of the factors whose roots are isolated, and
    lies in the interval that is searched. */
module Eigenvalues {
  import opened Fractions
  import opened Polynomials
  import opened PolynomialRing
  import opened SquareFree
  import opened Matrices
  import opened Laplacian
  import opened CayleyHamilton
  import opened Graphs
  import Integers
  import Spectrum
  import NewtonIdentities
  import FL = FaddeevLeVerrier

  // ---------- rows against a real vector ----------

  lemma {:induction false} RowAdds(u: seq<int>, v: seq<int>, w: seq<int>, k: int, x: Vector)
    requires |u| == |v| == |w| == |x| && forall j :: 0 <= j < |x| ==> w[j] == u[j] + Integers.Mul(k, v[j])
    ensures RowForm(w, x) == RowForm(u, x) + Mul(k as real, RowForm(v, x))
  {
    if x == [] {
      MulUnits(k as real);
    } else {
      var n := |x| - 1;
      RowAdds(u[..n], v[..n], w[..n], k, x[..n]);
      assert w[n] as real == u[n] as real + Mul(k as real, v[n] as real);
      hide Mul, Integers.Mul;
      MulDistributes(x[n], u[n] as real, Mul(k as real, v[n] as real));
      MulAssociates(k as real, v[n] as real, x[n]);
      MulDistributes(k as real, RowForm(v[..n], x[..n]), Mul(v[n] as real, x[n]));
    }
  }

  lemma {:induction false} RowScales(row: seq<int>, x: Vector, y: Vector, q: real)
    requires |row| == |x| == |y| && forall j :: 0 <= j < |x| ==> y[j] == Mul(q, x[j])
    ensures RowForm(row, y) == Mul(q, RowForm(row, x))
  {
    hide Mul;
    if row == [] {
      MulUnits(q);
    } else {
      var n := |row| - 1;
      RowScales(row[..n], x[..n], y[..n], q);
      MulDistributes(q, RowForm(row[..n], x[..n]), Mul(row[n] as real, x[n]));
      MulAssociates(row[n] as real, q, x[n]);
      MulCommutes(row[n] as real, q);
      MulAssociates(q, row[n] as real, x[n]);
    }
  }

  lemma {:induction false} UnitRow(row: seq<int>, x: Vector, r: nat)
    requires |row| == |x| && forall j :: 0 <= j < |row| ==> row[j] == if j == r then 1 else 0
    ensures RowForm(row, x) == if r < |x| then x[r] else 0.0
  {
    hide Mul;
    if row != [] {
      var n := |row| - 1;
      UnitRow(row[..n], x[..n], r);
      MulUnits(x[n]);
    }
  }

  ghost function PartialRow(a: Matrix, b: Matrix, n: nat, r: nat, k: nat): (row: seq<int>)
    requires IsSquare(a, n) && IsSquare(b, n) && r < n && k <= n
    ensures |row| == n
  {
    seq(n, j requires 0 <= j < n => Integers.Total(Matrices.Terms(a, b, n, r, j, k)))
  }

  /** (a b) x = a (b x), pivot by pivot. */
  lemma {:induction false} PivotRows(a: Matrix, b: Matrix, n: nat, r: nat, x: Vector, y: Vector, k: nat)
    requires IsSquare(a, n) && IsSquare(b, n) && r < n && k <= n && |x| == |y| == n
    requires forall s :: 0 <= s < n ==> y[s] == RowForm(b[s], x)
    ensures RowForm(PartialRow(a, b, n, r, k), x) == RowForm(a[r][..k], y[..k])
  {
    hide Mul, Integers.Mul, RowForm;
    if k == 0 {
      ZeroRow(PartialRow(a, b, n, r, 0), x);
      NoRow(a[r][..0], y[..0]);
    } else {
      var i := k - 1;
      PivotRows(a, b, n, r, x, y, i);
      PivotStep(a, b, n, r, i);
      RowAdds(PartialRow(a, b, n, r, i), b[i], PartialRow(a, b, n, r, k), a[r][i], x);
      RowGrows(a[r], y, i);
    }
  }

  lemma NoRow(row: seq<int>, x: Vector)
    requires row == [] && x == []
    ensures RowForm(row, x) == 0.0
  {
  }

  lemma RowGrows(row: seq<int>, x: Vector, i: nat)
    requires |row| == |x| && i < |row|
    ensures RowForm(row[..i + 1], x[..i + 1]) == RowForm(row[..i], x[..i]) + Mul(row[i] as real, x[i])
  {
    hide Mul;
    assert row[..i + 1][..i] == row[..i] && x[..i + 1][..i] == x[..i];
  }

  lemma ProductRow(a: Matrix, b: Matrix, n: nat, r: nat, x: Vector, y: Vector)
    requires IsSquare(a, n) && IsSquare(b, n) && r < n && |x| == |y| == n
    requires forall s :: 0 <= s < n ==> y[s] == RowForm(b[s], x)
    ensures RowForm(Matrices.Product(a, b, n)[r], x) == RowForm(a[r], y)
  {
    hide RowForm;
    PivotRows(a, b, n, r, x, y, n);
    assert a[r][..n] == a[r] && y[..n] == y;
    assert Matrices.Product(a, b, n)[r] == PartialRow(a, b, n, r, n);
  }

  // ---------- Horner's rule on an eigenvector ----------

  /** The value at lambda of the polynomial with the first k descending coefficients. */
  ghost function Horner(c: seq<int>, lambda: real, k: nat): real
    requires k <= |c|
  {
    if k == 0 then 0.0 else c[k - 1] as real + Mul(lambda, Horner(c, lambda, k - 1))
  }

  ghost predicate Scales(b: Matrix, n: nat, x: Vector, q: real)
    requires IsSquare(b, n) && |x| == n
  {
    forall r :: 0 <= r < n ==> RowForm(b[r], x) == Mul(q, x[r])
  }

  lemma ProductScales(a: Matrix, b: Matrix, n: nat, x: Vector, lambda: real, q: real)
    requires IsSquare(a, n) && IsSquare(b, n) && |x| == n && Scales(a, n, x, lambda) && Scales(b, n, x, q)
    ensures Scales(Matrices.Product(a, b, n), n, x, Mul(lambda, q))
  {
    hide Mul, RowForm, Matrices.Product;
    var y := seq(n, s requires 0 <= s < n => RowForm(b[s], x));
    forall r | 0 <= r < n ensures RowForm(Matrices.Product(a, b, n)[r], x) == Mul(Mul(lambda, q), x[r]) {
      ProductRow(a, b, n, r, x, y);
      RowScales(a[r], x, y, q);
      MulAssociates(q, lambda, x[r]);
      MulCommutes(q, lambda);
    }
  }

  lemma ShiftScales(b: Matrix, n: nat, x: Vector, q: real, k: int, d: Matrix)
    requires IsSquare(b, n) && IsSquare(d, n) && |x| == n && Scales(b, n, x, q)
    requires d == AddScaled(b, k, Identity(n), n)
    ensures Scales(d, n, x, k as real + q)
  {
    hide Mul, RowForm, Integers.Mul;
    forall r | 0 <= r < n ensures RowForm(d[r], x) == Mul(k as real + q, x[r]) {
      RowAdds(b[r], Identity(n)[r], d[r], k, x);
      UnitRow(Identity(n)[r], x, r);
      MulDistributes(x[r], k as real, q);
    }
  }

  /** The auxiliary matrices of the recurrence stretch an eigenvector by the partial values. */
  lemma {:induction false} AuxiliaryScales(a: Matrix, c: seq<int>, x: Vector, lambda: real, k: nat)
    requires IsSquare(a, |x|) && k < |c| && Scales(a, |x|, x, lambda)
    ensures Scales(FL.Partial(a, |x|, c, k, k + 1), |x|, x, Horner(c, lambda, k + 1))
  {
    hide Mul, RowForm, Matrices.Product, Scales;
    var n := |x|;
    FL.PowerZero(a, n);
    if k == 0 {
      ZeroScales(n, x);
      MulUnits(lambda);
      assert FL.Partial(a, n, c, 0, 0) == Zero(n);
      hide FL.Partial, Horner;
      FirstPartial(a, n, c, lambda);
      ShiftScales(Zero(n), n, x, 0.0, c[0], FL.Partial(a, n, c, 0, 1));
    } else {
      AuxiliaryScales(a, c, x, lambda, k - 1);
      var before := FL.Partial(a, n, c, k - 1, k);
      FL.PartialShifts(a, n, c, k - 1, k);
      ProductScales(a, before, n, x, lambda, Horner(c, lambda, k));
      ShiftScales(Matrices.Product(a, before, n), n, x, Mul(lambda, Horner(c, lambda, k)), c[k], FL.Partial(a, n, c, k, k + 1));
    }
  }

  lemma FirstPartial(a: Matrix, n: nat, c: seq<int>, lambda: real)
    requires IsSquare(a, n) && |c| >= 1
    ensures FL.Partial(a, n, c, 0, 1) == AddScaled(Zero(n), c[0], Identity(n), n)
    ensures Horner(c, lambda, 1) == c[0] as real + 0.0
  {
    hide Mul;
    FL.PowerZero(a, n);
    MulUnits(lambda);
    assert FL.Partial(a, n, c, 0, 0) == Zero(n);
    assert Horner(c, lambda, 0) == 0.0;
  }

  lemma ZeroScales(n: nat, x: Vector)
    requires |x| == n
    ensures Scales(Zero(n), n, x, 0.0)
  {
    hide Mul, RowForm;
    forall r | 0 <= r < n ensures RowForm(Zero(n)[r], x) == Mul(0.0, x[r]) {
      ZeroRow(Zero(n)[r], x);
      MulUnits(x[r]);
    }
  }

  /** Descending coefficients under Horner's rule are ascending ones under evaluation. */
  lemma {:induction false} HornerIsEval(c: seq<int>, lambda: real, k: nat)
    requires k <= |c|
    ensures Horner(c, lambda, k) == Eval(Ascending(c, k), lambda)
  {
    hide Mul;
    if k > 0 {
      HornerIsEval(c, lambda, k - 1);
      assert Ascending(c, k)[1..] == Ascending(c, k - 1);
    }
  }

  function Ascending(c: seq<int>, k: nat): (p: seq<real>)
    requires k <= |c|
    ensures |p| == k && forall i :: 0 <= i < k ==> p[i] == c[k - 1 - i] as real
  {
    seq(k, i requires 0 <= i < k => c[k - 1 - i] as real)
  }

  /** A real eigenvalue of a symmetric matrix is a root of its characteristic polynomial. */
  lemma EigenvalueIsRoot(a: Matrix, c: seq<int>, x: Vector, lambda: real)
    requires IsSquare(a, |x|) && IsSymmetric(a, |x|) && FL.IsCharacteristic(a, |x|, c) && |c| >= 2 && c[0] == 1
    requires IsEigenvector(a, x, lambda)
    ensures Eval(Spectrum.ToPolynomial(c), lambda) == 0.0
  {
    hide Mul, RowForm, FL.IsCharacteristic, IsSymmetric, FL.Partial, Horner, Eval;
    var n := |x|;
    CayleyHamilton.CayleyHamilton(a, n, c);
    AuxiliaryScales(a, c, x, lambda, n);
    ZeroScales(n, x);
    var i :| 0 <= i < n && x[i] != 0.0;
    MulUnits(x[i]);
    assert Mul(Horner(c, lambda, n + 1), x[i]) == 0.0;
    MulNonZero(Horner(c, lambda, n + 1), x[i]);
    HornerIsEval(c, lambda, n + 1);
    assert Ascending(c, n + 1) == Spectrum.ToPolynomial(c);
  }

  // ---------- the factors ----------

  lemma {:induction false} RootOfPower(f: Poly, m: nat, lambda: real)
    requires Eval(Pow(f, m), lambda) == 0.0
    ensures Eval(f, lambda) == 0.0
  {
    hide Mul, Times, Eval;
    if m == 0 {
      ZeroValue(lambda);
    } else {
      TimesValue(f, Pow(f, m - 1), lambda);
      MulNonZero(Eval(f, lambda), Eval(Pow(f, m - 1), lambda));
      if Eval(f, lambda) != 0.0 {
        RootOfPower(f, m - 1, lambda);
      }
    }
  }

  lemma {:induction false} RootOfFactors(factors: seq<Factor>, lambda: real)
    requires Eval(PowerProduct(factors), lambda) == 0.0
    ensures exists i :: 0 <= i < |factors| && Eval(factors[i].factor, lambda) == 0.0
  {
    hide Mul, Times, Eval, Pow;
    if factors == [] {
      ZeroValue(lambda);
    } else {
      var n := |factors| - 1;
      var last := factors[n];
      TimesValue(PowerProduct(factors[..n]), Pow(last.factor, last.multiplicity), lambda);
      MulNonZero(Eval(PowerProduct(factors[..n]), lambda), Eval(Pow(last.factor, last.multiplicity), lambda));
      if Eval(PowerProduct(factors[..n]), lambda) == 0.0 {
        RootOfFactors(factors[..n], lambda);
        var i :| 0 <= i < n && Eval(factors[..n][i].factor, lambda) == 0.0;
        assert factors[i] == factors[..n][i];
      } else {
        RootOfPower(last.factor, last.multiplicity, lambda);
      }
    }
  }

  /** Every real eigenvalue of the Laplacian is a root of one of the factors, in the interval. */
  lemma EigenvaluesAreRoots(vertices: seq<Digest>, edges: seq<Edge>, coefficients: seq<int>, factors: seq<Factor>,
    x: Vector, lambda: real, d: nat)
    requires Connects(vertices, edges) && |x| == |vertices|
    requires forall i :: 0 <= i < |vertices| ==> DegreeOf(vertices, edges, i) <= d
    requires Spectrum.IsFactored(LaplacianOf(vertices, edges), coefficients, factors)
    requires IsEigenvector(LaplacianOf(vertices, edges), x, lambda)
    ensures 0.0 <= lambda <= 2.0 * d as real
    ensures exists i :: 0 <= i < |factors| && Eval(factors[i].factor, lambda) == 0.0
  {
    hide Mul, Eval, LaplacianOf, DegreeOf, IsEigenvector, FL.IsCharacteristic, AreFactors, PowerProduct,
      Spectrum.ToPolynomial;
    EigenvalueBounds(vertices, edges, x, lambda, d);
    LaplacianIsSymmetric(vertices, edges);
    EigenvalueIsRoot(LaplacianOf(vertices, edges), coefficients, x, lambda);
    RootOfFactors(factors, lambda);
  }

  lemma LaplacianIsSymmetric(vertices: seq<Digest>, edges: seq<Edge>)
    requires Connects(vertices, edges)
    ensures IsSymmetric(LaplacianOf(vertices, edges), |vertices|)
  {
    hide LaplacianOf, DegreeOf;
    LaplacianEntries(vertices, edges);
  }
}
