/** The characteristic polynomial by the Faddeev-LeVerrier recurrence
    (`characteristic_polynomial` in geometry_math.py). */
module FaddeevLeVerrier {
  import opened Integers
  import opened Matrices
  import opened NewtonIdentities
  import opened Outcomes
  import PS = PowerSeries

  const MAX_SPECTRAL_MATRIX_ORDER := 64

  /** Coefficients c_0 = 1, ..., c_n in descending order with
      k*c_k = -(c_0 tr(A^k) + ... + c_(k-1) tr(A)) for k = 1..n: Newton's identities. */
  ghost predicate IsCharacteristic(a: Matrix, n: nat, c: seq<int>)
    requires IsSquare(a, n)
  {
    SolvesNewton(c, PowerSums(a, n, n + 1))
  }

  lemma NewtonAt(c: seq<int>, p: seq<int>, k: nat)
    requires SolvesNewton(c, p) && k < |c|
    ensures Mul(k, c[k]) == -Total(PS.Terms(c, p, k))
  {
    hide Mul;
    assert PS.Theta(c)[k] == PS.Negate(PS.Convolve(c, p))[k];
  }

  /** Newton's identities determine the coefficients. */
  lemma {:induction false} CharacteristicUnique(c: seq<int>, d: seq<int>, p: seq<int>, k: nat)
    requires SolvesNewton(c, p) && SolvesNewton(d, p) && p[0] == 0 && k <= |c|
    ensures c[..k] == d[..k]
  {
    hide Mul;
    if k > 1 {
      var i := k - 1;
      CharacteristicUnique(c, d, p, i);
      NewtonAt(c, p, i);
      NewtonAt(d, p, i);
      MulUnits(c[i]);
      MulUnits(d[i]);
      assert forall j :: 0 <= j < i ==> c[j] == c[..i][j] == d[..i][j] == d[j];
      assert PS.Terms(c, p, i) == PS.Terms(d, p, i);
      MulCancels(i, c[i], d[i]);
    }
  }

  lemma MulCancels(k: int, a: int, b: int)
    requires k != 0 && Mul(k, a) == Mul(k, b)
    ensures a == b
  {
  }

  /** c_0 A^k + ... + c_(j-1) A^(k-j+1) */
  ghost function Partial(a: Matrix, n: nat, c: seq<int>, k: nat, j: nat): (m: Matrix)
    requires IsSquare(a, n) && j <= |c| && j <= k + 1
    ensures IsSquare(m, n)
  {
    if j == 0 then Zero(n)
    else AddScaled(Partial(a, n, c, k, j - 1), c[j - 1], Power(a, k - (j - 1), n), n)
  }

  lemma {:induction false} PartialShifts(a: Matrix, n: nat, c: seq<int>, k: nat, j: nat)
    requires IsSquare(a, n) && j <= |c| && j <= k + 1
    ensures Product(a, Partial(a, n, c, k, j), n) == Partial(a, n, c, k + 1, j)
  {
    if j == 0 {
      ProductZero(a, n);
    } else {
      PartialShifts(a, n, c, k, j - 1);
      ProductIsLinear(a, Partial(a, n, c, k, j - 1), c[j - 1], Power(a, k - (j - 1), n), n);
      hide Product;
    }
  }

  ghost function TraceTerms(a: Matrix, n: nat, c: seq<int>, k: nat, j: nat): (t: seq<int>)
    requires IsSquare(a, n) && j <= |c| && j <= k
    ensures |t| == j
  {
    seq(j, i requires 0 <= i < j => Mul(c[i], Trace(Power(a, k - i, n), n)))
  }

  lemma ZeroTrace(n: nat)
    ensures Trace(Zero(n), n) == 0
  {
    TotalZero(Diagonal(Zero(n), n));
  }

  lemma TotalLast(t: seq<int>)
    requires t != []
    ensures Total(t) == Total(t[..|t| - 1]) + t[|t| - 1]
  {
  }

  lemma {:induction false} PartialTrace(a: Matrix, n: nat, c: seq<int>, k: nat, j: nat)
    requires IsSquare(a, n) && j <= |c| && j <= k
    ensures Trace(Partial(a, n, c, k, j), n) == Total(TraceTerms(a, n, c, k, j))
  {
    hide Mul, Power, Total, AddScaled, Trace;
    if j == 0 {
      ZeroTrace(n);
      assert TraceTerms(a, n, c, k, 0) == [];
      TotalZero([]);
    } else {
      PartialTrace(a, n, c, k, j - 1);
      TraceIsLinear(Partial(a, n, c, k, j - 1), c[j - 1], Power(a, k - (j - 1), n), n);
      assert TraceTerms(a, n, c, k, j)[..j - 1] == TraceTerms(a, n, c, k, j - 1);
      TotalLast(TraceTerms(a, n, c, k, j));
    }
  }

  /** The trace taken in round k is -k*c_k, so dividing it by k leaves nothing over. */
  lemma TraceIsNewton(a: Matrix, n: nat, c: seq<int>, k: nat)
    requires IsSquare(a, n) && SolvesNewton(c, PowerSums(a, n, |c|)) && 1 <= k < |c|
    ensures Trace(Partial(a, n, c, k, k), n) == -Mul(k, c[k])
  {
    hide Mul, Power, Trace;
    var p := PowerSums(a, n, |c|);
    PartialTrace(a, n, c, k, k);
    NewtonAt(c, p, k);
    var t := PS.Terms(c, p, k);
    MulUnits(c[k]);
    forall i: nat | i < k ensures t[i] == TraceTerms(a, n, c, k, k)[i] {
      assert p[k - i] == Trace(Power(a, k - i, n), n);
    }
    assert t[..k] == TraceTerms(a, n, c, k, k);
    assert t[k] == 0;
  }

  lemma DividesBack(order: nat, coefficient: int, trace: int)
    requires order >= 1 && trace == -Mul(order, coefficient)
    ensures trace % order == 0 && -(trace / order) == coefficient
  {
    var quotient, remainder := trace / order, trace % order;
    assert trace == order * quotient + remainder;
    var gap := -coefficient - quotient;
    assert order * gap == remainder by { assert order * gap == -(order * coefficient) - order * quotient; }
    AtLeastOnce(order, gap);
  }

  lemma AtLeastOnce(a: int, b: int)
    requires a >= 0
    ensures b >= 1 ==> a * b >= a
    ensures b <= -1 ==> a * b <= -a
  {
  }

  /** Adding c to every diagonal entry adds c times the identity. */
  method AddToDiagonal(matrix: Matrix, c: int) returns (output: Matrix)
    requires IsSquare(matrix, |matrix|)
    ensures IsSquare(output, |matrix|)
    ensures output == AddScaled(matrix, c, Identity(|matrix|), |matrix|)
  {
    hide Mul;
    var size := |matrix|;
    output := matrix;
    MulUnits(c);
    for index := 0 to size
      invariant IsSquare(output, size)
      invariant forall i, j :: 0 <= i < size && 0 <= j < size ==>
        output[i][j] == if i == j < index then matrix[i][j] + c else matrix[i][j]
    {
      var line := output[index];
      output := output[index := line[index := line[index] + c]];
    }
    SameMatrix(output, AddScaled(matrix, c, Identity(size), size), size);
  }

  method CharacteristicPolynomial(matrix: Matrix) returns (result: Result<seq<int>>)
    ensures result.Success? <==> 1 <= |matrix| <= 64 && IsSquare(matrix, |matrix|)
    ensures result.Failure? ==> result.error == SpectrumInvalid
    ensures result.Success? ==> IsCharacteristic(matrix, |matrix|, result.value)
  {
    hide Mul, Trace, SolvesNewton, Power, Product, PowerSums;
    var size := |matrix|;
    if size == 0 || size > MAX_SPECTRAL_MATRIX_ORDER || exists row | row in matrix :: |row| != size {
      return Failure(SpectrumInvalid);
    }
    ghost var c := IntegerSolution(matrix, size, size + 1);
    ConstantIsOne(c, PowerSums(matrix, size, size + 1));
    var auxiliary := Identity(size);
    var coefficients := [1];
    PartialStarts(matrix, size, c);
    for order := 1 to size + 1
      invariant IsSquare(auxiliary, size)
      invariant coefficients == c[..order]
      invariant auxiliary == Partial(matrix, size, c, order - 1, order)
    {
      var product := Multiply(matrix, auxiliary);
      PartialShifts(matrix, size, c, order - 1, order);
      var trace := Trace(product, size);
      TraceIsNewton(matrix, size, c, order);
      DividesBack(order, c[order], trace);
      if trace % order != 0 {
        assert false;
      }
      var coefficient := -(trace / order);
      coefficients := coefficients + [coefficient];
      auxiliary := AddToDiagonal(product, coefficient);
      PowerZero(matrix, size);
    }
    assert c[..size + 1] == c;
    result := Success(coefficients);
  }

  lemma PowerZero(a: Matrix, n: nat)
    requires IsSquare(a, n)
    ensures Power(a, 0, n) == Identity(n)
  {
  }

  lemma ConstantIsOne(c: seq<int>, p: seq<int>)
    requires SolvesNewton(c, p)
    ensures |c| == |p| && c[0] == 1
  {
  }

  lemma {:induction false} PartialStarts(a: Matrix, n: nat, c: seq<int>)
    requires IsSquare(a, n) && |c| >= 1 && c[0] == 1
    ensures Partial(a, n, c, 0, 1) == Identity(n)
  {
    var m := Partial(a, n, c, 0, 1);
    assert Partial(a, n, c, 0, 0) == Zero(n);
    assert m == AddScaled(Zero(n), 1, Power(a, 0, n), n);
    hide Mul, Partial, Power;
    PowerZero(a, n);
    MulUnits(0);
    MulUnits(1);
    SameMatrix(m, Identity(n), n);
  }
}
