/** Integer matrices: the exact product, powers and traces. */
module Matrices {
  import opened Integers

  type Matrix = seq<seq<int>>

  predicate IsSquare(m: Matrix, n: nat) {
    |m| == n && forall i :: 0 <= i < n ==> |m[i]| == n
  }

  function Identity(n: nat): (m: Matrix)
    ensures IsSquare(m, n)
  {
    seq(n, row => seq(n, column => if row == column then 1 else 0))
  }

  ghost function Zero(n: nat): (m: Matrix)
    ensures IsSquare(m, n)
  {
    seq(n, row => seq(n, column => 0))
  }

  /** The first k terms of the scalar product of a row of a and a column of b. */
  ghost function Terms(a: Matrix, b: Matrix, n: nat, row: nat, column: nat, k: nat): (t: seq<int>)
    requires IsSquare(a, n) && IsSquare(b, n) && row < n && column < n && k <= n
    ensures |t| == k
  {
    seq(k, p requires 0 <= p < k => Mul(a[row][p], b[p][column]))
  }

  ghost function Product(a: Matrix, b: Matrix, n: nat): (m: Matrix)
    requires IsSquare(a, n) && IsSquare(b, n)
    ensures IsSquare(m, n)
    ensures forall row, column :: 0 <= row < n && 0 <= column < n ==>
      m[row][column] == Total(Terms(a, b, n, row, column, n))
  {
    seq(n, row requires 0 <= row < n =>
      seq(n, column requires 0 <= column < n => Total(Terms(a, b, n, row, column, n))))
  }

  /** x + k*y */
  ghost function AddScaled(x: Matrix, k: int, y: Matrix, n: nat): (m: Matrix)
    requires IsSquare(x, n) && IsSquare(y, n)
    ensures IsSquare(m, n)
    ensures forall i, j :: 0 <= i < n && 0 <= j < n ==> m[i][j] == x[i][j] + Mul(k, y[i][j])
  {
    seq(n, i requires 0 <= i < n => seq(n, j requires 0 <= j < n => x[i][j] + Mul(k, y[i][j])))
  }

  ghost predicate SameEntries(a: Matrix, b: Matrix, n: nat)
    requires IsSquare(a, n) && IsSquare(b, n)
  {
    forall i, j :: 0 <= i < n && 0 <= j < n ==> a[i][j] == b[i][j]
  }

  lemma SameMatrix(a: Matrix, b: Matrix, n: nat)
    requires IsSquare(a, n) && IsSquare(b, n) && SameEntries(a, b, n)
    ensures a == b
  {
    forall i | 0 <= i < n ensures a[i] == b[i] {
      assert forall j :: 0 <= j < n ==> a[i][j] == b[i][j];
    }
  }

  ghost function Power(a: Matrix, e: nat, n: nat): (m: Matrix)
    requires IsSquare(a, n)
    ensures IsSquare(m, n)
  {
    if e == 0 then Identity(n) else Product(a, Power(a, e - 1, n), n)
  }

  function Diagonal(a: Matrix, n: nat): (d: seq<int>)
    requires IsSquare(a, n)
    ensures |d| == n
  {
    seq(n, i requires 0 <= i < n => a[i][i])
  }

  function Trace(a: Matrix, n: nat): int
    requires IsSquare(a, n)
  {
    Total(Diagonal(a, n))
  }

  // ---------- linearity ----------

  lemma ProductIsLinear(a: Matrix, x: Matrix, k: int, y: Matrix, n: nat)
    requires IsSquare(a, n) && IsSquare(x, n) && IsSquare(y, n)
    ensures Product(a, AddScaled(x, k, y, n), n) == AddScaled(Product(a, x, n), k, Product(a, y, n), n)
  {
    hide Mul;
    var s := AddScaled(x, k, y, n);
    var left, right := Product(a, s, n), AddScaled(Product(a, x, n), k, Product(a, y, n), n);
    forall i, j | 0 <= i < n && 0 <= j < n ensures left[i][j] == right[i][j] {
      ScalarProductIsLinear(a, x, k, y, n, i, j);
    }
    SameMatrix(left, right, n);
  }

  lemma ScalarProductIsLinear(a: Matrix, x: Matrix, k: int, y: Matrix, n: nat, i: nat, j: nat)
    requires IsSquare(a, n) && IsSquare(x, n) && IsSquare(y, n) && i < n && j < n
    ensures Total(Terms(a, AddScaled(x, k, y, n), n, i, j, n))
         == Total(Terms(a, x, n, i, j, n)) + Mul(k, Total(Terms(a, y, n, i, j, n)))
  {
    hide Mul;
    var s := AddScaled(x, k, y, n);
    var left, first, second := Terms(a, s, n, i, j, n), Terms(a, x, n, i, j, n), Terms(a, y, n, i, j, n);
    var scaled := seq(n, p requires 0 <= p < n => Mul(k, second[p]));
    forall p | 0 <= p < n ensures left[p] == first[p] + scaled[p] {
      MulDistributes(a[i][p], x[p][j], Mul(k, y[p][j]));
      MulAssociates(a[i][p], k, y[p][j]);
      MulCommutes(a[i][p], k);
      MulAssociates(k, a[i][p], y[p][j]);
    }
    TotalScales(k, second, scaled);
    TotalAdds(first, scaled, left);
  }

  lemma ProductZero(a: Matrix, n: nat)
    requires IsSquare(a, n)
    ensures Product(a, Zero(n), n) == Zero(n)
  {
    hide Mul;
    var left := Product(a, Zero(n), n);
    forall i, j | 0 <= i < n && 0 <= j < n ensures left[i][j] == 0 {
      forall p | 0 <= p < n ensures Terms(a, Zero(n), n, i, j, n)[p] == 0 {
        MulUnits(a[i][p]);
      }
      TotalZero(Terms(a, Zero(n), n, i, j, n));
    }
    SameMatrix(left, Zero(n), n);
  }

  lemma TraceIsLinear(x: Matrix, k: int, y: Matrix, n: nat)
    requires IsSquare(x, n) && IsSquare(y, n)
    ensures Trace(AddScaled(x, k, y, n), n) == Trace(x, n) + Mul(k, Trace(y, n))
  {
    hide Mul;
    var d := Diagonal(y, n);
    var scaled := seq(n, i requires 0 <= i < n => Mul(k, d[i]));
    TotalScales(k, d, scaled);
    TotalAdds(Diagonal(x, n), scaled, Diagonal(AddScaled(x, k, y, n), n));
  }

  // ---------- the product loop ----------

  /** The innermost loop: line[column] += value * source[column]. */
  method Accumulate(line: seq<int>, value: int, source: seq<int>) returns (output: seq<int>)
    requires |line| == |source|
    ensures |output| == |line|
    ensures forall j :: 0 <= j < |line| ==> output[j] == line[j] + Mul(value, source[j])
  {
    hide Mul;
    output := line;
    for column := 0 to |line|
      invariant |output| == |line|
      invariant forall j :: 0 <= j < |line| ==>
        output[j] == if j < column then line[j] + Mul(value, source[j]) else line[j]
    {
      output := output[column := output[column] + Mul(value, source[column])];
    }
  }

  /** One more pivot adds one more term to every entry of the row. */
  lemma PivotStep(a: Matrix, b: Matrix, n: nat, row: nat, pivot: nat)
    requires IsSquare(a, n) && IsSquare(b, n) && row < n && pivot < n
    ensures forall j :: 0 <= j < n ==>
      Total(Terms(a, b, n, row, j, pivot + 1)) == Total(Terms(a, b, n, row, j, pivot)) + Mul(a[row][pivot], b[pivot][j])
    ensures a[row][pivot] == 0 ==> forall j :: 0 <= j < n ==> Mul(a[row][pivot], b[pivot][j]) == 0
  {
    hide Mul;
    forall j | 0 <= j < n
      ensures Total(Terms(a, b, n, row, j, pivot + 1))
           == Total(Terms(a, b, n, row, j, pivot)) + Mul(a[row][pivot], b[pivot][j])
      ensures a[row][pivot] == 0 ==> Mul(a[row][pivot], b[pivot][j]) == 0
    {
      var t := Terms(a, b, n, row, j, pivot + 1);
      assert t[..pivot] == Terms(a, b, n, row, j, pivot);
      MulUnits(b[pivot][j]);
    }
  }

  /** The rows before `row` are finished, later ones still zero, and `row` has `pivot` terms. */
  ghost predicate Progress(output: Matrix, a: Matrix, b: Matrix, n: nat, row: nat, pivot: nat)
    requires IsSquare(a, n) && IsSquare(b, n) && row <= n && pivot <= n
  {
    && IsSquare(output, n)
    && (forall i, j :: 0 <= i < row && 0 <= j < n ==> output[i][j] == Product(a, b, n)[i][j])
    && (row < n ==> forall j :: 0 <= j < n ==> output[row][j] == Total(Terms(a, b, n, row, j, pivot)))
    && (forall i, j :: row < i < n && 0 <= j < n ==> output[i][j] == 0)
  }

  lemma RowDone(output: Matrix, a: Matrix, b: Matrix, n: nat, row: nat)
    requires IsSquare(a, n) && IsSquare(b, n) && row < n && Progress(output, a, b, n, row, n)
    ensures Progress(output, a, b, n, row + 1, 0)
  {
    hide Mul;
  }

  /** `_multiply`: skipping zero pivots leaves the plain matrix product. */
  method Multiply(left: Matrix, right: Matrix) returns (output: Matrix)
    requires IsSquare(left, |left|) && IsSquare(right, |left|)
    ensures output == Product(left, right, |left|)
  {
    hide Mul, Product;
    var size := |left|;
    output := seq(size, _ => seq(size, _ => 0));
    for row := 0 to size
      invariant Progress(output, left, right, size, row, 0)
    {
      for pivot := 0 to size
        invariant Progress(output, left, right, size, row, pivot)
      {
        var value := left[row][pivot];
        PivotStep(left, right, size, row, pivot);
        if value == 0 {
          continue;
        }
        var line := Accumulate(output[row], value, right[pivot]);
        output := output[row := line];
      }
      RowDone(output, left, right, size, row);
    }
    SameMatrix(output, Product(left, right, size), size);
  }
}
