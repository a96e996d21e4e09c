/** The undirected multigraph Laplacian (`_laplacian` in geometry.py) and where its real
    eigenvalues lie. */
module Laplacian {
  import opened Graphs
  import opened Matrices
  import opened Fractions

  function Position(vertices: seq<Digest>, v: Digest): (k: nat)
    requires v in vertices
    ensures k < |vertices| && vertices[k] == v
  {
    if vertices[0] == v then 0 else 1 + Position(vertices[1..], v)
  }

  // ---------- one edge at a time ----------

  function AddAt(m: Matrix, n: nat, i: nat, j: nat, d: int): (r: Matrix)
    requires IsSquare(m, n) && i < n && j < n
    ensures IsSquare(r, n)
    ensures forall k, l :: 0 <= k < n && 0 <= l < n ==> r[k][l] == m[k][l] + if k == i && l == j then d else 0
  {
    m[i := m[i][j := m[i][j] + d]]
  }

  /** The Laplacian of a single edge between vertices i and j added to m; loops add nothing. */
  function AddEdge(m: Matrix, n: nat, i: nat, j: nat): (r: Matrix)
    requires IsSquare(m, n) && i < n && j < n
    ensures IsSquare(r, n)
  {
    if i == j then m
    else AddAt(AddAt(AddAt(AddAt(m, n, i, i, 1), n, j, j, 1), n, i, j, -1), n, j, i, -1)
  }

  /** The endpoints of an edge as row numbers. */
  function Ends(vertices: seq<Digest>, e: Edge): (p: (nat, nat))
    requires e.source in vertices && e.target in vertices
    ensures p.0 < |vertices| && p.1 < |vertices|
    ensures vertices[p.0] == e.source && vertices[p.1] == e.target
  {
    (Position(vertices, e.source), Position(vertices, e.target))
  }

  ghost predicate Connects(vertices: seq<Digest>, edges: seq<Edge>) {
    forall e :: e in edges ==> e.source in vertices && e.target in vertices
  }

  ghost function LaplacianOf(vertices: seq<Digest>, edges: seq<Edge>): (m: Matrix)
    requires Connects(vertices, edges)
    ensures IsSquare(m, |vertices|)
  {
    if edges == [] then Zero(|vertices|)
    else
      var k := |edges| - 1;
      var p := Ends(vertices, edges[k]);
      AddEdge(LaplacianOf(vertices, edges[..k]), |vertices|, p.0, p.1)
  }

  /** The number of non-loop edge ends at row i. */
  ghost function DegreeOf(vertices: seq<Digest>, edges: seq<Edge>, i: nat): nat
    requires Connects(vertices, edges)
  {
    if edges == [] then 0
    else
      var k := |edges| - 1;
      var p := Ends(vertices, edges[k]);
      DegreeOf(vertices, edges[..k], i)
        + if p.0 == p.1 then 0 else (if p.0 == i then 1 else 0) + (if p.1 == i then 1 else 0)
  }

  lemma {:induction false} DegreeBound(vertices: seq<Digest>, edges: seq<Edge>, i: nat)
    requires Connects(vertices, edges)
    ensures DegreeOf(vertices, edges, i) <= |edges|
  {
    if edges != [] {
      DegreeBound(vertices, edges[..|edges| - 1], i);
    }
  }

  /** Entry (k, l) of the Laplacian of one edge between i and j. */
  function EdgeEntry(i: nat, j: nat, k: int, l: int): int {
    if i == j then 0
    else if k == l then (if k == i || k == j then 1 else 0)
    else if (k == i && l == j) || (k == j && l == i) then -1
    else 0
  }

  lemma AddEdgeEntries(m: Matrix, n: nat, i: nat, j: nat)
    requires IsSquare(m, n) && i < n && j < n
    ensures forall k, l :: 0 <= k < n && 0 <= l < n ==>
      AddEdge(m, n, i, j)[k][l] == m[k][l] + EdgeEntry(i, j, k, l)
  {
    if i != j {
      var first := AddAt(m, n, i, i, 1);
      var second := AddAt(first, n, j, j, 1);
      var third := AddAt(second, n, i, j, -1);
      hide AddAt;
      assert AddEdge(m, n, i, j) == AddAt(third, n, j, i, -1);
    }
  }

  lemma {:induction false} LaplacianEntries(vertices: seq<Digest>, edges: seq<Edge>)
    requires Connects(vertices, edges)
    ensures var m := LaplacianOf(vertices, edges);
      && (forall i, j :: 0 <= i < |vertices| && 0 <= j < |vertices| ==> m[i][j] == m[j][i])
      && (forall i :: 0 <= i < |vertices| ==> m[i][i] == DegreeOf(vertices, edges, i))
  {
    if edges != [] {
      var k := |edges| - 1;
      LaplacianEntries(vertices, edges[..k]);
      var p := Ends(vertices, edges[k]);
      AddEdgeEntries(LaplacianOf(vertices, edges[..k]), |vertices|, p.0, p.1);
      hide AddEdge;
    }
  }

  function MaximumOf(degree: seq<nat>): (m: nat)
    ensures forall i :: 0 <= i < |degree| ==> degree[i] <= m
    ensures degree == [] ==> m == 0
    ensures degree != [] ==> m in degree
  {
    if degree == [] then 0
    else
      var k := |degree| - 1;
      var rest := MaximumOf(degree[..k]);
      if k == 0 || degree[k] >= rest then degree[k] else rest
  }

  /** Off the diagonal m is the Laplacian s already; the diagonal is still zero. */
  ghost predicate OffDiagonal(m: Matrix, s: Matrix, n: nat)
    requires IsSquare(s, n)
  {
    && IsSquare(m, n)
    && forall i, j :: 0 <= i < n && 0 <= j < n ==> m[i][j] == if i == j then 0 else s[i][j]
  }

  lemma OffDiagonalStep(m: Matrix, s: Matrix, n: nat, i: nat, j: nat)
    requires IsSquare(s, n) && OffDiagonal(m, s, n) && i < n && j < n
    ensures OffDiagonal(if i == j then m else AddAt(AddAt(m, n, i, j, -1), n, j, i, -1), AddEdge(s, n, i, j), n)
  {
    AddEdgeEntries(s, n, i, j);
    hide AddEdge;
    if i != j {
      var first := AddAt(m, n, i, j, -1);
      var second := AddAt(first, n, j, i, -1);
      hide AddAt;
    }
  }

  ghost predicate AreDegrees(degree: seq<nat>, vertices: seq<Digest>, edges: seq<Edge>)
    requires Connects(vertices, edges)
  {
    |degree| == |vertices| && forall i :: 0 <= i < |degree| ==> degree[i] == DegreeOf(vertices, edges, i)
  }

  lemma DegreeStep(degree: seq<nat>, vertices: seq<Digest>, edges: seq<Edge>, e: Edge)
    requires Connects(vertices, edges + [e]) && Connects(vertices, edges) && AreDegrees(degree, vertices, edges)
    ensures var p := Ends(vertices, e);
      var once := degree[p.0 := degree[p.0] + 1];
      AreDegrees(if p.0 == p.1 then degree else once[p.1 := once[p.1] + 1], vertices, edges + [e])
  {
    assert (edges + [e])[..|edges|] == edges;
  }

  method FillDiagonal(matrix: Matrix, degree: seq<nat>) returns (output: Matrix)
    requires IsSquare(matrix, |degree|)
    ensures IsSquare(output, |degree|)
    ensures forall i, j :: 0 <= i < |degree| && 0 <= j < |degree| ==>
      output[i][j] == if i == j then degree[i] else matrix[i][j]
  {
    output := matrix;
    for index := 0 to |degree|
      invariant IsSquare(output, |degree|)
      invariant forall i, j :: 0 <= i < |degree| && 0 <= j < |degree| ==>
        output[i][j] == if i == j < index then degree[i] else matrix[i][j]
    {
      output := output[index := output[index][index := degree[index]]];
    }
  }

  method BuildLaplacian(g: Graph) returns (matrix: Matrix, maximumDegree: nat)
    requires IsGraph(g)
    ensures matrix == LaplacianOf(g.vertices, g.edges)
    ensures forall i :: 0 <= i < |g.vertices| ==> DegreeOf(g.vertices, g.edges, i) <= maximumDegree
    ensures g.vertices != [] ==> exists i :: 0 <= i < |g.vertices| && DegreeOf(g.vertices, g.edges, i) == maximumDegree
    ensures maximumDegree <= |g.edges|
  {
    hide OffDiagonal, AreDegrees, LaplacianOf, DegreeOf, Ends, AddAt, AddEdge;
    var n := |g.vertices|;
    matrix := seq(n, _ => seq(n, _ => 0));
    var degree: seq<nat> := seq(n, _ => 0);
    NoEdges(g.vertices, matrix, degree);
    for index := 0 to |g.edges|
      invariant OffDiagonal(matrix, LaplacianOf(g.vertices, g.edges[..index]), n)
      invariant AreDegrees(degree, g.vertices, g.edges[..index])
    {
      var edge := g.edges[index];
      var ends := Ends(g.vertices, edge);
      var source, target := ends.0, ends.1;
      MatrixEdgeStep(g.vertices, g.edges, index, matrix);
      DegreeEdgeStep(g.vertices, g.edges, index, degree);
      if source == target {
        continue;
      }
      degree := degree[source := degree[source] + 1];
      degree := degree[target := degree[target] + 1];
      matrix := AddAt(matrix, n, source, target, -1);
      matrix := AddAt(matrix, n, target, source, -1);
    }
    assert g.edges[..|g.edges|] == g.edges;
    Finish(g.vertices, g.edges, matrix, degree);
    matrix := FillDiagonal(matrix, degree);
    SameMatrix(matrix, LaplacianOf(g.vertices, g.edges), n);
    maximumDegree := MaximumOf(degree);
    if n > 0 {
      var i :| 0 <= i < n && degree[i] == maximumDegree;
      DegreeBound(g.vertices, g.edges, i);
    }
  }

  lemma NoEdges(vertices: seq<Digest>, matrix: Matrix, degree: seq<nat>)
    requires IsSquare(matrix, |vertices|) && |degree| == |vertices|
    requires forall i, j :: 0 <= i < |vertices| && 0 <= j < |vertices| ==> matrix[i][j] == 0
    requires forall i :: 0 <= i < |vertices| ==> degree[i] == 0
    ensures OffDiagonal(matrix, LaplacianOf(vertices, []), |vertices|) && AreDegrees(degree, vertices, [])
  {
  }

  lemma MatrixEdgeStep(vertices: seq<Digest>, edges: seq<Edge>, k: nat, matrix: Matrix)
    requires Connects(vertices, edges) && k < |edges|
    requires OffDiagonal(matrix, LaplacianOf(vertices, edges[..k]), |vertices|)
    ensures IsSquare(matrix, |vertices|)
    ensures var p, n := Ends(vertices, edges[k]), |vertices|;
      OffDiagonal(if p.0 == p.1 then matrix else AddAt(AddAt(matrix, n, p.0, p.1, -1), n, p.1, p.0, -1),
        LaplacianOf(vertices, edges[..k + 1]), n)
  {
    hide AddEdge, AddAt, LaplacianOf;
    var p := Ends(vertices, edges[k]);
    hide Ends;
    LaplacianStep(vertices, edges, k);
    OffDiagonalStep(matrix, LaplacianOf(vertices, edges[..k]), |vertices|, p.0, p.1);
  }

  lemma DegreeEdgeStep(vertices: seq<Digest>, edges: seq<Edge>, k: nat, degree: seq<nat>)
    requires Connects(vertices, edges) && k < |edges| && AreDegrees(degree, vertices, edges[..k])
    ensures |degree| == |vertices|
    ensures var p := Ends(vertices, edges[k]);
      var once := degree[p.0 := degree[p.0] + 1];
      AreDegrees(if p.0 == p.1 then degree else once[p.1 := once[p.1] + 1], vertices, edges[..k + 1])
  {
    hide DegreeOf, Ends;
    assert edges[..k + 1] == edges[..k] + [edges[k]];
    DegreeStep(degree, vertices, edges[..k], edges[k]);
  }

  lemma LaplacianStep(vertices: seq<Digest>, edges: seq<Edge>, k: nat)
    requires Connects(vertices, edges) && k < |edges|
    ensures LaplacianOf(vertices, edges[..k + 1])
         == AddEdge(LaplacianOf(vertices, edges[..k]), |vertices|, Ends(vertices, edges[k]).0, Ends(vertices, edges[k]).1)
  {
    hide AddEdge, Ends;
    assert edges[..k + 1][..k] == edges[..k];
  }

  lemma Finish(vertices: seq<Digest>, edges: seq<Edge>, matrix: Matrix, degree: seq<nat>)
    requires Connects(vertices, edges)
    requires OffDiagonal(matrix, LaplacianOf(vertices, edges), |vertices|) && AreDegrees(degree, vertices, edges)
    ensures IsSquare(matrix, |vertices|) && |degree| == |vertices|
    ensures forall i :: 0 <= i < |degree| ==> degree[i] == DegreeOf(vertices, edges, i)
    ensures forall i, j :: 0 <= i < |vertices| && 0 <= j < |vertices| ==>
      LaplacianOf(vertices, edges)[i][j] == if i == j then degree[i] else matrix[i][j]
  {
    LaplacianEntries(vertices, edges);
    hide LaplacianOf, DegreeOf;
  }

  // ---------- the quadratic form ----------

  type Vector = seq<real>

  /** One row times a vector. */
  function RowForm(row: seq<int>, x: Vector): real
    requires |row| == |x|
  {
    if row == [] then 0.0
    else
      var k := |row| - 1;
      RowForm(row[..k], x[..k]) + Mul(row[k] as real, x[k])
  }

  /** The first k rows of x^T m x. */
  function Form(m: Matrix, x: Vector, k: nat): real
    requires IsSquare(m, |x|) && k <= |x|
  {
    if k == 0 then 0.0 else Form(m, x, k - 1) + Mul(x[k - 1], RowForm(m[k - 1], x))
  }

  function Square(a: real): real {
    Mul(a, a)
  }

  lemma SquareNonNegative(a: real)
    ensures Square(a) >= 0.0
    ensures Square(a) == 0.0 <==> a == 0.0
  {
    SignOfProduct(a, a);
    SignOfProduct(-a, -a);
    MulNonZero(a, a);
    MulNegates(a, -a);
    MulNegates(a, a);
  }

  lemma SignOfProduct(a: real, b: real)
    ensures a > 0.0 && b > 0.0 ==> Mul(a, b) > 0.0
    ensures a < 0.0 && b > 0.0 ==> Mul(a, b) < 0.0
  {
  }

  function Norm(x: Vector, k: nat): real
    requires k <= |x|
  {
    if k == 0 then 0.0 else Norm(x, k - 1) + Square(x[k - 1])
  }

  lemma {:induction false} RowUpdate(row: seq<int>, x: Vector, j: nat, d: int)
    requires |row| == |x| && j < |row|
    ensures RowForm(row[j := row[j] + d], x) == RowForm(row, x) + Mul(d as real, x[j])
    decreases |row|
  {
    hide Mul;
    var k := |row| - 1;
    var after := row[j := row[j] + d];
    if j == k {
      assert after[..k] == row[..k];
      MulDistributes(x[j], row[j] as real, d as real);
    } else {
      assert after[..k] == row[..k][j := row[..k][j] + d];
      RowUpdate(row[..k], x[..k], j, d);
    }
  }

  /** What one more edge adds to row k of the product with x. */
  function Flow(x: Vector, i: nat, j: nat, k: nat): real
    requires i < |x| && j < |x|
  {
    if k == i then x[i] - x[j] else if k == j then x[j] - x[i] else 0.0
  }

  lemma TwoUpdates(row: seq<int>, x: Vector, i: nat, j: nat, after: seq<int>)
    requires |row| == |x| == |after| && i < |row| && j < |row| && i != j
    requires forall l :: 0 <= l < |row| ==> after[l] == row[l] + if l == i then 1 else if l == j then -1 else 0
    ensures RowForm(after, x) == RowForm(row, x) + x[i] - x[j]
  {
    hide Mul, RowForm;
    RowUpdate(row, x, i, 1);
    var once := row[i := row[i] + 1];
    RowUpdate(once, x, j, -1);
    assert after == once[j := once[j] - 1];
    MulUnits(x[i]);
    MulUnits(x[j]);
  }

  lemma EdgeRow(m: Matrix, x: Vector, i: nat, j: nat, k: nat)
    requires IsSquare(m, |x|) && i < |x| && j < |x| && k < |x|
    ensures RowForm(AddEdge(m, |x|, i, j)[k], x) == RowForm(m[k], x) + Flow(x, i, j, k)
  {
    hide Mul, AddEdge, RowForm;
    AddEdgeEntries(m, |x|, i, j);
    var row, after := m[k], AddEdge(m, |x|, i, j)[k];
    assert |after| == |x|;
    if i != j && k == i {
      TwoUpdates(row, x, i, j, after);
    } else if i != j && k == j {
      TwoUpdates(row, x, j, i, after);
    } else {
      assert after == row;
    }
  }

  lemma {:induction false} EdgeForm(m: Matrix, x: Vector, i: nat, j: nat, k: nat)
    requires IsSquare(m, |x|) && i < |x| && j < |x| && k <= |x|
    ensures Form(AddEdge(m, |x|, i, j), x, k) == Form(m, x, k)
      + (if i < k then Mul(x[i], x[i] - x[j]) else 0.0) + (if j < k then Mul(x[j], x[j] - x[i]) else 0.0)
  {
    hide Mul, AddEdge, RowForm;
    if i == j {
      SelfLoop(m, |x|, i);
      MulUnits(x[i]);
    } else if k > 0 {
      EdgeForm(m, x, i, j, k - 1);
      EdgeRow(m, x, i, j, k - 1);
      MulDistributes(x[k - 1], RowForm(m[k - 1], x), Flow(x, i, j, k - 1));
      MulUnits(x[k - 1]);
    }
  }

  lemma SelfLoop(m: Matrix, n: nat, i: nat)
    requires IsSquare(m, n) && i < n
    ensures AddEdge(m, n, i, i) == m
  {
  }

  lemma DifferenceSquared(a: real, b: real)
    ensures Mul(a, a - b) + Mul(b, b - a) == Square(a - b)
    ensures Square(a - b) <= 2.0 * (Square(a) + Square(b))
  {
    hide Mul;
    MulDistributes(a - b, a, -b);
    MulNegates(b, b - a);
    MulNegates(b, a - b);
    SquareNonNegative(a + b);
    MulDistributes(a + b, a, b);
    MulDistributes(a, a, b);
    MulDistributes(b, a, b);
    MulDistributes(a, a, -b);
    MulDistributes(b, a, -b);
    MulDistributes(b, b, -a);
    MulNegates(a, b);
    MulNegates(b, a);
    MulNegates(a, a);
    MulNegates(b, b);
    MulCommutes(a, b);
    MulCommutes(a, a - b);
    MulCommutes(b, a - b);
  }

  /** The sum over all edges of the squared difference across the edge. */
  function Energy(vertices: seq<Digest>, edges: seq<Edge>, x: Vector): real
    requires Connects(vertices, edges) && |x| == |vertices|
  {
    if edges == [] then 0.0
    else
      var k := |edges| - 1;
      var p := Ends(vertices, edges[k]);
      Energy(vertices, edges[..k], x) + Square(x[p.0] - x[p.1])
  }

  lemma {:induction false} ZeroForm(x: Vector, k: nat)
    requires k <= |x|
    ensures Form(Zero(|x|), x, k) == 0.0
  {
    hide Mul;
    if k > 0 {
      ZeroForm(x, k - 1);
      ZeroRow(Zero(|x|)[k - 1], x);
      MulUnits(x[k - 1]);
    }
  }

  lemma {:induction false} ZeroRow(row: seq<int>, x: Vector)
    requires |row| == |x| && forall i :: 0 <= i < |row| ==> row[i] == 0
    ensures RowForm(row, x) == 0.0
  {
    hide Mul;
    if row != [] {
      ZeroRow(row[..|row| - 1], x[..|row| - 1]);
      MulUnits(x[|row| - 1]);
    }
  }

  /** x^T L x is the energy of x. */
  lemma {:induction false} FormIsEnergy(vertices: seq<Digest>, edges: seq<Edge>, x: Vector)
    requires Connects(vertices, edges) && |x| == |vertices|
    ensures Form(LaplacianOf(vertices, edges), x, |x|) == Energy(vertices, edges, x)
  {
    hide Mul, Square, AddEdge;
    if edges == [] {
      ZeroForm(x, |x|);
    } else {
      var k := |edges| - 1;
      var p := Ends(vertices, edges[k]);
      FormIsEnergy(vertices, edges[..k], x);
      assert LaplacianOf(vertices, edges) == AddEdge(LaplacianOf(vertices, edges[..k]), |vertices|, p.0, p.1);
      assert Energy(vertices, edges, x) == Energy(vertices, edges[..k], x) + Square(x[p.0] - x[p.1]);
      hide LaplacianOf, Energy, Form;
      EdgeForm(LaplacianOf(vertices, edges[..k]), x, p.0, p.1, |x|);
      DifferenceSquared(x[p.0], x[p.1]);
    }
  }

  /** Every row of the Laplacian sums to zero. */
  lemma {:induction false} RowsSumToZero(vertices: seq<Digest>, edges: seq<Edge>, ones: Vector, i: nat)
    requires Connects(vertices, edges) && |ones| == |vertices| && i < |vertices|
    requires forall k :: 0 <= k < |ones| ==> ones[k] == 1.0
    ensures RowForm(LaplacianOf(vertices, edges)[i], ones) == 0.0
  {
    hide Mul, AddEdge, RowForm;
    if edges == [] {
      ZeroRow(Zero(|ones|)[i], ones);
    } else {
      var k := |edges| - 1;
      var p := Ends(vertices, edges[k]);
      RowsSumToZero(vertices, edges[..k], ones, i);
      EdgeRow(LaplacianOf(vertices, edges[..k]), ones, p.0, p.1, i);
    }
  }

  // ---------- the interval of the eigenvalues ----------

  /** The first k terms of the sum of degree times squared entry. */
  ghost function DegreeNorm(vertices: seq<Digest>, edges: seq<Edge>, x: Vector, k: nat): real
    requires Connects(vertices, edges) && |x| == |vertices| && k <= |x|
  {
    if k == 0 then 0.0
    else DegreeNorm(vertices, edges, x, k - 1) + Mul(DegreeOf(vertices, edges, k - 1) as real, Square(x[k - 1]))
  }

  lemma {:induction false} DegreeNormStep(vertices: seq<Digest>, edges: seq<Edge>, x: Vector, k: nat)
    requires Connects(vertices, edges) && |x| == |vertices| && k <= |x| && edges != []
    ensures var n := |edges| - 1;
      var p := Ends(vertices, edges[n]);
      DegreeNorm(vertices, edges, x, k) == DegreeNorm(vertices, edges[..n], x, k)
        + (if p.0 != p.1 && p.0 < k then Square(x[p.0]) else 0.0) + (if p.0 != p.1 && p.1 < k then Square(x[p.1]) else 0.0)
  {
    hide Mul, Square;
    if k > 0 {
      DegreeNormStep(vertices, edges, x, k - 1);
      var n := |edges| - 1;
      var p := Ends(vertices, edges[n]);
      var before, after := DegreeOf(vertices, edges[..n], k - 1), DegreeOf(vertices, edges, k - 1);
      MulDistributes(Square(x[k - 1]), before as real, 1.0);
      MulUnits(Square(x[k - 1]));
    }
  }

  lemma {:induction false} EnergyBound(vertices: seq<Digest>, edges: seq<Edge>, x: Vector)
    requires Connects(vertices, edges) && |x| == |vertices|
    ensures 0.0 <= Energy(vertices, edges, x) <= 2.0 * DegreeNorm(vertices, edges, x, |x|)
  {
    hide Mul, Square;
    if edges == [] {
      NoDegrees(vertices, x, |x|);
    } else {
      var k := |edges| - 1;
      var p := Ends(vertices, edges[k]);
      EnergyBound(vertices, edges[..k], x);
      DegreeNormStep(vertices, edges, x, |x|);
      DifferenceSquared(x[p.0], x[p.1]);
      SquareNonNegative(x[p.0] - x[p.1]);
    }
  }

  lemma {:induction false} NoDegrees(vertices: seq<Digest>, x: Vector, k: nat)
    requires |x| == |vertices| && k <= |x|
    ensures DegreeNorm(vertices, [], x, k) == 0.0
  {
    hide Mul, Square;
    if k > 0 {
      NoDegrees(vertices, x, k - 1);
      MulUnits(Square(x[k - 1]));
    }
  }

  lemma {:induction false} DegreeNormBound(vertices: seq<Digest>, edges: seq<Edge>, x: Vector, d: nat, k: nat)
    requires Connects(vertices, edges) && |x| == |vertices| && k <= |x|
    requires forall i :: 0 <= i < |vertices| ==> DegreeOf(vertices, edges, i) <= d
    ensures DegreeNorm(vertices, edges, x, k) <= Mul(d as real, Norm(x, k))
  {
    hide Mul, Square;
    if k == 0 {
      MulUnits(d as real);
    } else {
      DegreeNormBound(vertices, edges, x, d, k - 1);
      SquareNonNegative(x[k - 1]);
      MulMonotone(DegreeOf(vertices, edges, k - 1) as real, d as real, Square(x[k - 1]));
      MulDistributes(d as real, Norm(x, k - 1), Square(x[k - 1]));
    }
  }

  lemma MulMonotone(a: real, b: real, c: real)
    requires a <= b && c >= 0.0
    ensures Mul(a, c) <= Mul(b, c)
  {
  }

  /** 0 <= x^T L x <= 2 * maxdeg * |x|^2 for every real x. */
  lemma FormBounds(vertices: seq<Digest>, edges: seq<Edge>, x: Vector, d: nat)
    requires Connects(vertices, edges) && |x| == |vertices|
    requires forall i :: 0 <= i < |vertices| ==> DegreeOf(vertices, edges, i) <= d
    ensures 0.0 <= Form(LaplacianOf(vertices, edges), x, |x|) <= 2.0 * Mul(d as real, Norm(x, |x|))
  {
    hide *;
    FormIsEnergy(vertices, edges, x);
    EnergyBound(vertices, edges, x);
    DegreeNormBound(vertices, edges, x, d, |x|);
  }

  ghost predicate IsEigenvector(m: Matrix, x: Vector, lambda: real)
    requires IsSquare(m, |x|)
  {
    && (forall i :: 0 <= i < |x| ==> RowForm(m[i], x) == Mul(lambda, x[i]))
    && exists i :: 0 <= i < |x| && x[i] != 0.0
  }

  lemma {:induction false} EigenForm(m: Matrix, x: Vector, lambda: real, k: nat)
    requires IsSquare(m, |x|) && IsEigenvector(m, x, lambda) && k <= |x|
    ensures Form(m, x, k) == Mul(lambda, Norm(x, k))
  {
    hide Mul;
    if k == 0 {
      MulUnits(lambda);
    } else {
      EigenForm(m, x, lambda, k - 1);
      MulDistributes(lambda, Norm(x, k - 1), Square(x[k - 1]));
      MulAssociates(x[k - 1], lambda, x[k - 1]);
      MulCommutes(x[k - 1], lambda);
      MulAssociates(lambda, x[k - 1], x[k - 1]);
    }
  }

  lemma {:induction false} NormPositive(x: Vector, k: nat)
    requires k <= |x|
    ensures Norm(x, k) >= 0.0
    ensures (exists i :: 0 <= i < k && x[i] != 0.0) ==> Norm(x, k) > 0.0
  {
    hide Square;
    if k > 0 {
      NormPositive(x, k - 1);
      SquareNonNegative(x[k - 1]);
    }
  }

  /** Every real eigenvalue lies in the interval that root isolation searches. */
  lemma EigenvalueBounds(vertices: seq<Digest>, edges: seq<Edge>, x: Vector, lambda: real, d: nat)
    requires Connects(vertices, edges) && |x| == |vertices| && IsEigenvector(LaplacianOf(vertices, edges), x, lambda)
    requires forall i :: 0 <= i < |vertices| ==> DegreeOf(vertices, edges, i) <= d
    ensures 0.0 <= lambda <= 2.0 * d as real
  {
    hide Mul, Form, Norm, LaplacianOf, DegreeOf, RowForm;
    FormBounds(vertices, edges, x, d);
    EigenForm(LaplacianOf(vertices, edges), x, lambda, |x|);
    NormPositive(x, |x|);
    Rayleigh(lambda, d as real, Norm(x, |x|));
  }

  lemma Rayleigh(lambda: real, d: real, norm: real)
    requires norm > 0.0 && 0.0 <= Mul(lambda, norm) <= 2.0 * Mul(d, norm)
    ensures 0.0 <= lambda <= 2.0 * d
  {
    hide Mul;
    var gap := lambda - d - d;
    SignOfProduct(gap, norm);
    SignOfProduct(lambda, norm);
    MulDistributes(norm, gap, d + d);
    MulDistributes(norm, d, d);
  }
}
