/** The spectral fingerprint of a window (`build_spectral` in geometry.py). */
module Spectral {
  import opened Actions
  import opened Graphs
  import opened Outcomes
  import opened Laplacian
  import Integers
  import Matrices
  import Spectrum
  import Isolation
  import SF = SquareFree

  const MAX_WINDOW := 32
  const MAX_SCALE := 64

  datatype Report = Report(coefficients: seq<int>, spectrum: seq<int>, previous: seq<int>, l2Delta: nat, ok: bool)

  /** `math.isqrt` */
  function Isqrt(n: nat): (r: nat)
    ensures r * r <= n < (r + 1) * (r + 1)
  {
    if n == 0 then 0
    else
      var r := Isqrt(n - 1);
      if (r + 1) * (r + 1) <= n then r + 1 else r
  }

  /** Zeros prepended up to the given width. */
  function Pad(s: seq<int>, width: nat): (r: seq<int>)
    requires |s| <= width
    ensures |r| == width
    ensures r[width - |s|..] == s
    ensures forall i :: 0 <= i < width - |s| ==> r[i] == 0
  {
    seq(width - |s|, _ => 0) + s
  }

  function SquaredDistance(a: seq<int>, b: seq<int>): nat
    requires |a| == |b|
  {
    if a == [] then 0
    else
      var k := |a| - 1;
      SquaredDistance(a[..k], b[..k]) + Square(a[k] - b[k])
  }

  function Square(n: int): (s: nat)
    ensures s == 0 <==> n == 0
  {
    SquareSign(n);
    n * n
  }

  lemma SquareSign(n: int)
    ensures n * n >= 0
    ensures n * n == 0 <==> n == 0
  {
  }

  lemma {:induction false} DistanceZero(a: seq<int>, b: seq<int>)
    requires |a| == |b|
    ensures SquaredDistance(a, b) == 0 <==> a == b
  {
    if a != [] {
      var k := |a| - 1;
      DistanceZero(a[..k], b[..k]);
      assert a == a[..k] + [a[k]] && b == b[..k] + [b[k]];
    }
  }

  function L2Delta(previous: seq<int>, current: seq<int>): nat {
    var width := if |previous| >= |current| then |previous| else |current|;
    Isqrt(SquaredDistance(Pad(previous, width), Pad(current, width)))
  }

  /** The change is zero just when the padded spectra are the same. */
  lemma DeltaZero(previous: seq<int>, current: seq<int>)
    ensures L2Delta(previous, current) == 0 <==>
      var width := if |previous| >= |current| then |previous| else |current|;
      Pad(previous, width) == Pad(current, width)
  {
    var width := if |previous| >= |current| then |previous| else |current|;
    var a, b := Pad(previous, width), Pad(current, width);
    DistanceZero(a, b);
    var d := SquaredDistance(a, b);
    assert Isqrt(d) == 0 ==> d < 1;
  }

  /** The k-th entry from the end, or zero beyond the beginning. */
  function FromEnd(s: seq<int>, k: nat): int {
    if k < |s| then s[|s| - 1 - k] else 0
  }

  /** The squared differences of two spectra that are aligned at their ends. */
  function Squares(a: seq<int>, b: seq<int>, width: nat): (t: seq<int>)
    ensures |t| == width
  {
    seq(width, i requires 0 <= i < width =>
      (FromEnd(a, width - 1 - i) - FromEnd(b, width - 1 - i)) * (FromEnd(a, width - 1 - i) - FromEnd(b, width - 1 - i)))
  }

  lemma {:induction false} DistanceIsTotal(a: seq<int>, b: seq<int>, t: seq<int>)
    requires |a| == |b| == |t| && forall i :: 0 <= i < |a| ==> t[i] == (a[i] - b[i]) * (a[i] - b[i])
    ensures SquaredDistance(a, b) == Integers.Total(t)
  {
    if a != [] {
      var k := |a| - 1;
      DistanceIsTotal(a[..k], b[..k], t[..k]);
    }
  }

  /** The change is the integer root of the sum of the squared differences, with the greatest
      eigenvalues facing each other and zeros before the shorter spectrum. */
  lemma DeltaMeans(previous: seq<int>, current: seq<int>)
    ensures var d, n := L2Delta(previous, current), if |previous| >= |current| then |previous| else |current|;
      d * d <= Integers.Total(Squares(previous, current, n)) < (d + 1) * (d + 1)
  {
    hide Isqrt, SquaredDistance, Pad, Squares;
    var n := if |previous| >= |current| then |previous| else |current|;
    SquaresOfPadded(previous, current, n);
    RootBounds(SquaredDistance(Pad(previous, n), Pad(current, n)));
  }

  lemma SquaresOfPadded(previous: seq<int>, current: seq<int>, n: nat)
    requires |previous| <= n && |current| <= n
    ensures SquaredDistance(Pad(previous, n), Pad(current, n)) == Integers.Total(Squares(previous, current, n))
  {
    var a, b, t := Pad(previous, n), Pad(current, n), Squares(previous, current, n);
    forall i | 0 <= i < n ensures a[i] == FromEnd(previous, n - 1 - i) && b[i] == FromEnd(current, n - 1 - i) {
      PadFromEnd(previous, n, i);
      PadFromEnd(current, n, i);
    }
    hide Pad, FromEnd;
    DistanceIsTotal(a, b, t);
  }

  lemma PadFromEnd(s: seq<int>, width: nat, i: nat)
    requires |s| <= width && i < width
    ensures Pad(s, width)[i] == FromEnd(s, width - 1 - i)
  {
  }

  lemma RootBounds(n: nat)
    ensures Isqrt(n) * Isqrt(n) <= n < (Isqrt(n) + 1) * (Isqrt(n) + 1)
  {
  }

  function UpperBound(maximumDegree: nat): nat {
    if 2 * maximumDegree >= 1 then 2 * maximumDegree else 1
  }

  ghost predicate IsMaximumDegree(g: Graph, d: nat)
    requires IsGraph(g)
  {
    && (forall i :: 0 <= i < |g.vertices| ==> DegreeOf(g.vertices, g.edges, i) <= d)
    && exists i :: 0 <= i < |g.vertices| && DegreeOf(g.vertices, g.edges, i) == d
  }

  /** What an accepted fingerprint is: the spectrum of the Laplacian of the graph. */
  ghost predicate IsFingerprint(g: Graph, scale: nat, maximum: nat, report: Report)
    requires IsGraph(g)
  {
    exists factors, problems, parts ::
      Spectrum.IsSpectrum(LaplacianOf(g.vertices, g.edges), scale, maximum, report.coefficients, report.spectrum,
        factors, problems, parts)
  }

  /** What every accepted fingerprint satisfies: it is the spectrum of the Laplacian on the grid up
      to twice the maximum degree, and its change is measured against the spectrum before. */
  ghost predicate IsReading(g: Graph, scale: nat, maxDelta: nat, previous: seq<int>, report: Report)
    requires IsGraph(g)
  {
    && (exists d :: IsMaximumDegree(g, d) && IsFingerprint(g, scale, Spectrum.Maximum(scale, UpperBound(d)), report))
    && |report.spectrum| == |g.vertices|
    && report.previous == previous
    && report.l2Delta == L2Delta(previous, report.spectrum)
    && (report.ok <==> report.l2Delta <= maxDelta)
  }

  /** Some factor of the Laplacian has roots that do not settle in the interval. */
  ghost predicate IsUnsettled(g: Graph, scale: nat)
    requires IsGraph(g)
  {
    exists d :: IsMaximumDegree(g, d)
      && Spectrum.IsUnsettled(LaplacianOf(g.vertices, g.edges), scale, Spectrum.Maximum(scale, UpperBound(d)))
  }

  /** A window of at most 32 actions never trips a guard on order, scale, bound or work: the only
      way to fail is a factor whose roots do not settle in the interval.  Every real eigenvalue is
      a root of some factor and lies in the interval (`Eigenvalues.EigenvaluesAreRoots`); that
      the roots of a factor are all real, and that sign variations count them, is not proved. */
  method BuildSpectral(g: Graph, actions: seq<Action>, h: Digests, scale: nat, maxDelta: nat, previous: seq<int>)
    returns (result: Result<Report>)
    requires IsActionGraph(g, actions, h) && IsStream(actions) && EdgesDoNotCollide(h, actions)
    requires 1 <= |actions| <= MAX_WINDOW && 1 <= scale <= MAX_SCALE
    ensures IsGraph(g)
    ensures result.Success? ==> IsReading(g, scale, maxDelta, previous, result.value)
    ensures result.Failure? ==> result.error == SpectrumInvalid && IsUnsettled(g, scale)
  {
    hide LaplacianOf, DegreeOf, Spectrum.IsSpectrum, Spectrum.IsUnsettled, Spectrum.Maximum, IsActionGraph, L2Delta;
    ActionGraphIsGraph(g, actions, h);
    GraphSize(g, actions, h);
    var matrix, maximumDegree := BuildLaplacian(g);
    assert IsMaximumDegree(g, maximumDegree);
    var upperBound := UpperBound(maximumDegree);
    var spectrum;
    ghost var factors, problems, parts;
    spectrum, factors, problems, parts := Spectrum.QuantizedRealSpectrum(matrix, scale, upperBound);
    if spectrum.Failure? {
      return Failure(spectrum.error);
    }
    var coefficients, roots := spectrum.value.0, spectrum.value.1;
    SpectrumSize(matrix, scale, Spectrum.Maximum(scale, upperBound), coefficients, roots, factors, problems, parts);
    var delta := L2Delta(previous, roots);
    result := Success(Report(coefficients, roots, previous, delta, delta <= maxDelta));
    assert IsFingerprint(g, scale, Spectrum.Maximum(scale, upperBound), result.value);
  }

  lemma GraphSize(g: Graph, actions: seq<Action>, h: Digests)
    requires IsActionGraph(g, actions, h) && |actions| >= 1
    ensures |g.edges| == |actions| && 1 <= |g.vertices| <= 2 * |actions|
  {
    var e := g.edges[0];
    assert e in g.edges;
    assert e.source in g.vertices;
  }

  lemma SpectrumSize(matrix: Matrices.Matrix, scale: nat, maximum: nat, coefficients: seq<int>, roots: seq<int>,
    factors: seq<SF.Factor>, problems: seq<Isolation.Problem>, parts: seq<seq<int>>)
    requires Matrices.IsSquare(matrix, |matrix|)
    requires Spectrum.IsSpectrum(matrix, scale, maximum, coefficients, roots, factors, problems, parts)
    ensures |roots| == |matrix|
  {
  }
}
