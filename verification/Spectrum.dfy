/** The quantized spectrum of an integer matrix (`_quantized_factor_roots` from its first count on,
    and `quantized_real_spectrum`, in geometry_math.py). */
module Spectrum {
  import opened Fractions
  import opened Outcomes
  import opened Polynomials
  import opened PolynomialRing
  import opened Euclid
  import opened SquareFree
  import opened Sturm
  import opened Isolation
  import opened KnownRoots
  import opened Sorting
  import FL = FaddeevLeVerrier
  import Matrices

  const MAX_SPECTRAL_SCALE := 64
  const MAX_SPECTRAL_UPPER_BOUND := 64

  /** The isolation problem of one factor. */
  ghost predicate IsProblem(p: Problem, f: Factor, scale: nat) {
    && p == Problem(f.factor, p.sequence, scale, f.multiplicity)
    && scale >= 1
    && IsSturmSequence(f.factor, p.sequence)
    && |p.sequence| <= Degree(f.factor) + 1
  }

  function RootAt(p: Problem, q: int): nat
    requires p.scale >= 1
  {
    if p.At(q).isRoot then 1 else 0
  }

  /** What the linear scan over [0, maximum] would list, the right end included. */
  ghost function FullScan(p: Problem, maximum: nat): seq<int>
    requires p.scale >= 1
  {
    p.Scan(0, maximum) + LastCopies(p, maximum)
  }

  /** By the count of sign variations, every root of the factor is real and lies in [0, maximum]. */
  ghost predicate Settles(p: Problem, maximum: nat)
    requires p.scale >= 1
  {
    p.CountsAreNatural(0, maximum) && p.Count(0, maximum) + RootAt(p, maximum) == Degree(p.factor)
  }

  ghost predicate IsAccepted(p: Problem, maximum: nat, roots: seq<int>)
    requires p.scale >= 1
  {
    && |roots| == p.multiplicity * Degree(p.factor)
    && Ascending(roots)
    && Within(roots, 0, maximum + 1)
    && p.Count(0, maximum) + RootAt(p, maximum) == Degree(p.factor)
    && (p.CountsAreNatural(0, maximum) ==> roots == FullScan(p, maximum))
  }

  /** The points a factor of this degree may evaluate: two ends and twelve halvings a root. */
  function FactorBudget(degree: nat): nat {
    2 + 12 * degree
  }

  lemma HeightBound(p: Problem, q: int)
    requires p.scale >= 1 && |p.sequence| >= 2 && p.sequence[0] == p.factor
    ensures p.Height(q) <= |p.sequence| - 1
  {
    hide Eval;
  }

  lemma BudgetBound(count: nat, degree: nat, width: nat)
    requires count <= degree && 1 <= width <= 4096
    ensures Budget(count, width) <= 12 * degree
  {
    GridDepth(width);
    hide Depth;
    assert count * Depth(width) <= count * 12;
  }

  function LastCopies(p: Problem, maximum: nat): seq<int>
    requires p.scale >= 1
  {
    if p.At(maximum).isRoot then Copies(maximum, p.multiplicity) else []
  }

  lemma AppendMaximum(p: Problem, below: seq<int>, maximum: nat, count: nat)
    requires p.scale >= 1 && IsBucketed(p, below, 0, maximum, count) && count == p.Count(0, maximum)
    requires count + RootAt(p, maximum) == Degree(p.factor)
    ensures IsAccepted(p, maximum, below + LastCopies(p, maximum))
  {
    hide p.At, p.Scan, p.CountsAreNatural, p.Count;
    var last, m := LastCopies(p, maximum), p.multiplicity;
    assert |last| == RootAt(p, maximum) * m;
    LengthAdds(count, RootAt(p, maximum), m);
    assert forall i :: 0 <= i < |last| ==> last[i] == maximum;
    JoinAscending(below, last, maximum);
  }

  lemma LengthAdds(a: nat, b: nat, m: nat)
    ensures a * m + b * m == m * (a + b)
  {
  }

  lemma JoinAscending(below: seq<int>, last: seq<int>, maximum: nat)
    requires Ascending(below) && Within(below, 0, maximum)
    requires forall i :: 0 <= i < |last| ==> last[i] == maximum
    ensures Ascending(below + last) && Within(below + last, 0, maximum + 1)
  {
  }

  /** The right end of the quantization grid. */
  function Maximum(scale: nat, upperBound: nat): nat {
    upperBound * scale
  }

  /** Where sign variations count the roots, the factor settles. */
  lemma KnownSettles(p: Problem, roots: seq<real>, upper: nat)
    requires p.scale >= 1 && AreRoots(p.factor, roots, upper) && CountsRoots(p, roots)
    ensures Settles(p, Maximum(p.scale, upper))
  {
    var maximum := Maximum(p.scale, upper);
    GridEnd(p.scale, upper);
    CountsAreNatural(p, roots, 0, maximum);
    AllAtLeast(roots, 0.0);
    LastAtLeast(roots, upper as real);
    assert p.Height(0) == AtLeast(roots, 0 as real / p.scale as real);
    assert p.Height(maximum) == AtLeast(roots, maximum as real / p.scale as real);
    hide Problem.Height, Eval;
  }

  /** And the output is the bucket of every root: its floor on the grid. */
  lemma KnownBuckets(p: Problem, roots: seq<real>, upper: nat, output: seq<int>)
    requires p.scale >= 1 && AreRoots(p.factor, roots, upper) && CountsRoots(p, roots)
    requires IsAccepted(p, Maximum(p.scale, upper), output)
    ensures output == Buckets(roots, p.scale, p.multiplicity)
  {
    hide Problem.Height, Problem.Count, Problem.Scan, Buckets, Listed, CountsRoots;
    var maximum := Maximum(p.scale, upper);
    GridEnd(p.scale, upper);
    CountsAreNatural(p, roots, 0, maximum);
    ScanOfRoots(p, roots, 0, maximum);
    ListedWhole(roots, p.scale, p.multiplicity, upper);
    assert p.At(maximum).isRoot <==> upper as real in roots;
    assert LastCopies(p, maximum) == if upper as real in roots then seq(p.multiplicity, _ => maximum) else [];
  }

  /** What is known of a factor: its roots, which either are at most two or are counted. */
  ghost predicate HasRoots(p: Problem, roots: seq<real>, upper: nat)
    requires p.scale >= 1
  {
    AreRoots(p.factor, roots, upper) && (Degree(p.factor) <= 2 || CountsRoots(p, roots))
  }

  lemma RootsAreCounted(p: Problem, f: Factor, roots: seq<real>, upper: nat, scale: nat)
    requires IsProblem(p, f, scale) && IsMonic(f.factor) && Degree(f.factor) >= 1 && HasRoots(p, roots, upper)
    ensures CountsRoots(p, roots)
  {
    hide IsSturmSequence, CountsRoots, AreRoots;
    if Degree(p.factor) <= 2 {
      SmallFactorsCount(p, roots, upper);
    }
  }

  /** Accepted output for known roots, and no rejection. */
  lemma KnownOutcome(p: Problem, f: Factor, scale: nat, upper: nat)
    requires IsProblem(p, f, scale) && IsMonic(f.factor) && Degree(f.factor) >= 1
    ensures forall roots :: HasRoots(p, roots, upper) ==> Settles(p, Maximum(scale, upper))
    ensures forall roots, output :: HasRoots(p, roots, upper) && IsAccepted(p, Maximum(scale, upper), output) ==>
      output == Buckets(roots, scale, f.multiplicity)
  {
    hide IsSturmSequence, CountsRoots, AreRoots, HasRoots, IsAccepted, Settles, Buckets, Maximum;
    forall roots | HasRoots(p, roots, upper) ensures Settles(p, Maximum(scale, upper)) {
      RootsAreCounted(p, f, roots, upper, scale);
      RootsAreRoots(p, roots, upper);
      KnownSettles(p, roots, upper);
    }
    forall roots, output | HasRoots(p, roots, upper) && IsAccepted(p, Maximum(scale, upper), output)
      ensures output == Buckets(roots, scale, f.multiplicity)
    {
      RootsAreCounted(p, f, roots, upper, scale);
      RootsAreRoots(p, roots, upper);
      KnownBuckets(p, roots, upper, output);
    }
  }

  /** A factor x - c whose root lies in the interval. */
  predicate IsLinear(factor: Poly, upper: nat) {
    |factor| == 2 && factor[1] == 1.0 && 0.0 <= -factor[0] <= upper as real
  }

  lemma LinearOutcome(p: Problem, upper: nat)
    requires p.scale >= 1
    ensures IsLinear(p.factor, upper) ==>
      && HasRoots(p, [-p.factor[0]], upper)
      && var buckets := Buckets([-p.factor[0]], p.scale, p.multiplicity);
      |buckets| == p.multiplicity
      && forall i :: 0 <= i < p.multiplicity ==> buckets[i] == (-p.factor[0] * p.scale as real).Floor
  {
    hide Mul, Eval, CountsRoots;
    if IsLinear(p.factor, upper) {
      var c := -p.factor[0];
      forall x: real ensures Eval(p.factor, x) == 0.0 <==> x in [c] {
        LinearValue(p.factor, x);
        MulUnits(x);
      }
      assert [c][1..] == [] && Buckets([], p.scale, p.multiplicity) == [];
    }
  }

  lemma RootsAreRoots(p: Problem, roots: seq<real>, upper: nat)
    requires p.scale >= 1 && HasRoots(p, roots, upper)
    ensures AreRoots(p.factor, roots, upper)
  {
  }

  /** `_quantized_factor_roots`: bisection of the whole interval, and the end of it by itself. */
  method IsolatedRoots(f: Factor, scale: nat, upperBound: nat, counter: WorkCounter)
    returns (result: Result<seq<int>>, ghost problem: Problem)
    requires IsMonic(f.factor) && Degree(f.factor) >= 1
    requires 1 <= scale <= MAX_SPECTRAL_SCALE && 1 <= upperBound <= MAX_SPECTRAL_UPPER_BOUND
    modifies counter
    ensures IsProblem(problem, f, scale)
    ensures result.Success? ==>
      && IsAccepted(problem, Maximum(scale, upperBound), result.value)
      && counter.points <= old(counter.points) + FactorBudget(Degree(f.factor))
    ensures result.Failure? ==>
      if result.error == SpectralWorkLimit then
        old(counter.points) + FactorBudget(Degree(f.factor)) > MAX_ISOLATION_POINTS
      else
        result.error == SpectrumInvalid && !Settles(problem, Maximum(scale, upperBound))
  {
    hide Eval, Mul, IsSturmSequence, Budget, IsBucketed, Monic, IsAccepted;
    var sequence := SturmSequence(f.factor);
    SturmStarts(f.factor, sequence);
    var maximum := Maximum(scale, upperBound);
    GridWidth(scale, upperBound);
    hide Maximum;
    var p := Problem(f.factor, sequence, scale, f.multiplicity);
    problem := p;
    HeightBound(p, 0);
    hide Problem.Height, Problem.At;
    var isolator := new Isolator(p, counter);
    var whole := isolator.HalfOpenCount(0, maximum);
    if whole.Failure? {
      WholeCountFails(p, maximum);
      return Failure(whole.error), problem;
    }
    var belowMaximum := whole.value;
    BudgetBound(belowMaximum, Degree(f.factor), maximum);
    var isolated, below := isolator.Isolate(0, maximum, belowMaximum);
    if isolated.Failure? {
      return Failure(isolated.error), problem;
    }
    var last := isolator.State(maximum);
    var output := isolator.output;
    if last.value.isRoot {
      output := output + Copies(maximum, f.multiplicity);
    }
    if belowMaximum + (if last.value.isRoot then 1 else 0) != |f.factor| - 1 {
      return Failure(SpectrumInvalid), problem;
    }
    AppendMaximum(p, below, maximum, belowMaximum);
    assert output == below + LastCopies(p, maximum);
    result := Success(output);
  }

  /** The same, with what it comes to where the roots are known. */
  method QuantizedFactorRoots(f: Factor, scale: nat, upperBound: nat, counter: WorkCounter)
    returns (result: Result<seq<int>>, ghost problem: Problem)
    requires IsMonic(f.factor) && Degree(f.factor) >= 1
    requires 1 <= scale <= MAX_SPECTRAL_SCALE && 1 <= upperBound <= MAX_SPECTRAL_UPPER_BOUND
    modifies counter
    ensures IsProblem(problem, f, scale)
    ensures result.Success? ==>
      && IsAccepted(problem, Maximum(scale, upperBound), result.value)
      && counter.points <= old(counter.points) + FactorBudget(Degree(f.factor))
    ensures result.Failure? ==>
      if result.error == SpectralWorkLimit then
        old(counter.points) + FactorBudget(Degree(f.factor)) > MAX_ISOLATION_POINTS
      else
        result.error == SpectrumInvalid && !Settles(problem, Maximum(scale, upperBound))
    // for known roots: no rejection while there is work left, and the floor of each root on the grid
    ensures old(counter.points) + FactorBudget(Degree(f.factor)) <= MAX_ISOLATION_POINTS ==>
      && (forall roots :: HasRoots(problem, roots, upperBound) ==> result == Success(Buckets(roots, scale, f.multiplicity)))
      && (IsLinear(f.factor, upperBound) ==>
        && result.Success? && |result.value| == f.multiplicity
        && forall i :: 0 <= i < f.multiplicity ==> result.value[i] == (-f.factor[0] * scale as real).Floor)
  {
    hide IsAccepted, HasRoots, Buckets, IsProblem, Settles, IsLinear, Maximum, FactorBudget;
    result, problem := IsolatedRoots(f, scale, upperBound, counter);
    ProblemParts(problem, f, scale);
    KnownOutcome(problem, f, scale, upperBound);
    LinearOutcome(problem, upperBound);
  }

  lemma ProblemParts(p: Problem, f: Factor, scale: nat)
    requires IsProblem(p, f, scale)
    ensures p.factor == f.factor && p.scale == scale && p.multiplicity == f.multiplicity
  {
    hide IsSturmSequence;
  }

  lemma SturmStarts(p: Poly, s: seq<Poly>)
    requires IsSturmSequence(p, s) && IsMonic(p)
    ensures |s| >= 2 && s[0] == p
  {
    hide Monic, Derivative;
  }

  lemma GridWidth(scale: nat, upperBound: nat)
    requires 1 <= scale <= 64 && 1 <= upperBound <= 64
    ensures 1 <= Maximum(scale, upperBound) <= 4096
  {
  }

  lemma WholeCountFails(p: Problem, maximum: nat)
    requires p.scale >= 1
    ensures p.Count(0, maximum) < 0 ==> !p.CountsAreNatural(0, maximum)
  {
    hide p.At, p.Height;
    if p.CountsAreNatural(0, maximum) {
      CountsFall(p, 0, maximum);
    }
  }

  // ---------- all factors of a characteristic polynomial ----------

  /** Ascending rational coefficients from the descending integer ones. */
  function ToPolynomial(c: seq<int>): (p: Poly)
    requires |c| >= 2 && c[0] == 1
    ensures IsMonic(p) && Degree(p) == |c| - 1
  {
    seq(|c|, i requires 0 <= i < |c| => c[|c| - 1 - i] as real)
  }

  function WeightedDegree(factors: seq<Factor>): nat {
    if factors == [] then 0
    else
      var n := |factors| - 1;
      WeightedDegree(factors[..n]) + factors[n].multiplicity * Degree(factors[n].factor)
  }

  /** The degrees of a factorization, weighted by multiplicity, add up to the degree. */
  lemma {:induction false} ProductDegree(factors: seq<Factor>)
    requires AreFactors(factors)
    ensures PowerProduct(factors) != ZERO && Degree(PowerProduct(factors)) == WeightedDegree(factors)
  {
    hide Times, Mul, Pow, AreFactors;
    if factors != [] {
      var n := |factors| - 1;
      FewerFactors(factors, n);
      ProductDegree(factors[..n]);
      var last, power := factors[n], Pow(factors[n].factor, factors[n].multiplicity);
      assert PowerProduct(factors) == Times(PowerProduct(factors[..n]), power);
      assert WeightedDegree(factors) == WeightedDegree(factors[..n]) + last.multiplicity * Degree(last.factor);
      hide PowerProduct, WeightedDegree;
      PowDegree(last.factor, last.multiplicity);
    }
  }

  lemma FewerFactors(factors: seq<Factor>, n: nat)
    requires AreFactors(factors) && n < |factors|
    ensures AreFactors(factors[..n])
    ensures IsMonic(factors[n].factor) && Degree(factors[n].factor) >= 1 && factors[n].multiplicity >= 1
    ensures factors[n].factor != ZERO
  {
    hide IsSquareFree, Coprime;
  }

  function TotalBudget(factors: seq<Factor>): nat {
    if factors == [] then 0
    else
      var n := |factors| - 1;
      TotalBudget(factors[..n]) + FactorBudget(Degree(factors[n].factor))
  }

  /** All factors together stay below fourteen points for every unit of degree. */
  lemma {:induction false} TotalBudgetBound(factors: seq<Factor>)
    requires AreFactors(factors)
    ensures TotalBudget(factors) <= 14 * WeightedDegree(factors)
  {
    hide AreFactors;
    if factors != [] {
      var n := |factors| - 1;
      FewerFactors(factors, n);
      TotalBudgetBound(factors[..n]);
      var m, d := factors[n].multiplicity, Degree(factors[n].factor);
      assert TotalBudget(factors) == TotalBudget(factors[..n]) + FactorBudget(d);
      assert WeightedDegree(factors) == WeightedDegree(factors[..n]) + m * d;
      hide TotalBudget, WeightedDegree;
      AtLeastDegree(m, d);
    }
  }

  lemma AtLeastDegree(m: nat, d: nat)
    requires m >= 1
    ensures m * d >= d
  {
  }

  lemma {:induction false} TotalBudgetGrows(factors: seq<Factor>, n: nat)
    requires n <= |factors|
    ensures TotalBudget(factors[..n]) <= TotalBudget(factors)
    decreases |factors|
  {
    if n < |factors| {
      var m := |factors| - 1;
      assert factors[..m][..n] == factors[..n];
      TotalBudgetGrows(factors[..m], n);
    } else {
      assert factors[..n] == factors;
    }
  }

  function Flatten(parts: seq<seq<int>>): seq<int> {
    if parts == [] then [] else Flatten(parts[..|parts| - 1]) + parts[|parts| - 1]
  }

  /** One accepted list of roots for every factor handled so far. */
  ghost predicate ArePortions(factors: seq<Factor>, problems: seq<Problem>, parts: seq<seq<int>>, scale: nat, maximum: nat) {
    && |problems| == |parts| <= |factors|
    && forall i :: 0 <= i < |problems| ==>
      IsProblem(problems[i], factors[i], scale) && IsAccepted(problems[i], maximum, parts[i])
  }

  lemma {:induction false} PortionsFill(factors: seq<Factor>, problems: seq<Problem>, parts: seq<seq<int>>, scale: nat, maximum: nat, n: nat)
    requires ArePortions(factors, problems, parts, scale, maximum) && n <= |parts|
    ensures |Flatten(parts[..n])| == WeightedDegree(factors[..n])
    ensures Within(Flatten(parts[..n]), 0, maximum + 1)
  {
    hide IsSturmSequence;
    if n > 0 {
      var m := n - 1;
      assert parts[..n][..m] == parts[..m] && factors[..n][..m] == factors[..m];
      PortionsFill(factors, problems, parts, scale, maximum, m);
      assert IsProblem(problems[m], factors[m], scale) && IsAccepted(problems[m], maximum, parts[m]);
    }
  }

  lemma PortionsExtend(factors: seq<Factor>, problems: seq<Problem>, parts: seq<seq<int>>, scale: nat, maximum: nat, p: Problem, part: seq<int>)
    requires ArePortions(factors, problems, parts, scale, maximum) && |parts| < |factors|
    requires IsProblem(p, factors[|parts|], scale) && IsAccepted(p, maximum, part)
    ensures ArePortions(factors, problems + [p], parts + [part], scale, maximum)
    ensures Flatten(parts + [part]) == Flatten(parts) + part
  {
    hide IsProblem, IsAccepted;
    assert (parts + [part])[..|parts|] == parts;
  }

  lemma WithinByElements(a: seq<int>, b: seq<int>, low: int, high: int)
    requires multiset(a) == multiset(b) && Within(a, low, high)
    ensures Within(b, low, high) && |a| == |b|
  {
    assert |multiset(a)| == |a| && |multiset(b)| == |b|;
    forall i | 0 <= i < |b| ensures low <= b[i] < high {
      assert b[i] in multiset(a);
    }
  }

  predicate IsAdmissible(matrix: Matrices.Matrix, scale: int, upperBound: int) {
    && 1 <= scale <= 64
    && 1 <= upperBound <= 64
    && 1 <= |matrix| <= 64
    && Matrices.IsSquare(matrix, |matrix|)
  }

  /** The loop over all factors, which share one work counter. */
  method CollectRoots(factors: seq<Factor>, scale: nat, upperBound: nat)
    returns (result: Result<seq<int>>, ghost problems: seq<Problem>, ghost parts: seq<seq<int>>)
    requires 1 <= scale <= MAX_SPECTRAL_SCALE && 1 <= upperBound <= MAX_SPECTRAL_UPPER_BOUND
    requires AreFactors(factors) && TotalBudget(factors) <= MAX_ISOLATION_POINTS
    ensures result.Success? ==>
      && |parts| == |factors| && ArePortions(factors, problems, parts, scale, Maximum(scale, upperBound))
      && result.value == Flatten(parts)
    ensures result.Failure? ==> result.error == SpectrumInvalid && SomeUnsettled(factors, scale, Maximum(scale, upperBound))
  {
    hide Maximum, AreFactors, IsProblem, IsAccepted, ArePortions, Settles, SomeUnsettled, TotalBudget, Flatten;
    var roots: seq<int> := [];
    var counter := new WorkCounter();
    problems, parts := [], [];
    ghost var maximum := Maximum(scale, upperBound);
    NoPortions(factors, scale, maximum);
    for index := 0 to |factors|
      invariant counter.points <= TotalBudget(factors[..index])
      invariant |problems| == |parts| == index
      invariant ArePortions(factors, problems, parts, scale, maximum)
      invariant roots == Flatten(parts)
      invariant fresh(counter)
    {
      FewerFactors(factors, index);
      BudgetStep(factors, index);
      var portion, problem := QuantizedFactorRoots(factors[index], scale, upperBound, counter);
      if portion.Failure? {
        OneUnsettled(factors, index, problem, scale, maximum);
        return Failure(portion.error), problems, parts;
      }
      PortionsExtend(factors, problems, parts, scale, maximum, problem, portion.value);
      problems, parts := problems + [problem], parts + [portion.value];
      roots := roots + portion.value;
    }
    result := Success(roots);
  }

  /** The roots of one of the factors do not settle in the interval. */
  ghost predicate SomeUnsettled(factors: seq<Factor>, scale: nat, maximum: nat) {
    exists i, p :: 0 <= i < |factors| && IsProblem(p, factors[i], scale) && !Settles(p, maximum)
  }

  lemma OneUnsettled(factors: seq<Factor>, index: nat, p: Problem, scale: nat, maximum: nat)
    requires index < |factors| && IsProblem(p, factors[index], scale)
    ensures p.scale >= 1 && (!Settles(p, maximum) ==> SomeUnsettled(factors, scale, maximum))
  {
    hide Settles, IsSturmSequence;
  }

  /** The square-free factorization of the characteristic polynomial. */
  ghost predicate IsFactored(matrix: Matrices.Matrix, coefficients: seq<int>, factors: seq<Factor>)
    requires Matrices.IsSquare(matrix, |matrix|)
  {
    && FL.IsCharacteristic(matrix, |matrix|, coefficients)
    && |coefficients| == |matrix| + 1 >= 2 && coefficients[0] == 1
    && AreFactors(factors) && PowerProduct(factors) == ToPolynomial(coefficients)
  }

  /** A square-free factor of the characteristic polynomial has roots that do not settle. */
  ghost predicate IsUnsettled(matrix: Matrices.Matrix, scale: nat, maximum: nat) {
    Matrices.IsSquare(matrix, |matrix|)
    && exists coefficients, factors :: IsFactored(matrix, coefficients, factors) && SomeUnsettled(factors, scale, maximum)
  }

  lemma BudgetStep(factors: seq<Factor>, index: nat)
    requires index < |factors|
    ensures TotalBudget(factors[..index + 1])
         == TotalBudget(factors[..index]) + FactorBudget(Degree(factors[index].factor))
    ensures TotalBudget(factors[..index + 1]) <= TotalBudget(factors)
  {
    assert factors[..index + 1][..index] == factors[..index];
    TotalBudgetGrows(factors, index + 1);
  }

  /** An accepted spectrum: the characteristic coefficients, and one list of grid points per
      square-free factor, merged in ascending order. */
  ghost predicate IsSpectrum(matrix: Matrices.Matrix, scale: nat, maximum: nat,
    coefficients: seq<int>, roots: seq<int>,
    factors: seq<Factor>, problems: seq<Problem>, parts: seq<seq<int>>)
    requires Matrices.IsSquare(matrix, |matrix|)
  {
    && IsFactored(matrix, coefficients, factors)
    && |parts| == |factors| && ArePortions(factors, problems, parts, scale, maximum)
    && multiset(roots) == multiset(Flatten(parts))
    && Ascending(roots)
    && Within(roots, 0, maximum + 1)
    && |roots| == |matrix|
  }

  /** `quantized_real_spectrum`.  The error for a wrong number of roots and the work limit are
      unreachable: the only failure of an admissible call is a factor whose roots do not settle. */
  method QuantizedRealSpectrum(matrix: Matrices.Matrix, scale: int, upperBound: int)
    returns (result: Result<(seq<int>, seq<int>)>,
      ghost factors: seq<Factor>, ghost problems: seq<Problem>, ghost parts: seq<seq<int>>)
    ensures result.Failure? ==> result.error == SpectrumInvalid
    ensures result.Success? ==> IsAdmissible(matrix, scale, upperBound)
    ensures result.Success? ==> IsSpectrum(matrix, scale, Maximum(scale, upperBound),
      result.value.0, result.value.1, factors, problems, parts)
    ensures result.Failure? && IsAdmissible(matrix, scale, upperBound) ==>
      IsUnsettled(matrix, scale, Maximum(scale, upperBound))
  {
    hide Maximum, PowerProduct, AreFactors, ArePortions, SomeUnsettled, FL.IsCharacteristic, Monic,
      IsSpectrum, TotalBudget, WeightedDegree, Flatten, Sort;
    factors, problems, parts := [], [], [];
    if !(1 <= scale <= MAX_SPECTRAL_SCALE) {
      return Failure(SpectrumInvalid), factors, problems, parts;
    }
    if !(1 <= upperBound <= MAX_SPECTRAL_UPPER_BOUND) {
      return Failure(SpectrumInvalid), factors, problems, parts;
    }
    var characteristic := FL.CharacteristicPolynomial(matrix);
    if characteristic.Failure? {
      return Failure(SpectrumInvalid), factors, problems, parts;
    }
    var coefficients := characteristic.value;
    CharacteristicShape(matrix, coefficients);
    var polynomial := ToPolynomial(coefficients);
    var all := SquareFreeFactors(polynomial);
    factors := all;
    TotalBudgetBound(factors);
    ProductDegree(factors);
    var collected;
    collected, problems, parts := CollectRoots(all, scale, upperBound);
    if collected.Failure? {
      assert IsFactored(matrix, coefficients, factors);
      return Failure(collected.error), factors, problems, parts;
    }
    var roots := Sort(collected.value, AtMost);
    SpectrumAssembles(matrix, scale, Maximum(scale, upperBound), coefficients, collected.value, factors, problems, parts);
    if |roots| != |matrix| {
      assert false;
    }
    result := Success((coefficients, roots));
  }

  lemma SpectrumAssembles(matrix: Matrices.Matrix, scale: nat, maximum: nat, coefficients: seq<int>, roots: seq<int>,
    factors: seq<Factor>, problems: seq<Problem>, parts: seq<seq<int>>)
    requires Matrices.IsSquare(matrix, |matrix|) && FL.IsCharacteristic(matrix, |matrix|, coefficients)
    requires |coefficients| == |matrix| + 1 >= 2 && coefficients[0] == 1
    requires AreFactors(factors) && PowerProduct(factors) == ToPolynomial(coefficients)
    requires |parts| == |factors| && ArePortions(factors, problems, parts, scale, maximum) && roots == Flatten(parts)
    ensures IsSpectrum(matrix, scale, maximum, coefficients, Sort(roots, AtMost), factors, problems, parts)
    ensures |Sort(roots, AtMost)| == |matrix|
  {
    hide FL.IsCharacteristic, AreFactors, PowerProduct, ArePortions, Sort, Flatten, Ascending, Within;
    ProductDegree(factors);
    assert factors[..|factors|] == factors && parts[..|parts|] == parts;
    PortionsFill(factors, problems, parts, scale, maximum, |parts|);
    SortedAscends(roots);
    WithinByElements(roots, Sort(roots, AtMost), 0, maximum + 1);
  }

  lemma CharacteristicShape(matrix: Matrices.Matrix, c: seq<int>)
    requires Matrices.IsSquare(matrix, |matrix|) && FL.IsCharacteristic(matrix, |matrix|, c)
    ensures |c| == |matrix| + 1 && c[0] == 1
  {
  }

  lemma NoPortions(factors: seq<Factor>, scale: nat, maximum: nat)
    ensures ArePortions(factors, [], [], scale, maximum) && Flatten([]) == []
  {
  }

  lemma SortedAscends(s: seq<int>)
    ensures Ascending(Sort(s, AtMost)) && multiset(Sort(s, AtMost)) == multiset(s)
  {
    SortSorts(s, AtMost);
    assert forall i, j :: 0 <= i < j < |s| ==> AtMost(Sort(s, AtMost)[i], Sort(s, AtMost)[j]);
  }
}
