/** Root isolation on the quantization grid (`_quantized_factor_roots` in geometry_math.py). */
module Isolation {
  import opened Fractions
  import opened Outcomes
  import opened Polynomials
  import opened PolynomialRing
  import opened Euclid
  import opened Sturm

  const MAX_ISOLATION_POINTS := 1024

  datatype Sample = Sample(isRoot: bool, variations: nat)

  /** One call: the factor with its Sturm sequence, the grid spacing and the multiplicity. */
  datatype Problem = Problem(factor: Poly, sequence: seq<Poly>, scale: nat, multiplicity: nat) {

    function Point(q: int): real
      requires scale >= 1
    {
      q as real / scale as real
    }

    /** What `state` computes at a grid point. */
    function At(q: int): Sample
      requires scale >= 1
    {
      Sample(Eval(factor, Point(q)) == 0.0, Variations(sequence, Point(q)))
    }

    /** Roots at the point itself plus sign variations there: bucket counts are its differences. */
    function Height(q: int): nat
      requires scale >= 1
    {
      At(q).variations + if At(q).isRoot then 1 else 0
    }

    function Count(left: int, right: int): int
      requires scale >= 1
    {
      Height(left) - Height(right)
    }

    predicate BucketIsNatural(q: int)
      requires scale >= 1
    {
      Count(q, q + 1) >= 0
    }

    /** Sturm's theorem for this factor, as a hypothesis: no bucket has a negative count. */
    ghost predicate CountsAreNatural(left: int, right: int)
      requires scale >= 1
    {
      forall q :: left <= q < right ==> BucketIsNatural(q)
    }

    /** The linear scan that bisection replaces: every bucket in turn, with multiplicity. */
    ghost function Scan(left: int, right: int): seq<int>
      requires scale >= 1
      decreases right - left
    {
      if left >= right then []
      else Copies(left, Count(left, left + 1) * multiplicity) + Scan(left + 1, right)
    }
  }

  function Copies(q: int, n: int): seq<int> {
    if n <= 0 then [] else seq(n, _ => q)
  }

  // ---------- the scan ----------

  lemma {:induction false} ScanSplits(p: Problem, left: int, middle: int, right: int)
    requires p.scale >= 1 && left <= middle <= right
    ensures p.Scan(left, right) == p.Scan(left, middle) + p.Scan(middle, right)
    decreases middle - left
  {
    hide p.At, p.Count;
    if left < middle {
      ScanSplits(p, left + 1, middle, right);
    }
  }

  lemma {:induction false} CountsFall(p: Problem, left: int, right: int)
    requires p.scale >= 1 && left <= right && p.CountsAreNatural(left, right)
    ensures p.Count(left, right) >= 0
    decreases right - left
  {
    hide p.At;
    if left < right {
      assert p.BucketIsNatural(left);
      CountsFall(p, left + 1, right);
    }
  }

  /** A prefix of the grid whose count is zero holds nothing. */
  lemma {:induction false} EmptyScan(p: Problem, left: int, right: int)
    requires p.scale >= 1 && left <= right && p.CountsAreNatural(left, right) && p.Count(left, right) == 0
    ensures p.Scan(left, right) == []
    decreases right - left
  {
    hide p.At;
    if left < right {
      assert p.BucketIsNatural(left);
      CountsFall(p, left + 1, right);
      EmptyScan(p, left + 1, right);
    }
  }

  predicate Ascending(s: seq<int>) {
    forall i, j :: 0 <= i < j < |s| ==> s[i] <= s[j]
  }

  predicate Within(s: seq<int>, left: int, right: int) {
    forall i :: 0 <= i < |s| ==> left <= s[i] < right
  }

  // ---------- how deep bisection goes ----------

  function Depth(width: int): (d: nat) {
    if width <= 1 then 0 else 1 + Depth((width + 1) / 2)
  }

  lemma {:induction false} DepthGrows(a: int, b: int)
    requires a <= b
    ensures Depth(a) <= Depth(b)
    decreases b
  {
    if a > 1 {
      DepthGrows((a + 1) / 2, (b + 1) / 2);
    }
  }

  lemma GridDepth(width: int)
    requires width <= 4096
    ensures Depth(width) <= 12
  {
    DepthGrows(width, 4096);
    assert Depth(4096) == 1 + Depth(2048) && Depth(2048) == 1 + Depth(1024) && Depth(1024) == 1 + Depth(512);
    assert Depth(512) == 1 + Depth(256) && Depth(256) == 1 + Depth(128) && Depth(128) == 1 + Depth(64);
    assert Depth(64) == 1 + Depth(32) && Depth(32) == 1 + Depth(16) && Depth(16) == 1 + Depth(8);
    assert Depth(8) == 1 + Depth(4) && Depth(4) == 1 + Depth(2) && Depth(2) == 1 + Depth(1);
  }

  /** The points bisection may spend inside an interval that holds `count` roots. */
  function Budget(count: nat, width: int): nat {
    count * Depth(width)
  }

  /** The points spent on two halves and their middle stay within the budget of the whole. */
  lemma BudgetSplits(count: nat, leftCount: nat, left: int, middle: int, right: int)
    requires leftCount <= count && count >= 1 && right - left >= 2 && middle == (left + right) / 2
    ensures 1 + Budget(leftCount, middle - left) + Budget(count - leftCount, right - middle)
         <= Budget(count, right - left)
  {
    var depth := Depth(right - middle);
    assert right - middle == (right - left + 1) / 2;
    DepthGrows(middle - left, right - middle);
    hide Depth;
    assert leftCount * Depth(middle - left) <= leftCount * depth;
    assert leftCount * depth + (count - leftCount) * depth == count * depth;
    assert count * (1 + depth) == count * depth + count;
  }

  // ---------- what a bisected interval contributes ----------

  /** `count * multiplicity` grid points of the interval in ascending order; under Sturm's
      theorem, exactly the linear scan. */
  ghost predicate IsBucketed(p: Problem, added: seq<int>, left: int, right: int, count: nat)
    requires p.scale >= 1
  {
    && |added| == count * p.multiplicity
    && Ascending(added)
    && Within(added, left, right)
    && (p.CountsAreNatural(left, right) ==> added == p.Scan(left, right))
  }

  lemma NoBuckets(p: Problem, left: int, right: int)
    requires p.scale >= 1 && left <= right && p.Count(left, right) == 0
    ensures IsBucketed(p, [], left, right, 0)
  {
    hide p.At, p.Count, p.Scan;
    if p.CountsAreNatural(left, right) {
      EmptyScan(p, left, right);
    }
  }

  lemma OneBucket(p: Problem, q: int, count: nat)
    requires p.scale >= 1 && p.Count(q, q + 1) == count
    ensures IsBucketed(p, Copies(q, count * p.multiplicity), q, q + 1, count)
  {
    hide p.At, p.Count;
    assert p.Scan(q + 1, q + 1) == [];
    var added := Copies(q, count * p.multiplicity);
    assert |added| == count * p.multiplicity;
  }

  lemma TwoHalves(p: Problem, left: int, middle: int, right: int, a: seq<int>, b: seq<int>, count: nat, leftCount: nat)
    requires p.scale >= 1 && left <= middle <= right && leftCount <= count
    requires IsBucketed(p, a, left, middle, leftCount) && IsBucketed(p, b, middle, right, count - leftCount)
    ensures IsBucketed(p, a + b, left, right, count)
  {
    hide p.At, p.Count, p.Scan, p.BucketIsNatural;
    ScanSplits(p, left, middle, right);
    assert leftCount * p.multiplicity + (count - leftCount) * p.multiplicity == count * p.multiplicity;
  }

  // ---------- the algorithm ----------

  /** The counter that all factors of one spectrum share (`isolation_points`). */
  class WorkCounter {
    var points: nat

    constructor ()
      ensures points == 0
    {
      points := 0;
    }
  }

  class Isolator {
    const problem: Problem
    const counter: WorkCounter
    var states: map<int, Sample>
    var output: seq<int>

    constructor (problem: Problem, counter: WorkCounter)
      requires problem.scale >= 1
      ensures this.problem == problem && this.counter == counter
      ensures Valid() && states == map[] && output == []
    {
      this.problem := problem;
      this.counter := counter;
      states := map[];
      output := [];
    }

    ghost predicate Valid()
      reads this
    {
      problem.scale >= 1 && forall q :: q in states ==> states[q] == problem.At(q)
    }

    /** The memoised sample at a grid point. */
    method State(quantized: int) returns (result: Result<Sample>)
      requires Valid()
      modifies this`states, counter
      ensures Valid() && old(states).Keys <= states.Keys
      ensures result.Success? ==>
        && result.value == problem.At(quantized)
        && (result.value.isRoot <==> Eval(problem.factor, quantized as real / problem.scale as real) == 0.0)
        && result.value.variations == Variations(problem.sequence, quantized as real / problem.scale as real)
        && states.Keys == old(states).Keys + {quantized}
        && counter.points == old(counter.points) + if quantized in old(states) then 0 else 1
      ensures result.Failure? <==> quantized !in old(states) && old(counter.points) >= 1024
      ensures result.Failure? ==> result.error == SpectralWorkLimit
    {
      if quantized !in states {
        counter.points := counter.points + 1;
        if counter.points > MAX_ISOLATION_POINTS {
          return Failure(SpectralWorkLimit);
        }
        var point := problem.Point(quantized);
        var value := Evaluate(problem.factor, point);
        var variations := CountVariations(problem.sequence, point);
        states := states[quantized := Sample(value == 0.0, variations)];
      }
      result := Success(states[quantized]);
    }

    /** The points of {left, right} that have not been sampled yet. */
    ghost function Unsampled(left: int, right: int): nat
      reads this`states
    {
      (if left in states then 0 else 1) + (if right in states || right == left then 0 else 1)
    }

    method HalfOpenCount(left: int, right: int) returns (result: Result<nat>)
      requires Valid()
      modifies this`states, counter
      ensures Valid() && old(states).Keys <= states.Keys
      ensures result.Success? ==>
        && states.Keys == old(states).Keys + {left, right}
        && counter.points == old(counter.points) + old(Unsampled(left, right))
        && result.value == problem.Count(left, right)
      ensures result.Failure? ==>
        if result.error == SpectralWorkLimit then
          old(counter.points) + old(Unsampled(left, right)) > MAX_ISOLATION_POINTS
        else
          result.error == SpectrumInvalid && problem.Count(left, right) < 0
    {
      hide problem.At;
      var leftSample :- State(left);
      var rightSample :- State(right);
      var count := (if leftSample.isRoot then 1 else 0) + leftSample.variations
        - rightSample.variations - (if rightSample.isRoot then 1 else 0);
      if count < 0 {
        return Failure(SpectrumInvalid);
      }
      result := Success(count);
    }

    method Isolate(left: int, right: int, count: nat) returns (result: Result<()>, ghost added: seq<int>)
      requires Valid() && left < right && count == problem.Count(left, right)
      requires {left, right} <= states.Keys
      modifies this`states, this`output, counter
      ensures Valid() && old(states).Keys <= states.Keys
      ensures result.Success? ==>
        && counter.points <= old(counter.points) + Budget(count, right - left)
        && output == old(output) + added
        && IsBucketed(problem, added, left, right, count)
      ensures result.Failure? ==>
        if result.error == SpectralWorkLimit then
          old(counter.points) + Budget(count, right - left) > MAX_ISOLATION_POINTS
        else
          result.error == SpectrumInvalid && !problem.CountsAreNatural(left, right)
      decreases right - left
    {
      hide problem.At, IsBucketed, Budget, problem.CountsAreNatural;
      added := [];
      if count == 0 {
        NoBuckets(problem, left, right);
        return Success(()), added;
      }
      if right - left == 1 {
        added := Copies(left, count * problem.multiplicity);
        OneBucket(problem, left, count);
        output := output + Copies(left, count * problem.multiplicity);
        return Success(()), added;
      }
      var middle := (left + right) / 2;
      var half := HalfOpenCount(left, middle);
      if half.Failure? {
        FailureIsUnnatural(problem, left, middle, right);
        BudgetIsPositive(count, right - left);
        return Failure(half.error), added;
      }
      var leftCount := half.value;
      if leftCount > count {
        FailureIsUnnatural(problem, left, middle, right);
        return Failure(SpectrumInvalid), added;
      }
      BudgetSplits(count, leftCount, left, middle, right);
      UnnaturalPart(problem, left, middle, right);
      var first, before := Isolate(left, middle, leftCount);
      if first.Failure? {
        return first, added;
      }
      var second, after := Isolate(middle, right, count - leftCount);
      if second.Failure? {
        return second, added;
      }
      TwoHalves(problem, left, middle, right, before, after, count, leftCount);
      added := before + after;
      result := Success(());
    }
  }

  lemma FailureIsUnnatural(p: Problem, left: int, middle: int, right: int)
    requires p.scale >= 1 && left <= middle <= right
    ensures p.Count(left, middle) < 0 || p.Count(left, middle) > p.Count(left, right) ==>
      !p.CountsAreNatural(left, right)
  {
    hide p.At;
    if p.CountsAreNatural(left, right) {
      CountsFall(p, left, middle);
      CountsFall(p, middle, right);
    }
  }

  lemma UnnaturalPart(p: Problem, left: int, middle: int, right: int)
    requires p.scale >= 1 && left <= middle <= right
    ensures p.CountsAreNatural(left, right) ==> p.CountsAreNatural(left, middle) && p.CountsAreNatural(middle, right)
  {
    hide p.BucketIsNatural;
  }

  lemma BudgetIsPositive(count: nat, width: int)
    requires count >= 1 && width >= 2
    ensures Budget(count, width) >= 1
  {
    assert Depth(width) >= 1;
  }
}
