/** Isolation measured against real roots that are known: the output is the floor of every root on the
    grid, whenever sign variations count the roots, as they do for linear and quadratic factors. */
module KnownRoots {
  import opened Fractions
  import opened Polynomials
  import opened PolynomialRing
  import opened Euclid
  import opened Sturm
  import opened Isolation

  // ---------- roots in order ----------

  predicate Increases(roots: seq<real>) {
    forall i, j :: 0 <= i < j < |roots| ==> roots[i] < roots[j]
  }

  /** How many of the roots are at least x. */
  function AtLeast(roots: seq<real>, x: real): (n: nat)
    ensures n <= |roots|
  {
    if roots == [] then 0 else (if roots[0] >= x then 1 else 0) + AtLeast(roots[1..], x)
  }

  /** The bucket of a root on a grid with that many points to the unit. */
  function Bucket(root: real, scale: nat): int {
    (root * scale as real).Floor
  }

  /** The buckets of the roots, each as often as the multiplicity says. */
  function Buckets(roots: seq<real>, scale: nat, multiplicity: nat): seq<int> {
    if roots == [] then []
    else seq(multiplicity, _ => Bucket(roots[0], scale)) + Buckets(roots[1..], scale, multiplicity)
  }

  /** Those of them in [left, right). */
  function Listed(roots: seq<real>, scale: nat, multiplicity: nat, left: int, right: int): seq<int> {
    if roots == [] then []
    else
      (if left <= Bucket(roots[0], scale) < right then seq(multiplicity, _ => Bucket(roots[0], scale)) else [])
      + Listed(roots[1..], scale, multiplicity, left, right)
  }

  function InBucket(roots: seq<real>, scale: nat, q: int): nat {
    if roots == [] then 0 else (if Bucket(roots[0], scale) == q then 1 else 0) + InBucket(roots[1..], scale, q)
  }

  lemma BucketBounds(root: real, scale: nat, q: int)
    requires scale >= 1
    ensures root >= q as real / scale as real <==> Bucket(root, scale) >= q
  {
    var x := root * scale as real;
    assert q as real / scale as real * scale as real == q as real;
    OrderScales(root, q as real / scale as real, scale as real);
    assert x >= q as real <==> x.Floor >= q;
  }

  lemma OrderScales(a: real, b: real, s: real)
    requires s > 0.0
    ensures a >= b <==> a * s >= b * s
  {
    if a >= b {
      assert (a - b) * s >= 0.0;
    } else {
      assert (b - a) * s > 0.0;
    }
  }

  lemma {:induction false} BucketCount(roots: seq<real>, scale: nat, q: int)
    requires scale >= 1
    ensures AtLeast(roots, q as real / scale as real) - AtLeast(roots, (q + 1) as real / scale as real)
         == InBucket(roots, scale, q)
  {
    hide Bucket;
    if roots != [] {
      BucketCount(roots[1..], scale, q);
      BucketBounds(roots[0], scale, q);
      BucketBounds(roots[0], scale, q + 1);
    }
  }

  lemma BucketsAscend(a: real, b: real, scale: nat)
    requires a <= b
    ensures Bucket(a, scale) <= Bucket(b, scale)
  {
    assert (b - a) * scale as real >= 0.0;
  }

  lemma {:induction false} NoneInBucket(roots: seq<real>, scale: nat, q: int)
    requires forall i :: 0 <= i < |roots| ==> Bucket(roots[i], scale) > q
    ensures InBucket(roots, scale, q) == 0
  {
    hide Bucket;
    if roots != [] {
      NoneInBucket(roots[1..], scale, q);
    }
  }

  lemma {:induction false} ListedFrom(roots: seq<real>, scale: nat, multiplicity: nat, left: int, right: int)
    requires forall i :: 0 <= i < |roots| ==> Bucket(roots[i], scale) > left
    ensures Listed(roots, scale, multiplicity, left, right) == Listed(roots, scale, multiplicity, left + 1, right)
  {
    hide Bucket;
    if roots != [] {
      ListedFrom(roots[1..], scale, multiplicity, left, right);
    }
  }

  lemma CopiesAdd(q: int, m: nat, k: nat)
    ensures Copies(q, (1 + k) * m) == seq(m, _ => q) + Copies(q, k * m)
  {
    assert (1 + k) * m == m + k * m;
    assert k * m >= 0;
    assert m == 0 ==> k * m == 0;
    var whole := seq(m + k * m, _ => q);
    assert whole == seq(m, _ => q) + seq(k * m, _ => q);
  }

  lemma LaterBuckets(roots: seq<real>, scale: nat, multiplicity: nat, left: int, right: int)
    requires Increases(roots) && roots != [] && Bucket(roots[0], scale) > left
    ensures Listed(roots, scale, multiplicity, left, right) == Listed(roots, scale, multiplicity, left + 1, right)
    ensures InBucket(roots, scale, left) == 0
  {
    hide Bucket, Listed, InBucket;
    forall i | 0 <= i < |roots| ensures Bucket(roots[i], scale) > left {
      BucketsAscend(roots[0], roots[i], scale);
    }
    NoneInBucket(roots, scale, left);
    ListedFrom(roots, scale, multiplicity, left, right);
  }

  lemma ListedOnce(roots: seq<real>, scale: nat, multiplicity: nat, left: int, right: int)
    requires roots != []
    ensures Listed(roots, scale, multiplicity, left, right)
         == (if left <= Bucket(roots[0], scale) < right then seq(multiplicity, _ => Bucket(roots[0], scale)) else [])
          + Listed(roots[1..], scale, multiplicity, left, right)
    ensures InBucket(roots, scale, left) == (if Bucket(roots[0], scale) == left then 1 else 0) + InBucket(roots[1..], scale, left)
  {
    hide Bucket;
  }

  /** The first bucket of an ascending list comes off in front. */
  lemma {:induction false} ListedSplits(roots: seq<real>, scale: nat, multiplicity: nat, left: int, right: int)
    requires Increases(roots) && left < right
    ensures Listed(roots, scale, multiplicity, left, right)
         == Copies(left, InBucket(roots, scale, left) * multiplicity) + Listed(roots, scale, multiplicity, left + 1, right)
  {
    if roots == [] {
      NoCopies(left, multiplicity);
    } else {
      hide Bucket, Copies, Listed, InBucket;
      if Bucket(roots[0], scale) > left {
        LaterBuckets(roots, scale, multiplicity, left, right);
        NoCopies(left, multiplicity);
      } else {
        var tail := roots[1..];
        ListedSplits(tail, scale, multiplicity, left, right);
        ListedOnce(roots, scale, multiplicity, left, right);
        ListedOnce(roots, scale, multiplicity, left + 1, right);
        CopiesAdd(left, multiplicity, InBucket(tail, scale, left));
      }
    }
  }

  lemma NoCopies(q: int, m: nat)
    ensures Copies(q, 0 * m) == []
  {
  }

  // ---------- the scan ----------

  /** Sign variations and roots at grid points together count the roots from there on: Sturm's theorem
      for these roots. */
  ghost predicate CountsRoots(p: Problem, roots: seq<real>)
    requires p.scale >= 1
  {
    forall q: int :: p.Height(q) == AtLeast(roots, q as real / p.scale as real)
  }

  lemma CountOfBucket(p: Problem, roots: seq<real>, q: int)
    requires p.scale >= 1 && CountsRoots(p, roots)
    ensures p.Count(q, q + 1) == InBucket(roots, p.scale, q)
  {
    hide p.Height;
    BucketCount(roots, p.scale, q);
    assert p.Height(q) == AtLeast(roots, q as real / p.scale as real);
    assert p.Height(q + 1) == AtLeast(roots, (q + 1) as real / p.scale as real);
  }

  lemma CountsAreNatural(p: Problem, roots: seq<real>, left: int, right: int)
    requires p.scale >= 1 && CountsRoots(p, roots)
    ensures p.CountsAreNatural(left, right)
  {
    hide p.Height, p.Count;
    forall q | left <= q < right ensures p.BucketIsNatural(q) {
      CountOfBucket(p, roots, q);
    }
  }

  /** The scan lists the floor of every root, as often as the multiplicity says. */
  lemma {:induction false} ScanOfRoots(p: Problem, roots: seq<real>, left: int, right: int)
    requires p.scale >= 1 && CountsRoots(p, roots) && Increases(roots)
    ensures p.Scan(left, right) == Listed(roots, p.scale, p.multiplicity, left, right)
    decreases right - left
  {
    hide p.Height, p.Count, Copies, InBucket;
    if left < right {
      ScanOfRoots(p, roots, left + 1, right);
      CountOfBucket(p, roots, left);
      ListedSplits(roots, p.scale, p.multiplicity, left, right);
    } else {
      NothingListed(roots, p.scale, p.multiplicity, left, right);
    }
  }

  lemma {:induction false} NothingListed(roots: seq<real>, scale: nat, multiplicity: nat, left: int, right: int)
    requires left >= right
    ensures Listed(roots, scale, multiplicity, left, right) == []
  {
    if roots != [] {
      NothingListed(roots[1..], scale, multiplicity, left, right);
    }
  }

  // ---------- the whole interval ----------

  /** These are the roots of the factor, all of them real, simple and in [0, upper]. */
  ghost predicate AreRoots(factor: Poly, roots: seq<real>, upper: nat) {
    && Increases(roots) && |roots| == Degree(factor)
    && (forall i :: 0 <= i < |roots| ==> 0.0 <= roots[i] <= upper as real)
    && forall x: real :: Eval(factor, x) == 0.0 <==> x in roots
  }

  lemma {:induction false} AllAtLeast(roots: seq<real>, x: real)
    requires forall i :: 0 <= i < |roots| ==> roots[i] >= x
    ensures AtLeast(roots, x) == |roots|
  {
    if roots != [] {
      AllAtLeast(roots[1..], x);
    }
  }

  lemma {:induction false} LastAtLeast(roots: seq<real>, x: real)
    requires Increases(roots) && forall i :: 0 <= i < |roots| ==> roots[i] <= x
    ensures AtLeast(roots, x) == if x in roots then 1 else 0
  {
    if roots != [] {
      LastAtLeast(roots[1..], x);
      assert x in roots <==> x == roots[0] || x in roots[1..];
    }
  }

  /** What the scan and the right end together list. */
  lemma {:induction false} ListedWhole(roots: seq<real>, scale: nat, multiplicity: nat, upper: nat)
    requires scale >= 1 && Increases(roots) && forall i :: 0 <= i < |roots| ==> 0.0 <= roots[i] <= upper as real
    ensures Buckets(roots, scale, multiplicity)
         == Listed(roots, scale, multiplicity, 0, upper * scale)
          + if upper as real in roots then seq(multiplicity, _ => upper * scale) else []
  {
    if roots != [] {
      var tail := roots[1..];
      ListedWhole(tail, scale, multiplicity, upper);
      RootInside(roots[0], scale, upper);
      assert upper as real in roots <==> upper as real == roots[0] || upper as real in tail;
      hide Bucket;
      if roots[0] == upper as real {
        GreatestIsLast(roots);
        assert Buckets(roots, scale, multiplicity) == seq(multiplicity, _ => Bucket(roots[0], scale)) + [];
        assert seq(multiplicity, _ => Bucket(roots[0], scale)) == seq(multiplicity, _ => upper * scale);
      }
    }
  }

  lemma GreatestIsLast(roots: seq<real>)
    requires Increases(roots) && roots != [] && forall i :: 0 <= i < |roots| ==> roots[i] <= roots[0]
    ensures roots[1..] == []
  {
    if |roots| > 1 {
      SecondIsGreater(roots);
    }
  }

  lemma SecondIsGreater(roots: seq<real>)
    requires Increases(roots) && |roots| > 1
    ensures roots[0] < roots[1]
  {
  }

  lemma RootInside(root: real, scale: nat, upper: nat)
    requires scale >= 1 && 0.0 <= root <= upper as real
    ensures 0 <= Bucket(root, scale) <= upper * scale
    ensures Bucket(root, scale) == upper * scale <==> root == upper as real
  {
    BucketBounds(root, scale, 0);
    BucketBounds(root, scale, upper * scale);
    BucketBounds(root, scale, upper * scale + 1);
    GridEnd(scale, upper);
    OrderScales(upper as real, (upper * scale + 1) as real / scale as real, scale as real);
    assert (upper * scale + 1) as real / scale as real * scale as real == (upper * scale + 1) as real;
  }

  lemma GridEnd(scale: nat, upper: nat)
    requires scale >= 1
    ensures (upper * scale) as real / scale as real == upper as real
  {
    assert (upper * scale) as real == upper as real * scale as real;
  }

  // ---------- linear and quadratic factors ----------

  lemma ConstantValue(p: Poly, x: real)
    requires |p| == 1
    ensures Eval(p, x) == p[0]
  {
    hide Mul;
    EvalStep(p, x);
    MulUnits(x);
  }

  lemma LinearValue(p: Poly, x: real)
    requires |p| == 2
    ensures Eval(p, x) == p[0] + Mul(p[1], x)
  {
    hide Mul;
    EvalStep(p, x);
    ConstantValue([p[1]], x);
    MulCommutes(x, p[1]);
  }

  lemma QuadraticValue(p: Poly, x: real)
    requires |p| == 3
    ensures Eval(p, x) == p[0] + x * (p[1] + p[2] * x)
  {
    LinearValue(p[1..], x);
    EvalStep(p, x);
  }

  /** One or two signs. */
  lemma SignsOf(a: Poly, rest: seq<Poly>, x: real)
    ensures Signs([a] + rest, x)
         == (if Eval(a, x) > 0.0 then [1] else if Eval(a, x) < 0.0 then [-1] else []) + Signs(rest, x)
  {
    hide Eval;
    assert ([a] + rest)[1..] == rest;
  }

  lemma LinearCounts(p: Problem, c: real)
    requires p.scale >= 1 && IsMonic(p.factor) && p.factor == [-c, 1.0]
    requires IsSturmSequence(p.factor, p.sequence) && |p.sequence| <= 2
    ensures CountsRoots(p, [c])
  {
    hide Mul, Trim;
    var one := Derivative(p.factor);
    assert p.sequence == [p.factor] + ([one] + []);
    LinearDerivative(p.factor);
    forall q: int ensures p.Height(q) == AtLeast([c], q as real / p.scale as real) {
      var x := p.Point(q);
      LinearValue(p.factor, x);
      MulUnits(x);
      ConstantValue(one, x);
      hide Eval, Derivative;
      SignsOf(p.factor, [one], x);
      SignsOf(one, [], x);
      assert AtLeast([c][1..], x) == 0;
    }
  }

  lemma LinearDerivative(p: Poly)
    requires |p| == 2 && IsMonic(p)
    ensures Derivative(p) == ONE
  {
    var w := Weighted(p[1..], 1);
    assert w == [1.0];
    assert IsTrimmed(w);
  }

  lemma QuadraticDerivative(p: Poly)
    requires |p| == 3 && IsMonic(p)
    ensures Derivative(p) == [p[1], 2.0]
  {
    var w := Weighted(p[1..], 1);
    assert w == [p[1], 2.0];
    assert IsTrimmed(w);
  }

  /** The coefficients of a monic quadratic with two roots. */
  lemma RootsGiveCoefficients(p: Poly, c: real, d: real)
    requires |p| == 3 && IsMonic(p) && c < d && Eval(p, c) == 0.0 && Eval(p, d) == 0.0
    ensures p[1] == -(c + d) && p[0] == c * d
  {
    hide Eval;
    QuadraticValue(p, c);
    QuadraticValue(p, d);
    TwoRoots(p[0], p[1], c, d);
  }

  lemma TwoRoots(a: real, b: real, c: real, d: real)
    requires a + c * (b + 1.0 * c) == 0.0 && a + d * (b + 1.0 * d) == 0.0 && c < d
    ensures b == -(c + d) && a == c * d
  {
    assert c * (b + 1.0 * c) == b * c + c * c && d * (b + 1.0 * d) == b * d + d * d;
    assert (d - c) * (b + c + d) == b * d + d * d - b * c - c * c;
    ProductIsZero(d - c, b + c + d);
  }

  lemma ProductIsZero(x: real, y: real)
    requires x != 0.0 && x * y == 0.0
    ensures y == 0.0
  {
  }

  lemma QuadraticAt(p: Poly, c: real, d: real, x: real)
    requires |p| == 3 && IsMonic(p) && p[1] == -(c + d) && p[0] == c * d && c < d
    ensures Eval(p, x) == (x - c) * (x - d)
    ensures Eval(p, x) > 0.0 <==> x < c || x > d
    ensures Eval(p, x) < 0.0 <==> c < x < d
  {
    QuadraticValue(p, x);
    assert Eval(p, x) == (x - c) * (x - d);
    if x < c {
      assert (c - x) * (d - x) > 0.0;
    } else if x > d {
      assert (x - c) * (x - d) > 0.0;
    } else if c < x < d {
      assert (x - c) * (d - x) > 0.0;
    }
  }

  /** The last term of the sequence is a positive constant. */
  lemma QuadraticSequence(p: Poly, s: seq<Poly>, c: real, d: real)
    requires |p| == 3 && IsMonic(p) && p[1] == -(c + d) && p[0] == c * d && c < d
    requires IsSturmSequence(p, s) && |s| <= 3
    ensures |s| == 3 && s[0] == p && s[1] == [-(c + d), 2.0] && |s[2]| == 1 && s[2][0] > 0.0
  {
    hide Trim, Times, Plus, Negate, Mul;
    QuadraticDerivative(p);
    var m := (c + d) / 2.0;
    var f := s[1];
    LinearValue(f, m);
    assert Eval(f, m) == 0.0 by { assert Mul(2.0, m) == c + d by { HalfTwice(c + d); } }
    QuadraticAt(p, c, d, m);
    hide Derivative, Eval;
    if |s| == 2 {
      var q: Poly :| Times(f, q) == p;
      TimesValue(f, q, m);
      MulUnits(Eval(q, m));
      assert false;
    } else {
      var q: Poly :| IsDivision(p, f, q, Negate(s[2]));
      RemainderAt(p, f, q, s[2], m);
    }
  }

  lemma HalfTwice(a: real)
    ensures Mul(2.0, a / 2.0) == a
  {
  }

  lemma RemainderAt(p: Poly, f: Poly, q: Poly, r: Poly, m: real)
    requires IsDivision(p, f, q, Negate(r)) && |f| == 2 && Eval(f, m) == 0.0 && Eval(p, m) < 0.0
    ensures |r| == 1 && r[0] > 0.0
  {
    hide Trim, Times, Plus, Mul, Eval, Negate;
    PlusValue(Times(q, f), Negate(r), m);
    TimesValue(q, f, m);
    MulUnits(Eval(q, m));
    NegateValue(r, m);
    ZeroValue(m);
    assert |r| == |Negate(r)| == 1;
    ConstantValue(r, m);
  }

  lemma QuadraticCounts(p: Problem, c: real, d: real)
    requires p.scale >= 1 && |p.factor| == 3 && IsMonic(p.factor) && c < d
    requires Eval(p.factor, c) == 0.0 && Eval(p.factor, d) == 0.0
    requires IsSturmSequence(p.factor, p.sequence) && |p.sequence| <= 3
    ensures CountsRoots(p, [c, d])
  {
    RootsGiveCoefficients(p.factor, c, d);
    QuadraticSequence(p.factor, p.sequence, c, d);
    hide IsSturmSequence;
    hide p.Height, AtLeast;
    forall q: int ensures p.Height(q) == AtLeast([c, d], q as real / p.scale as real) {
      QuadraticHeight(p, c, d, q);
    }
  }

  lemma QuadraticHeight(p: Problem, c: real, d: real, q: int)
    requires p.scale >= 1 && |p.factor| == 3 && IsMonic(p.factor) && c < d
    requires p.factor[1] == -(c + d) && p.factor[0] == c * d
    requires |p.sequence| == 3 && p.sequence[0] == p.factor && p.sequence[1] == [-(c + d), 2.0]
    requires |p.sequence[2]| == 1 && p.sequence[2][0] > 0.0
    ensures p.Height(q) == AtLeast([c, d], q as real / p.scale as real)
  {
    var x := p.Point(q);
    var f, k := p.sequence[1], p.sequence[2];
    QuadraticAt(p.factor, c, d, x);
    LinearValue(f, x);
    assert Mul(2.0, x) == x + x;
    ConstantValue(k, x);
    hide Eval, Mul, IsTrimmed;
    assert p.sequence == [p.factor] + ([f] + ([k] + []));
    SignsOf(p.factor, [f, k], x);
    SignsOf(f, [k], x);
    SignsOf(k, [], x);
    assert Signs([], x) == [];
    TwoAtLeast(c, d, x);
    var v, w := p.factor, Eval(f, x);
    assert Signs(p.sequence, x) == Sign(Eval(v, x)) + (Sign(w) + [1]);
    if Eval(v, x) == 0.0 {
      if w != 0.0 {
        TwoSigns(if w > 0.0 then 1 else -1);
      }
    } else if w == 0.0 {
      TwoSigns(if Eval(v, x) > 0.0 then 1 else -1);
    } else {
      ThreeSigns(if Eval(v, x) > 0.0 then 1 else -1, if w > 0.0 then 1 else -1);
    }
  }

  function Sign(value: real): seq<int> {
    if value > 0.0 then [1] else if value < 0.0 then [-1] else []
  }

  lemma TwoSigns(a: int)
    ensures Changes([a] + [1]) == if a == 1 then 0 else 1
    ensures [a] + ([] + [1]) == [a] + [1] && [] + ([a] + [1]) == [a] + [1]
  {
    assert ([a] + [1])[1..] == [1];
  }

  lemma ThreeSigns(a: int, b: int)
    ensures Changes([a] + ([b] + [1])) == (if a == b then 0 else 1) + if b == 1 then 0 else 1
  {
    assert ([a] + ([b] + [1]))[1..] == [b] + [1];
    TwoSigns(b);
  }

  lemma TwoAtLeast(c: real, d: real, x: real)
    ensures AtLeast([c, d], x) == (if c >= x then 1 else 0) + if d >= x then 1 else 0
  {
    assert [c, d][1..] == [d] && [d][1..] == [];
  }

  /** Up to degree two, sign variations count the roots. */
  lemma SmallFactorsCount(p: Problem, roots: seq<real>, upper: nat)
    requires p.scale >= 1 && IsMonic(p.factor) && 1 <= Degree(p.factor) <= 2 && AreRoots(p.factor, roots, upper)
    requires IsSturmSequence(p.factor, p.sequence) && |p.sequence| <= Degree(p.factor) + 1
    ensures CountsRoots(p, roots)
  {
    hide IsSturmSequence, CountsRoots;
    assert roots[0] in roots;
    if |p.factor| == 2 {
      LinearValue(p.factor, roots[0]);
      MulUnits(roots[0]);
      assert p.factor == [-roots[0], 1.0] && roots == [roots[0]];
      LinearCounts(p, roots[0]);
    } else {
      assert roots[1] in roots && roots == [roots[0], roots[1]];
      QuadraticCounts(p, roots[0], roots[1]);
    }
  }
}
