/** Square-free factorization (`_square_free_factors` in geometry_math.py). */
module SquareFree {
  import opened Fractions
  import opened Outcomes
  import opened Polynomials
  import opened PolynomialRing
  import opened Euclid

  // ---------- what a square-free factorization is ----------

  ghost predicate Coprime(a: Poly, b: Poly) {
    forall d: Poly :: Divides(d, a) && Divides(d, b) ==> Degree(d) == 0
  }

  ghost predicate IsSquareFree(a: Poly) {
    forall d: Poly :: Divides(Times(d, d), a) ==> Degree(d) == 0
  }

  datatype Factor = Factor(factor: Poly, multiplicity: nat)

  function PowerProduct(factors: seq<Factor>): (p: Poly) {
    if factors == [] then ONE
    else
      var last := factors[|factors| - 1];
      Times(PowerProduct(factors[..|factors| - 1]), Pow(last.factor, last.multiplicity))
  }

  ghost predicate AreFactors(factors: seq<Factor>) {
    && (forall i :: 0 <= i < |factors| ==>
      && IsMonic(factors[i].factor)
      && Degree(factors[i].factor) >= 1
      && factors[i].multiplicity >= 1
      && IsSquareFree(factors[i].factor))
    && forall i, j :: 0 <= i < j < |factors| ==>
      && factors[i].multiplicity < factors[j].multiplicity
      && Coprime(factors[i].factor, factors[j].factor)
  }

  // ---------- divisors ----------

  lemma DividesTransitive(d: Poly, e: Poly, a: Poly)
    requires Divides(d, e) && Divides(e, a)
    ensures Divides(d, a)
  {
    hide Times;
    var u: Poly :| Times(e, u) == a;
    DividesTimes(d, e, u);
  }

  lemma DividesProduct(a: Poly, b: Poly)
    ensures Divides(a, Times(a, b)) && Divides(b, Times(a, b))
  {
    hide Times;
    TimesCommutes(a, b);
  }

  lemma DividesMinus(d: Poly, p: Poly, q: Poly)
    requires Divides(d, Plus(p, q)) && Divides(d, p)
    ensures Divides(d, q)
  {
    hide Times, Plus, Negate;
    var u: Poly :| Times(d, u) == p;
    TimesNegate(d, u);
    assert Times(d, Negate(u)) == Negate(p);
    DividesPlus(d, Plus(p, q), Negate(p));
    PlusCommutes(p, q);
    PlusAssociates(q, p, Negate(p));
    PlusNegate(p);
    PlusZero(q);
  }

  lemma DivisorDegree(d: Poly, a: Poly)
    requires Divides(d, a) && a != ZERO
    ensures d != ZERO && Degree(d) <= Degree(a)
  {
    hide Times;
    var u: Poly :| Times(d, u) == a;
    TimesUnits(d);
    TimesUnits(u);
  }

  lemma DividesCancels(c: Poly, d: Poly, a: Poly)
    requires c != ZERO && Divides(Times(c, d), Times(c, a))
    ensures Divides(d, a)
  {
    hide Times;
    var u: Poly :| Times(Times(c, d), u) == Times(c, a);
    TimesAssociates(c, d, u);
    TimesCancels(c, Times(d, u), a);
  }

  lemma DividesScales(c: Poly, d: Poly, a: Poly)
    requires Divides(d, a)
    ensures Divides(Times(c, d), Times(c, a))
  {
    hide Times;
    var u: Poly :| Times(d, u) == a;
    TimesAssociates(c, d, u);
  }

  lemma MonicCofactor(a: Poly, b: Poly)
    requires IsMonic(a) && IsMonic(Times(a, b))
    ensures IsMonic(b)
  {
    hide Times, Mul;
    TimesUnits(a);
    assert b != ZERO;
    MulUnits(Lead(b));
  }

  // ---------- coprime polynomials ----------

  lemma DivisionExists(a: Poly, b: Poly) returns (q: Poly, r: Poly)
    requires b != ZERO
    ensures IsDivision(a, b, q, r)
    decreases if a == ZERO then 0 else |a|
  {
    hide Mul, Times, Plus, Reduced, StepQuotient;
    if a == ZERO || |a| < |b| {
      q, r := ZERO, a;
      TimesUnits(b);
      PlusZero(a);
    } else {
      ReducedShrinks(a, b);
      ReducedDivides(a, b);
      q, r := DivisionExists(Reduced(a, b), b);
      var m := StepQuotient(a, b);
      TimesDistributes(b, m, q);
      PlusAssociates(Times(m, b), Times(q, b), r);
      q := Plus(m, q);
    }
  }

  lemma GcdExists(a: Poly, b: Poly) returns (g: Poly)
    ensures IsGcd(g, a, b)
    decreases if b == ZERO then 0 else |b|
  {
    hide Mul, Times, Plus, Monic, IsCombination;
    if b == ZERO {
      CombinesSelf(a, b);
      DividesSelf(a);
      MonicIsGcd(a, a, b);
      g := Monic(a);
    } else {
      var q, r := DivisionExists(a, b);
      g := GcdExists(b, r);
      DividesFromRemainder(g, a, b, q, r);
      CombinesSelf(a, b);
      RemainderCombines(a, b, a, b, q, r);
      CombinationOfCombinations(g, b, r, a, b);
    }
  }

  lemma CombinationOfCombinations(g: Poly, p: Poly, q: Poly, a: Poly, b: Poly)
    requires Combines(g, p, q) && Combines(p, a, b) && Combines(q, a, b)
    ensures Combines(g, a, b)
  {
    hide Times, Plus, Mul;
    var s: Poly, t: Poly :| IsCombination(s, t, g, p, q);
    var s1: Poly, t1: Poly :| IsCombination(s1, t1, p, a, b);
    var s2: Poly, t2: Poly :| IsCombination(s2, t2, q, a, b);
    Scaling(s1, t1, p, a, b, s);
    Scaling(s2, t2, q, a, b, t);
    Adding(Times(s, s1), Times(s, t1), Times(s, p), Times(t, s2), Times(t, t2), Times(t, q), a, b);
  }

  lemma CoprimeCombine(a: Poly, b: Poly)
    requires Coprime(a, b)
    ensures Combines(ONE, a, b)
  {
    hide Times, Plus, Mul, IsCombination;
    var g := GcdExists(a, b);
    if g == ZERO {
      ZeroDividesZero(a);
      ZeroDividesZero(b);
      var x: Poly := [0.0, 1.0];
      DividesSelf(x);
      assert false;
    }
    assert g == ONE;
  }

  lemma ZeroDividesZero(a: Poly)
    requires Divides(ZERO, a)
    ensures a == ZERO
  {
    hide Times;
    var u: Poly :| Times(ZERO, u) == a;
    TimesUnits(u);
  }

  lemma CoprimeCancels(a: Poly, b: Poly, c: Poly)
    requires Coprime(a, b) && Divides(a, Times(b, c))
    ensures Divides(a, c)
  {
    hide Times, Plus, Mul;
    CoprimeCombine(a, b);
    var s: Poly, t: Poly :| IsCombination(s, t, ONE, a, b);
    // c = c * (s * a + t * b)
    TimesUnits(c);
    TimesDistributes(c, Times(s, a), Times(t, b));
    DividesProduct(s, a);
    DividesTimes(a, Times(s, a), c);
    TimesAssociates(t, b, c);
    TimesCommutes(Times(t, b), c);
    DividesTimes(a, Times(b, c), t);
    DividesPlus(a, Times(c, Times(s, a)), Times(c, Times(t, b)));
  }

  lemma CoprimeDivisor(a: Poly, b: Poly, d: Poly)
    requires Coprime(a, b) && Divides(d, b)
    ensures Coprime(a, d)
  {
    hide Times;
    forall e: Poly | Divides(e, a) && Divides(e, d) ensures Degree(e) == 0 {
      DividesTransitive(e, d, b);
    }
  }

  lemma SquareFreeDivisor(a: Poly, d: Poly)
    requires IsSquareFree(a) && Divides(d, a)
    ensures IsSquareFree(d)
  {
    hide Times;
    forall e: Poly | Divides(Times(e, e), d) ensures Degree(e) == 0 {
      DividesTransitive(Times(e, e), d, a);
    }
  }

  /** The two halves of a square-free product have no common factor. */
  lemma SquareFreeSplits(a: Poly, b: Poly)
    requires IsSquareFree(Times(a, b))
    ensures Coprime(a, b)
  {
    hide Times;
    forall e: Poly | Divides(e, a) && Divides(e, b) ensures Degree(e) == 0 {
      var u: Poly :| Times(e, u) == a;
      var v: Poly :| Times(e, v) == b;
      TimesAssociates(e, u, Times(e, v));
      TimesCommutes(u, Times(e, v));
      TimesAssociates(e, v, u);
      TimesAssociates(e, e, Times(v, u));
      assert Times(Times(e, e), Times(v, u)) == Times(a, b);
    }
  }

  // ---------- powers and derivatives ----------

  lemma {:induction false} PowDegree(d: Poly, n: nat)
    requires d != ZERO
    ensures Pow(d, n) != ZERO && Degree(Pow(d, n)) == n * Degree(d)
  {
    hide Times, Mul;
    if n > 0 {
      PowDegree(d, n - 1);
    }
  }

  /** A factor of multiplicity n + 1 divides the derivative with multiplicity n. */
  lemma {:induction false} PowDerivative(d: Poly, n: nat, v: Poly)
    ensures Divides(Pow(d, n), Derivative(Times(Pow(d, n + 1), v)))
  {
    hide Times, Plus, Derivative;
    assert Pow(d, n + 1) == Times(d, Pow(d, n));
    var u := Times(Pow(d, n), v);
    TimesAssociates(d, Pow(d, n), v);
    DerivativeOfProduct(d, u);
    DividesProduct(Pow(d, n), v);
    DividesTimes(Pow(d, n), u, Derivative(d));
    if n == 0 {
      TimesUnits(Derivative(Times(d, u)));
    } else {
      PowDerivative(d, n - 1, v);
      DividesScales(d, Pow(d, n - 1), Derivative(u));
      DividesPlus(Pow(d, n), Times(Derivative(d), u), Times(d, Derivative(u)));
    }
  }

  lemma {:induction false} SquareGivesAllPowers(f: Poly, g: Poly, w: Poly, d: Poly, n: nat)
    requires IsGcd(g, f, Derivative(f)) && Times(g, w) == f && Divides(Times(d, d), w)
    ensures Divides(Pow(d, n), g)
  {
    hide Times, Plus, Derivative, Mul, IsGcd;
    if n == 0 {
      TimesUnits(g);
    } else {
      SquareGivesAllPowers(f, g, w, d, n - 1);
      SquareGivesPower(f, g, w, d, n - 1);
      GcdIsGreatest(g, f, Derivative(f), Pow(d, n));
    }
  }

  lemma SquareGivesPower(f: Poly, g: Poly, w: Poly, d: Poly, n: nat)
    requires Times(g, w) == f && Divides(Times(d, d), w) && Divides(Pow(d, n), g)
    ensures Divides(Pow(d, n + 1), f) && Divides(Pow(d, n + 1), Derivative(f))
  {
    hide Times, Plus, Derivative, Mul;
    var p, p' := Pow(d, n), Pow(d, n + 1);
    assert p' == Times(d, p) && Pow(d, n + 2) == Times(d, p');
    hide Pow;
    var u: Poly :| Times(p, u) == g;
    var v: Poly :| Times(Times(d, d), v) == w;
    FactorOut(p, u, d, v);
    PowDerivative(d, n + 1, Times(u, v));
    DividesProduct(d, p');
    DividesTimes(p', Times(d, p'), Times(u, v));
  }

  lemma FactorOut(p: Poly, u: Poly, d: Poly, v: Poly)
    ensures Times(Times(p, u), Times(Times(d, d), v)) == Times(Times(d, Times(d, p)), Times(u, v))
  {
    hide *;
    TimesCommutes(p, u);
    TimesAssociates(u, p, Times(Times(d, d), v));
    TimesAssociates(p, Times(d, d), v);
    TimesCommutes(p, Times(d, d));
    TimesAssociates(d, d, p);
    var q := Times(d, Times(d, p));
    TimesAssociates(u, q, v);
    TimesCommutes(u, q);
    TimesAssociates(q, u, v);
  }

  /** Dividing out the common factor with the derivative leaves no repeated factor. */
  lemma RadicalIsSquareFree(f: Poly, g: Poly, w: Poly)
    requires IsGcd(g, f, Derivative(f)) && Times(g, w) == f && f != ZERO
    ensures IsSquareFree(w)
  {
    hide Times, Plus, Derivative, Mul, Pow;
    TimesUnits(w);
    forall d: Poly | Divides(Times(d, d), w) ensures Degree(d) == 0 {
      var n := Degree(g) + 1;
      SquareGivesAllPowers(f, g, w, d, n);
      DivisorDegree(Pow(d, n), g);
      if Degree(d) > 0 {
        PowDegree(d, n);
        Outgrows(n, Degree(d));
        assert false;
      }
    }
  }

  lemma Outgrows(n: nat, k: nat)
    requires k > 0
    ensures n * k >= n
  {
  }

  // ---------- the loop ----------

  /** One round: y is the common part of w and c, so w = y*factor and c = y*rest. */
  lemma RoundKeepsDerivative(y: Poly, factor: Poly, rest: Poly)
    requires y != ZERO && IsGcd(y, Times(y, factor), Times(y, rest))
    requires Divides(Times(y, rest), Times(Times(y, factor), Derivative(Times(y, rest))))
    ensures Divides(rest, Times(y, Derivative(rest)))
  {
    hide Times, Plus, Derivative, Mul, IsGcd;
    var left, right := Times(Derivative(y), rest), Times(y, Derivative(rest));
    DerivativeOfProduct(y, rest);
    TimesAssociates(y, factor, Plus(left, right));
    DividesCancels(y, rest, Times(factor, Plus(left, right)));
    TimesDistributes(factor, left, right);
    DividesProduct(Derivative(y), rest);
    DividesTimes(rest, left, factor);
    DividesMinus(rest, Times(factor, left), Times(factor, right));
    CofactorsCoprime(y, factor, rest);
    CoprimeCancels(rest, factor, right);
  }

  lemma CofactorsCoprime(y: Poly, factor: Poly, rest: Poly)
    requires y != ZERO && IsGcd(y, Times(y, factor), Times(y, rest))
    ensures Coprime(rest, factor)
  {
    hide Times, Mul, IsGcd;
    forall e: Poly | Divides(e, rest) && Divides(e, factor) ensures Degree(e) == 0 {
      DividesScales(y, e, rest);
      DividesScales(y, e, factor);
      GcdIsGreatest(y, Times(y, factor), Times(y, rest), Times(y, e));
      TimesUnits(y);
      DividesCancels(y, e, ONE);
      DivisorDegree(e, ONE);
    }
  }

  lemma {:induction false} PowOfProduct(a: Poly, b: Poly, n: nat)
    ensures Pow(Times(a, b), n) == Times(Pow(a, n), Pow(b, n))
  {
    hide Times;
    if n == 0 {
      TimesUnits(ONE);
    } else {
      PowOfProduct(a, b, n - 1);
      hide *;
      Interchange(a, b, Pow(a, n - 1), Pow(b, n - 1));
    }
  }

  lemma Interchange(a: Poly, b: Poly, p: Poly, q: Poly)
    ensures Times(Times(a, b), Times(p, q)) == Times(Times(a, p), Times(b, q))
  {
    hide *;
    TimesAssociates(a, b, Times(p, q));
    TimesAssociates(b, p, q);
    TimesCommutes(b, p);
    TimesAssociates(p, b, q);
    TimesAssociates(a, p, Times(b, q));
  }

  /** The value split as (finished factors) * remaining^m * repeated survives a round. */
  lemma RoundKeepsValue(p: Poly, y: Poly, factor: Poly, rest: Poly, m: nat)
    ensures Times(p, Times(Pow(Times(y, factor), m), Times(y, rest)))
         == Times(Times(p, Pow(factor, m)), Times(Pow(y, m + 1), rest))
  {
    var ym, fm := Pow(y, m), Pow(factor, m);
    assert Pow(y, m + 1) == Times(y, ym);
    hide *;
    PowOfProduct(y, factor, m);
    TimesCommutes(ym, fm);
    TimesAssociates(fm, ym, Times(y, rest));
    TimesAssociates(ym, y, rest);
    TimesCommutes(ym, y);
    TimesAssociates(p, fm, Times(Times(y, ym), rest));
  }

  /** A monic polynomial that divides its own derivative is one: the characteristic is zero. */
  lemma DividesOwnDerivative(c: Poly)
    requires IsMonic(c) && Divides(c, Times(ONE, Derivative(c)))
    ensures c == ONE
  {
    hide Times, Derivative;
    TimesUnits(Derivative(c));
    if Degree(c) > 0 {
      DivisorDegree(c, Derivative(c));
      assert false;
    }
  }

  ghost predicate LoopInvariant(value: Poly, factors: seq<Factor>, remaining: Poly, repeated: Poly, m: nat) {
    && m >= 1
    && IsMonic(remaining) && IsMonic(repeated)
    && value == Times(PowerProduct(factors), Times(Pow(remaining, m), repeated))
    && Divides(repeated, Times(remaining, Derivative(repeated)))
    && IsSquareFree(remaining)
    && AreFactors(factors)
    && forall i :: 0 <= i < |factors| ==> factors[i].multiplicity < m && Coprime(factors[i].factor, remaining)
  }

  lemma InvariantHolds(value: Poly, repeated: Poly, remaining: Poly)
    requires IsMonic(value) && IsGcd(repeated, value, Derivative(value)) && Times(repeated, remaining) == value
    ensures LoopInvariant(value, [], remaining, repeated, 1)
  {
    hide Times, Plus, Derivative, Mul, IsSquareFree;
    ZeroFactor(repeated, remaining);
    MonicCofactor(repeated, remaining);
    RadicalIsSquareFree(value, repeated, remaining);
    assert Pow(remaining, 1) == Times(remaining, Pow(remaining, 0)) == Times(remaining, ONE);
    TimesUnits(remaining);
    TimesUnits(value);
    TimesCommutes(repeated, remaining);
    DerivativeOfProduct(repeated, remaining);
    TimesCommutes(Derivative(repeated), remaining);
    DividesProduct(repeated, Derivative(remaining));
    PlusCommutes(Times(Derivative(repeated), remaining), Times(repeated, Derivative(remaining)));
    DividesMinus(repeated, Times(repeated, Derivative(remaining)), Times(Derivative(repeated), remaining));
  }

  lemma ZeroFactor(a: Poly, b: Poly)
    requires Times(a, b) != ZERO
    ensures a != ZERO && b != ZERO
  {
    hide Times;
    TimesUnits(a);
    TimesUnits(b);
  }

  /** Everything a round of the loop keeps. */
  lemma RoundKeepsInvariant(value: Poly, factors: seq<Factor>, y: Poly, factor: Poly, rest: Poly, m: nat)
    requires LoopInvariant(value, factors, Times(y, factor), Times(y, rest), m)
    requires IsGcd(y, Times(y, factor), Times(y, rest))
    ensures IsMonic(factor)
    ensures Degree(factor) == 0 ==> LoopInvariant(value, factors, y, rest, m + 1)
    ensures Degree(factor) > 0 ==> LoopInvariant(value, factors + [Factor(factor, m)], y, rest, m + 1)
  {
    hide Times, Plus, Derivative, Mul, Pow, IsSquareFree, Coprime;
    var w := Times(y, factor);
    ZeroFactor(y, factor);
    MonicCofactor(y, factor);
    MonicCofactor(y, rest);
    RoundKeepsDerivative(y, factor, rest);
    RoundKeepsValue(PowerProduct(factors), y, factor, rest, m);
    DividesProduct(y, factor);
    SquareFreeDivisor(w, y);
    SquareFreeDivisor(w, factor);
    TimesCommutes(y, factor);
    SquareFreeSplits(factor, y);
    forall i | 0 <= i < |factors|
      ensures Coprime(factors[i].factor, y) && Coprime(factors[i].factor, factor)
    {
      CoprimeDivisor(factors[i].factor, w, y);
      CoprimeDivisor(factors[i].factor, w, factor);
    }
    if Degree(factor) == 0 {
      assert factor == ONE;
      PowOne(m);
      TimesUnits(PowerProduct(factors));
    } else {
      var longer := factors + [Factor(factor, m)];
      assert longer[..|longer| - 1] == factors;
    }
  }

  lemma {:induction false} PowOne(n: nat)
    ensures Pow(ONE, n) == ONE
  {
    hide Times;
    if n > 0 {
      PowOne(n - 1);
      TimesUnits(ONE);
    }
  }

  lemma LoopEnds(value: Poly, factors: seq<Factor>, remaining: Poly, repeated: Poly, m: nat)
    requires LoopInvariant(value, factors, remaining, repeated, m) && Degree(remaining) == 0
    ensures value == PowerProduct(factors) && AreFactors(factors)
  {
    hide Times, Derivative, Mul, Pow, AreFactors, PowerProduct;
    assert remaining == ONE;
    DividesOwnDerivative(repeated);
    PowOne(m);
    TimesUnits(ONE);
    TimesUnits(PowerProduct(factors));
  }

  lemma NoFactors()
    ensures AreFactors([])
  {
  }

  lemma GcdDivides(g: Poly, a: Poly, b: Poly)
    requires IsGcd(g, a, b) && a != ZERO
    ensures g != ZERO && Divides(g, a) && Divides(g, b)
  {
    hide Times;
    DivisorDegree(g, a);
  }

  lemma InvariantIsMonic(value: Poly, factors: seq<Factor>, remaining: Poly, repeated: Poly, m: nat)
    requires LoopInvariant(value, factors, remaining, repeated, m)
    ensures IsMonic(remaining) && IsMonic(repeated) && remaining != ZERO
  {
  }

  lemma RoundShrinks(y: Poly, factor: Poly, rest: Poly)
    requires IsMonic(Times(y, factor)) && IsMonic(Times(y, rest)) && Degree(Times(y, factor)) > 0
    ensures Degree(y) + Degree(rest) < Degree(Times(y, factor)) + Degree(Times(y, rest))
  {
    hide Times, Mul;
    ZeroFactor(y, factor);
    ZeroFactor(y, rest);
  }

  /** No exact division in here can fail: each `.value` carries the proof that it succeeded. */
  method SquareFreeFactors(polynomial: Poly) returns (factors: seq<Factor>)
    ensures AreFactors(factors)
    ensures Degree(polynomial) == 0 ==> factors == []
    ensures Degree(polynomial) > 0 ==> PowerProduct(factors) == Monic(polynomial)
  {
    hide Times, Derivative, Mul, Pow, IsGcd, LoopInvariant, PowerProduct, AreFactors, Divides, Monic, IsMonic;
    var value := Monic(polynomial);
    factors := [];
    if Degree(value) <= 0 {
      NoFactors();
      return;
    }
    var repeated := Gcd(value, Derivative(value));
    GcdDivides(repeated, value, Derivative(value));
    var cofactor := ExactDivide(value, repeated);
    var remaining := cofactor.value;
    InvariantHolds(value, repeated, remaining);
    var multiplicity := 1;
    while Degree(remaining) > 0
      invariant LoopInvariant(value, factors, remaining, repeated, multiplicity)
      decreases Degree(remaining) + Degree(repeated)
    {
      var shared := Gcd(remaining, repeated);
      InvariantIsMonic(value, factors, remaining, repeated, multiplicity);
      GcdDivides(shared, remaining, repeated);
      var split := ExactDivide(remaining, shared);
      var factor := split.value;
      var rest := ExactDivide(repeated, shared);
      RoundKeepsInvariant(value, factors, shared, factor, rest.value, multiplicity);
      RoundShrinks(shared, factor, rest.value);
      if Degree(factor) > 0 {
        factors := factors + [Factor(Monic(factor), multiplicity)];
      }
      remaining := shared;
      repeated := rest.value;
      multiplicity := multiplicity + 1;
    }
    LoopEnds(value, factors, remaining, repeated, multiplicity);
  }
}
