/** Polynomial division and Euclid's algorithm (`_trim` to `_gcd` in geometry_math.py). */
module Euclid {
  import opened Fractions
  import opened Outcomes
  import opened Polynomials
  import opened PolynomialRing

  // ---------- loops over one polynomial ----------

  method TrimInPlace(polynomial: seq<real>) returns (values: Poly)
    ensures values == Trim(polynomial)
  {
    var list := polynomial;
    while |list| > 1 && list[|list| - 1] == 0.0
      invariant Trim(list) == Trim(polynomial)
    {
      list := list[..|list| - 1];
    }
    values := if list == [] then [0.0] else list;
  }

  /** Horner's scheme, from the highest coefficient down. */
  method Evaluate(polynomial: seq<real>, point: real) returns (result: real)
    ensures result == Eval(polynomial, point)
  {
    hide Mul;
    var list := TrimInPlace(polynomial);
    TrimValue(polynomial, point);
    result := 0.0;
    var index := |list|;
    while index > 0
      invariant 0 <= index <= |list|
      invariant result == Eval(list[index..], point)
    {
      index := index - 1;
      assert list[index..][1..] == list[index + 1..];
      MulCommutes(result, point);
      result := Mul(result, point) + list[index];
    }
  }

  // ---------- division ----------

  /** What a quotient and a remainder are; they are unique (`DivisionUnique`). */
  predicate IsDivision(a: Poly, b: Poly, q: Poly, r: Poly) {
    a == Plus(Times(q, b), r) && (r == ZERO || Degree(r) < Degree(b))
  }

  function Monomial(c: real, k: nat): (m: Poly)
    requires c != 0.0
    ensures |m| == k + 1 && m[k] == c && forall i :: 0 <= i < k ==> m[i] == 0.0
  {
    seq(k, _ => 0.0) + [c]
  }

  lemma ShiftOnce(u: seq<real>, q: seq<real>)
    requires u != [] && q != []
    ensures Product([0.0] + u, q) == [0.0] + Product(u, q)
  {
    hide Mul, Scaled, Sum;
    var m, zeros, tail := [0.0] + u, Scaled(q, 0.0), [0.0] + Product(u, q);
    assert m[1..] == u;
    assert Product(m, q) == Sum(zeros, tail);
    hide Product;
    forall i | 0 <= i < |q| ensures zeros[i] == 0.0 {
      MulUnits(q[i]);
    }
    assert Sum(zeros, tail) == tail;
  }

  lemma ConstantProduct(c: real, q: seq<real>)
    requires q != []
    ensures Product([c], q) == Scaled(q, c)
  {
    hide Mul, Scaled, Sum;
    assert [c][1..] == [];
    assert Product([c], q) == Sum(Scaled(q, c), [0.0] + Product([], q));
    assert Product([], q) == [];
    hide Product;
    assert Sum(Scaled(q, c), [0.0]) == Scaled(q, c);
  }

  lemma {:induction false} ShiftedProduct(c: real, k: nat, q: Poly)
    requires c != 0.0
    ensures Product(Monomial(c, k), q) == seq(k, _ => 0.0) + Scaled(q, c)
  {
    hide Mul, Scaled, Sum, Product;
    if k == 0 {
      ConstantProduct(c, q);
      assert Monomial(c, 0) == [c];
    } else {
      var n := Monomial(c, k - 1);
      assert Monomial(c, k) == [0.0] + n;
      ShiftOnce(n, q);
      ShiftedProduct(c, k - 1, q);
      assert seq(k, _ => 0.0) == [0.0] + seq(k - 1, _ => 0.0);
    }
  }

  /** One step of long division: what is left after the leading term is cancelled. */
  function Reduced(a: Poly, b: Poly): (r: Poly)
    requires a != ZERO && b != ZERO && |a| >= |b|
  {
    Plus(a, Negate(Times(StepQuotient(a, b), b)))
  }

  function StepQuotient(a: Poly, b: Poly): (m: Poly)
    requires a != ZERO && b != ZERO && |a| >= |b|
    ensures m != ZERO && Degree(m) == |a| - |b| && Lead(m) == Lead(a) / Lead(b)
  {
    hide Mul;
    DivideBack(Lead(a), Lead(b));
    MulUnits(Lead(b));
    Monomial(Lead(a) / Lead(b), |a| - |b|)
  }

  lemma ReducedShrinks(a: Poly, b: Poly)
    requires a != ZERO && b != ZERO && |a| >= |b|
    ensures Reduced(a, b) == ZERO || Degree(Reduced(a, b)) < Degree(a)
  {
    hide Mul, Times, Sum, Scaled, Trim;
    var t := Times(StepQuotient(a, b), b);
    assert Lead(t) == Lead(a) by { DivideBack(Lead(a), Lead(b)); }
    var n := Negate(t);
    assert Lead(n) == -Lead(t) by { MulUnits(Lead(t)); }
    LeadCancels(a, n);
  }

  lemma LeadCancels(a: Poly, n: Poly)
    requires |a| == |n| && Lead(a) == -Lead(n)
    ensures Plus(a, n) == ZERO || Degree(Plus(a, n)) < Degree(a)
  {
    hide Sum, Trim;
    var s := Sum(a, n);
    assert s[|a| - 1] == 0.0;
    assert |a| == 1 ==> s == [0.0];
  }

  lemma ReducedDivides(a: Poly, b: Poly)
    requires a != ZERO && b != ZERO && |a| >= |b|
    ensures a == Plus(Times(StepQuotient(a, b), b), Reduced(a, b))
  {
    var t := Times(StepQuotient(a, b), b);
    assert Reduced(a, b) == Plus(a, Negate(t));
    hide *;
    PlusCommutes(a, Negate(t));
    PlusAssociates(t, Negate(t), a);
    PlusNegate(t);
    PlusZero(a);
  }

  /** Folding one more step into a partial division a = q*b + n. */
  lemma DivisionStep(a: Poly, b: Poly, q: Poly, n: Poly)
    requires n != ZERO && b != ZERO && |n| >= |b|
    requires a == Plus(Times(q, b), n)
    ensures a == Plus(Times(Plus(q, StepQuotient(n, b)), b), Reduced(n, b))
  {
    var m, r := StepQuotient(n, b), Reduced(n, b);
    ReducedDivides(n, b);
    hide *;
    TimesDistributes(b, q, m);
    PlusAssociates(Times(q, b), Times(m, b), r);
  }

  /** The inner loop of a division step: numerator[offset + i] -= factor * denominator[i]. */
  method SubtractShifted(numerator: seq<real>, denominator: seq<real>, factor: real, offset: nat)
    returns (updated: seq<real>)
    requires |numerator| == offset + |denominator|
    ensures |updated| == |numerator|
    ensures forall i :: 0 <= i < offset ==> updated[i] == numerator[i]
    ensures forall i :: offset <= i < |numerator| ==>
      updated[i] == numerator[i] - Mul(factor, denominator[i - offset])
  {
    hide Mul;
    updated := numerator;
    for index := 0 to |denominator|
      invariant |updated| == |numerator|
      invariant forall i :: 0 <= i < offset || offset + index <= i < |numerator| ==> updated[i] == numerator[i]
      invariant forall i :: offset <= i < offset + index ==>
        updated[i] == numerator[i] - Mul(factor, denominator[i - offset])
    {
      var position := offset + index;
      updated := updated[position := updated[position] - Mul(factor, denominator[index])];
    }
  }

  /** The list the inner loop leaves behind, once trimmed, is the reduced polynomial. */
  lemma SubtractedIsReduced(a: Poly, b: Poly, updated: seq<real>)
    requires a != ZERO && b != ZERO && |a| >= |b| && |updated| == |a|
    requires var k := |a| - |b|;
      && (forall i :: 0 <= i < k ==> updated[i] == a[i])
      && (forall i :: k <= i < |a| ==> updated[i] == a[i] - Mul(Lead(a) / Lead(b), b[i - k]))
    ensures Trim(updated) == Reduced(a, b)
  {
    hide Mul, Trim, Product, Sum, Scaled;
    var m, k := StepQuotient(a, b), |a| - |b|;
    var c := Lead(m);
    assert m == Monomial(c, k);
    hide StepQuotient, Monomial;
    ShiftedProduct(c, k, b);
    var p := Product(m, b);
    assert IsTrimmed(p) by {
      ProductLead(m, b);
      MulNonZero(c, Lead(b));
    }
    assert Times(m, b) == p;
    var s := Sum(a, Negate(p));
    forall i | 0 <= i < |a| ensures updated[i] == s[i] {
      MulUnits(p[i]);
    }
    assert updated == s;
  }

  lemma {:induction false} AllZeroTrims(p: seq<real>)
    requires forall i :: 0 <= i < |p| ==> p[i] == 0.0
    ensures Trim(p) == ZERO
  {
    if |p| > 1 {
      AllZeroTrims(p[..|p| - 1]);
    }
  }

  /** Writing a coefficient into a slot that holds zero adds a monomial. */
  lemma TrimUpdate(p: seq<real>, k: nat, c: real)
    requires k < |p| && p[k] == 0.0 && c != 0.0
    ensures Trim(p[k := c]) == Plus(Trim(p), Monomial(c, k))
  {
    hide Mul, Eval, Trim, Plus;
    var m := Monomial(c, k);
    assert p[k := c] == Sum(p, m);
    forall x ensures Eval(Trim(Sum(p, m)), x) == Eval(Plus(Trim(p), m), x) {
      TrimValue(Sum(p, m), x);
      TrimValue(p, x);
      SumValue(p, m, x);
      PlusValue(Trim(p), m, x);
    }
    Unique(Trim(Sum(p, m)), Plus(Trim(p), m));
  }

  method Divide(dividend: seq<real>, divisor: seq<real>) returns (result: Result<(Poly, Poly)>)
    ensures result.Failure? <==> Trim(divisor) == ZERO
    ensures result.Failure? ==> result.error == MathInvalid
    ensures result.Success? ==> IsDivision(Trim(dividend), Trim(divisor), result.value.0, result.value.1)
  {
    hide Mul, Trim, Times, Plus, Scaled, Sum, Product;
    var numerator := TrimInPlace(dividend);
    var denominator := TrimInPlace(divisor);
    if denominator == [0.0] {
      return Failure(MathInvalid);
    }
    ghost var a := numerator;
    TimesUnits(denominator);
    PlusZero(a);
    if |numerator| < |denominator| {
      return Success(([0.0], numerator));
    }
    var quotient := seq(|numerator| - |denominator| + 1, _ => 0.0);
    ghost var q := ZERO;
    assert Trim(quotient) == ZERO by { AllZeroTrims(quotient); }
    while |numerator| >= |denominator| && numerator != [0.0]
      invariant |quotient| == |a| - |denominator| + 1
      invariant |numerator| <= |a|
      invariant forall i :: 0 <= i <= |numerator| - |denominator| && numerator != ZERO ==> quotient[i] == 0.0
      invariant Trim(quotient) == q
      invariant a == Plus(Times(q, denominator), numerator)
      decreases |numerator|, numerator != ZERO
    {
      var offset := |numerator| - |denominator|;
      var factor := numerator[|numerator| - 1] / denominator[|denominator| - 1];
      assert factor == Lead(StepQuotient(numerator, denominator)) && factor != 0.0;
      assert StepQuotient(numerator, denominator) == Monomial(factor, offset);
      hide StepQuotient, Monomial, Reduced;
      DivisionStep(a, denominator, q, numerator);
      TrimUpdate(quotient, offset, factor);
      quotient := quotient[offset := factor];
      q := Plus(q, Monomial(factor, offset));
      var updated := SubtractShifted(numerator, denominator, factor, offset);
      ReducedShrinks(numerator, denominator);
      SubtractedIsReduced(numerator, denominator, updated);
      numerator := TrimInPlace(updated);
    }
    var trimmed := TrimInPlace(quotient);
    result := Success((trimmed, numerator));
  }

  lemma DivisionUnique(a: Poly, b: Poly, q: Poly, r: Poly, q': Poly, r': Poly)
    requires b != ZERO && IsDivision(a, b, q, r) && IsDivision(a, b, q', r')
    ensures q == q' && r == r'
  {
    hide Mul, Times, Plus, Negate, Trim;
    var d := Plus(q, Negate(q'));
    DifferenceOfProducts(q, q', b, r, r');
    PlusNegate(r);
    assert d == ZERO;
    DifferenceZero(q, q');
    DifferenceZero(r', r) by { TimesUnits(b); }
  }

  lemma DifferenceZero(p: Poly, q: Poly)
    requires Plus(p, Negate(q)) == ZERO
    ensures p == q
  {
    hide *;
    PlusAssociates(p, Negate(q), q);
    PlusCommutes(Negate(q), q);
    PlusNegate(q);
    PlusZero(p);
    PlusZero(q);
  }

  lemma DifferenceOfProducts(q: Poly, q': Poly, b: Poly, r: Poly, r': Poly)
    requires Plus(Times(q, b), r) == Plus(Times(q', b), r')
    ensures Times(Plus(q, Negate(q')), b) == Plus(r', Negate(r))
  {
    hide *;
    var left, right := Times(Plus(q, Negate(q')), b), Plus(r', Negate(r));
    forall x ensures Eval(left, x) == Eval(right, x) {
      TimesValue(Plus(q, Negate(q')), b, x);
      PlusValue(q, Negate(q'), x);
      NegateValue(q', x);
      PlusValue(r', Negate(r), x);
      NegateValue(r, x);
      PlusValue(Times(q, b), r, x);
      PlusValue(Times(q', b), r', x);
      TimesValue(q, b, x);
      TimesValue(q', b, x);
      MulDistributes(Eval(b, x), Eval(q, x), -Eval(q', x));
      MulNegates(Eval(q', x), Eval(b, x));
    }
    Unique(left, right);
  }

  /** Division that must leave no remainder: it fails exactly when the divisor does not divide. */
  method ExactDivide(dividend: Poly, divisor: Poly) returns (result: Result<Poly>)
    ensures result.Success? <==> divisor != ZERO && Divides(divisor, dividend)
    ensures result.Success? ==> Times(divisor, result.value) == dividend
    ensures result.Failure? ==> result.error == MathInvalid
  {
    hide Mul, Trim, Times, Plus;
    var division :- Divide(dividend, divisor);
    var quotient, remainder := division.0, division.1;
    TimesCommutes(quotient, divisor);
    PlusZero(Times(quotient, divisor));
    if remainder != [0.0] {
      if Divides(divisor, dividend) {
        var u: Poly :| Times(divisor, u) == dividend;
        TimesCommutes(u, divisor);
        PlusZero(dividend);
        DivisionUnique(dividend, divisor, quotient, remainder, u, ZERO);
        assert false;
      }
      return Failure(MathInvalid);
    }
    result := Success(quotient);
  }

  // ---------- greatest common divisors ----------

  /** Division by the leading coefficient. */
  function Monic(p: Poly): (m: Poly)
    ensures p == ZERO ==> m == ZERO
    ensures p != ZERO ==> IsMonic(m) && Degree(m) == Degree(p)
    ensures IsMonic(p) ==> m == p
  {
    var leading := p[|p| - 1];
    if p == [0.0] then p else
      var m := seq(|p|, i requires 0 <= i < |p| => p[i] / leading);
      assert leading == 1.0 ==> m == p;
      m
  }

  lemma MonicScales(p: Poly)
    requires p != ZERO
    ensures Times([1.0 / Lead(p)], p) == Monic(p)
  {
    hide Mul, Trim;
    var c := 1.0 / Lead(p);
    ConstantProduct(c, p);
    forall i | 0 <= i < |p| ensures Scaled(p, c)[i] == p[i] / Lead(p) {
      Quotient(p[i], Lead(p));
    }
    assert Scaled(p, c) == Monic(p);
  }

  lemma Quotient(a: real, b: real)
    requires b != 0.0
    ensures Mul(1.0 / b, a) == a / b
  {
  }

  ghost predicate Combines(g: Poly, a: Poly, b: Poly) {
    exists s: Poly, t: Poly :: IsCombination(s, t, g, a, b)
  }

  predicate IsCombination(s: Poly, t: Poly, g: Poly, a: Poly, b: Poly) {
    Plus(Times(s, a), Times(t, b)) == g
  }

  /** A common divisor, normalised to be monic or zero, that is a combination of a and b. */
  ghost predicate IsGcd(g: Poly, a: Poly, b: Poly) {
    (IsMonic(g) || g == ZERO) && Divides(g, a) && Divides(g, b) && Combines(g, a, b)
  }

  /** Every common divisor divides the greatest one. */
  lemma GcdIsGreatest(g: Poly, a: Poly, b: Poly, d: Poly)
    requires IsGcd(g, a, b) && Divides(d, a) && Divides(d, b)
    ensures Divides(d, g)
  {
    hide Mul, Times, Plus;
    var s: Poly, t: Poly :| IsCombination(s, t, g, a, b);
    DividesTimes(d, a, s);
    DividesTimes(d, b, t);
    DividesPlus(d, Times(s, a), Times(t, b));
  }

  lemma Scaling(s: Poly, t: Poly, g: Poly, a: Poly, b: Poly, c: Poly)
    requires IsCombination(s, t, g, a, b)
    ensures IsCombination(Times(c, s), Times(c, t), Times(c, g), a, b)
  {
    hide Mul, Times, Plus;
    TimesDistributes(c, Times(s, a), Times(t, b));
    TimesAssociates(c, s, a);
    TimesAssociates(c, t, b);
  }

  lemma Adding(s: Poly, t: Poly, g: Poly, s': Poly, t': Poly, g': Poly, a: Poly, b: Poly)
    requires IsCombination(s, t, g, a, b) && IsCombination(s', t', g', a, b)
    ensures IsCombination(Plus(s, s'), Plus(t, t'), Plus(g, g'), a, b)
  {
    hide Mul, Times, Plus;
    TimesDistributes(a, s, s');
    TimesDistributes(b, t, t');
    Exchange(Times(s, a), Times(s', a), Times(t, b), Times(t', b));
  }

  lemma Exchange(p: Poly, p': Poly, q: Poly, q': Poly)
    ensures Plus(Plus(p, p'), Plus(q, q')) == Plus(Plus(p, q), Plus(p', q'))
  {
    hide *;
    PlusAssociates(p, p', Plus(q, q'));
    PlusAssociates(p', q, q');
    PlusCommutes(p', q);
    PlusAssociates(q, p', q');
    PlusAssociates(p, q, Plus(p', q'));
  }

  /** A remainder is its dividend less a multiple of its divisor. */
  lemma RemainderIs(a: Poly, b: Poly, q: Poly, r: Poly)
    requires a == Plus(Times(q, b), r)
    ensures r == Plus(a, Times(Negate(q), b))
  {
    hide *;
    var t := Times(q, b);
    TimesCommutes(Negate(q), b);
    TimesNegate(b, q);
    TimesCommutes(b, q);
    PlusCommutes(t, r);
    PlusAssociates(r, t, Negate(t));
    PlusNegate(t);
    PlusZero(r);
  }

  lemma RemainderCombines(a: Poly, b: Poly, first: Poly, second: Poly, q: Poly, r: Poly)
    requires Combines(first, a, b) && Combines(second, a, b)
    requires first == Plus(Times(q, second), r)
    ensures Combines(r, a, b)
  {
    hide Mul, Times, Plus, Negate, IsCombination;
    var s: Poly, t: Poly :| IsCombination(s, t, first, a, b);
    var s': Poly, t': Poly :| IsCombination(s', t', second, a, b);
    var c := Negate(q);
    RemainderIs(first, second, q, r);
    Scaling(s', t', second, a, b, c);
    Adding(s, t, first, Times(c, s'), Times(c, t'), Times(c, second), a, b);
  }

  lemma CombinesSelf(a: Poly, b: Poly)
    ensures Combines(a, a, b) && Combines(b, a, b)
  {
    hide Mul, Times, Plus;
    TimesUnits(a);
    TimesUnits(b);
    PlusZero(a);
    PlusZero(b);
    assert IsCombination(ONE, ZERO, a, a, b);
    assert IsCombination(ZERO, ONE, b, a, b);
  }

  /** Dividing a common divisor by its leading coefficient keeps what makes it the greatest. */
  lemma MonicIsGcd(g: Poly, a: Poly, b: Poly)
    requires Divides(g, a) && Divides(g, b) && Combines(g, a, b)
    ensures IsGcd(Monic(g), a, b)
  {
    if g != ZERO {
      hide Mul, Times, Plus, Monic, IsCombination;
      var c: Poly, c': Poly := [1.0 / Lead(g)], [Lead(g)];
      MonicScales(g);
      var s: Poly, t: Poly :| IsCombination(s, t, g, a, b);
      Scaling(s, t, g, a, b, c);
      MonicDivides(g, a);
      MonicDivides(g, b);
    }
  }

  lemma MonicDivides(g: Poly, a: Poly)
    requires g != ZERO && Divides(g, a)
    ensures Divides(Monic(g), a)
  {
    hide Mul, Times, Plus, Monic;
    var c: Poly, c': Poly := [1.0 / Lead(g)], [Lead(g)];
    assert Times(c, c') == ONE by { Reciprocal(Lead(g)); }
    var u: Poly :| Times(g, u) == a;
    MonicScales(g);
    // Monic(g) * (c' * u) = (c * g) * (c' * u) = (c * c') * (g * u)
    TimesAssociates(Times(c, g), c', u);
    TimesCommutes(c, g);
    TimesAssociates(g, c, c');
    TimesUnits(g);
    assert Times(Monic(g), Times(c', u)) == a;
  }

  lemma Reciprocal(l: real)
    requires l != 0.0
    ensures Times([1.0 / l], [l]) == ONE
  {
    hide Mul, Trim;
    ConstantProduct(1.0 / l, [l]);
    assert Mul(1.0 / l, l) == 1.0 by { DivideBack(1.0, l); }
    assert Scaled([l], 1.0 / l) == [1.0];
  }

  lemma DividesSelf(a: Poly)
    ensures Divides(a, a) && Divides(a, ZERO)
  {
    hide Times;
    TimesUnits(a);
  }

  lemma DividesFromRemainder(d: Poly, first: Poly, second: Poly, q: Poly, r: Poly)
    requires first == Plus(Times(q, second), r) && Divides(d, second) && Divides(d, r)
    ensures Divides(d, first)
  {
    hide Times, Plus;
    DividesTimes(d, second, q);
    DividesPlus(d, Times(q, second), r);
  }

  method Gcd(left: Poly, right: Poly) returns (g: Poly)
    ensures IsGcd(g, left, right)
  {
    hide Mul, Times, Plus, IsCombination, Trim;
    var first, second := left, right;
    CombinesSelf(left, right);
    while second != [0.0]
      invariant Combines(first, left, right) && Combines(second, left, right)
      invariant forall d: Poly :: Divides(d, first) && Divides(d, second) ==> Divides(d, left) && Divides(d, right)
      decreases if second == ZERO then 0 else |second|
    {
      var division := Divide(first, second);
      var quotient, remainder := division.value.0, division.value.1;
      RemainderCombines(left, right, first, second, quotient, remainder);
      forall d: Poly | Divides(d, second) && Divides(d, remainder)
        ensures Divides(d, left) && Divides(d, right)
      {
        DividesFromRemainder(d, first, second, quotient, remainder);
      }
      first, second := second, remainder;
    }
    DividesSelf(first);
    MonicIsGcd(first, left, right);
    g := Monic(first);
  }
}
