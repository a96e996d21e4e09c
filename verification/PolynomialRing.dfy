/** The ring laws of trimmed polynomials, the formal derivative, and divisibility. */
module PolynomialRing {
  import opened Fractions
  import opened Polynomials

  // ---------- ring laws ----------

  lemma PlusCommutes(p: Poly, q: Poly)
    ensures Plus(p, q) == Plus(q, p)
  {
    hide *;
    forall x ensures Eval(Plus(p, q), x) == Eval(Plus(q, p), x) {
      PlusValue(p, q, x);
      PlusValue(q, p, x);
    }
    Unique(Plus(p, q), Plus(q, p));
  }

  lemma PlusAssociates(p: Poly, q: Poly, r: Poly)
    ensures Plus(Plus(p, q), r) == Plus(p, Plus(q, r))
  {
    hide *;
    var left, right := Plus(Plus(p, q), r), Plus(p, Plus(q, r));
    forall x ensures Eval(left, x) == Eval(right, x) {
      PlusValue(p, q, x);
      PlusValue(q, r, x);
      PlusValue(Plus(p, q), r, x);
      PlusValue(p, Plus(q, r), x);
    }
    Unique(left, right);
  }

  lemma ZeroValue(x: real)
    ensures Eval(ZERO, x) == 0.0 == EvalDerivative(ZERO, x)
    ensures Eval(ONE, x) == 1.0
  {
    hide Mul;
    MulUnits(x);
  }

  lemma PlusZero(p: Poly)
    ensures Plus(p, ZERO) == p == Plus(ZERO, p)
  {
    hide *;
    forall x ensures Eval(Plus(p, ZERO), x) == Eval(p, x) {
      PlusValue(p, ZERO, x);
      ZeroValue(x);
    }
    Unique(Plus(p, ZERO), p);
    PlusCommutes(p, ZERO);
  }

  lemma PlusNegate(p: Poly)
    ensures Plus(p, Negate(p)) == ZERO
  {
    hide *;
    forall x ensures Eval(Plus(p, Negate(p)), x) == Eval(ZERO, x) {
      PlusValue(p, Negate(p), x);
      NegateValue(p, x);
      ZeroValue(x);
    }
    Unique(Plus(p, Negate(p)), ZERO);
  }

  lemma TimesCommutes(p: Poly, q: Poly)
    ensures Times(p, q) == Times(q, p)
  {
    hide *;
    forall x ensures Eval(Times(p, q), x) == Eval(Times(q, p), x) {
      TimesValue(p, q, x);
      TimesValue(q, p, x);
      MulCommutes(Eval(p, x), Eval(q, x));
    }
    Unique(Times(p, q), Times(q, p));
  }

  lemma TimesAssociates(p: Poly, q: Poly, r: Poly)
    ensures Times(Times(p, q), r) == Times(p, Times(q, r))
  {
    hide *;
    var left, right := Times(Times(p, q), r), Times(p, Times(q, r));
    forall x ensures Eval(left, x) == Eval(right, x) {
      TimesValue(p, q, x);
      TimesValue(q, r, x);
      TimesValue(Times(p, q), r, x);
      TimesValue(p, Times(q, r), x);
      MulAssociates(Eval(p, x), Eval(q, x), Eval(r, x));
    }
    Unique(left, right);
  }

  lemma TimesDistributes(p: Poly, q: Poly, r: Poly)
    ensures Times(p, Plus(q, r)) == Plus(Times(p, q), Times(p, r))
    ensures Times(Plus(q, r), p) == Plus(Times(q, p), Times(r, p))
  {
    hide *;
    var left, right := Times(p, Plus(q, r)), Plus(Times(p, q), Times(p, r));
    forall x ensures Eval(left, x) == Eval(right, x) {
      PlusValue(q, r, x);
      TimesValue(p, Plus(q, r), x);
      TimesValue(p, q, x);
      TimesValue(p, r, x);
      PlusValue(Times(p, q), Times(p, r), x);
      MulDistributes(Eval(p, x), Eval(q, x), Eval(r, x));
    }
    Unique(left, right);
    TimesCommutes(p, Plus(q, r));
    TimesCommutes(p, q);
    TimesCommutes(p, r);
  }

  lemma TimesUnits(p: Poly)
    ensures Times(p, ONE) == p == Times(ONE, p)
    ensures Times(p, ZERO) == ZERO == Times(ZERO, p)
  {
    hide *;
    forall x ensures Eval(Times(p, ONE), x) == Eval(p, x) && Eval(Times(p, ZERO), x) == Eval(ZERO, x) {
      TimesValue(p, ONE, x);
      TimesValue(p, ZERO, x);
      ZeroValue(x);
      MulUnits(Eval(p, x));
    }
    Unique(Times(p, ONE), p);
    Unique(Times(p, ZERO), ZERO);
    TimesCommutes(p, ONE);
    TimesCommutes(p, ZERO);
  }

  lemma TimesNegate(p: Poly, q: Poly)
    ensures Times(p, Negate(q)) == Negate(Times(p, q))
  {
    hide *;
    forall x ensures Eval(Times(p, Negate(q)), x) == Eval(Negate(Times(p, q)), x) {
      TimesValue(p, q, x);
      TimesValue(p, Negate(q), x);
      NegateValue(q, x);
      NegateValue(Times(p, q), x);
      MulNegates(Eval(p, x), Eval(q, x));
    }
    Unique(Times(p, Negate(q)), Negate(Times(p, q)));
  }

  /** There are no zero divisors, so a nonzero factor cancels. */
  lemma TimesCancels(c: Poly, p: Poly, q: Poly)
    requires c != ZERO && Times(c, p) == Times(c, q)
    ensures p == q
  {
    hide *;
    var d := Plus(p, Negate(q));
    TimesDistributes(c, p, Negate(q));
    TimesNegate(c, q);
    PlusNegate(Times(c, q));
    assert Times(c, d) == ZERO;
    assert d == ZERO;
    PlusAssociates(p, Negate(q), q);
    PlusCommutes(Negate(q), q);
    PlusNegate(q);
    PlusZero(p);
    PlusZero(q);
  }

  function Pow(p: Poly, n: nat): Poly {
    if n == 0 then ONE else Times(p, Pow(p, n - 1))
  }

  // ---------- the formal derivative ----------

  function Weighted(p: seq<real>, from: nat): (r: seq<real>)
    ensures |r| == |p|
    ensures forall i :: 0 <= i < |p| ==> r[i] == Mul((from + i) as real, p[i])
  {
    seq(|p|, i requires 0 <= i < |p| => Mul((from + i) as real, p[i]))
  }

  /** The formal derivative: coefficient i of the result is (i + 1) * p[i + 1]. */
  function Derivative(p: Poly): (d: Poly)
    ensures Degree(p) >= 1 ==> Degree(d) == Degree(p) - 1 && d != ZERO
    ensures Degree(p) == 0 ==> d == ZERO
  {
    hide Mul, Trim;
    MulNonZero(Degree(p) as real, Lead(p));
    Trim(Weighted(p[1..], 1))
  }

  lemma {:induction false} WeightedStep(p: seq<real>, from: nat, x: real)
    ensures Eval(Weighted(p, from + 1), x) == Eval(Weighted(p, from), x) + Eval(p, x)
  {
    hide Mul;
    if p != [] {
      var u := p[1..];
      WeightedStep(u, from + 1, x);
      assert Weighted(p, from)[1..] == Weighted(u, from + 1);
      assert Weighted(p, from + 1)[1..] == Weighted(u, from + 2);
      MulDistributes(p[0], from as real, 1.0);
      MulUnits(p[0]);
      MulDistributes(x, Eval(Weighted(u, from + 1), x), Eval(u, x));
    }
  }

  lemma {:induction false} WeightedValue(p: seq<real>, x: real)
    requires p != []
    ensures Eval(Weighted(p[1..], 1), x) == EvalDerivative(p, x)
  {
    hide Mul;
    if |p| > 1 {
      var u := p[1..];
      WeightedValue(u, x);
      WeightedStep(u[1..], 1, x);
      assert Weighted(u, 1)[1..] == Weighted(u[1..], 2);
      MulUnits(u[0]);
      MulDistributes(x, EvalDerivative(u, x), Eval(u[1..], x));
    } else {
      MulUnits(x);
    }
  }

  lemma DerivativeValue(p: Poly, x: real)
    ensures Eval(Derivative(p), x) == EvalDerivative(p, x)
  {
    hide Mul, Eval, EvalDerivative, Weighted;
    WeightedValue(p, x);
    TrimValue(Weighted(p[1..], 1), x);
  }

  lemma DerivativeOfProduct(p: Poly, q: Poly)
    ensures Derivative(Times(p, q)) == Plus(Times(Derivative(p), q), Times(p, Derivative(q)))
  {
    hide *;
    var left, right := Derivative(Times(p, q)), Plus(Times(Derivative(p), q), Times(p, Derivative(q)));
    forall x ensures Eval(left, x) == Eval(right, x) {
      DerivativeValue(Times(p, q), x);
      DerivativeValue(p, x);
      DerivativeValue(q, x);
      TimesValue(p, q, x);
      TimesValue(Derivative(p), q, x);
      TimesValue(p, Derivative(q), x);
      PlusValue(Times(Derivative(p), q), Times(p, Derivative(q)), x);
    }
    Unique(left, right);
  }

  // ---------- divisibility ----------

  ghost predicate Divides(d: Poly, p: Poly) {
    exists q: Poly :: Times(d, q) == p
  }

  lemma DividesTimes(d: Poly, p: Poly, q: Poly)
    requires Divides(d, p)
    ensures Divides(d, Times(p, q)) && Divides(d, Times(q, p))
  {
    var u: Poly :| Times(d, u) == p;
    hide *;
    TimesAssociates(d, u, q);
    TimesCommutes(p, q);
    assert Times(d, Times(u, q)) == Times(p, q);
  }

  lemma DividesPlus(d: Poly, p: Poly, q: Poly)
    requires Divides(d, p) && Divides(d, q)
    ensures Divides(d, Plus(p, q))
  {
    var u: Poly :| Times(d, u) == p;
    var v: Poly :| Times(d, v) == q;
    hide *;
    TimesDistributes(d, u, v);
    assert Times(d, Plus(u, v)) == Plus(p, q);
  }
}
