/** Exact polynomial arithmetic.

    A polynomial is a sequence of coefficients in ascending order.  A *trimmed* polynomial is
    never empty and has no superfluous trailing zero, so the zero polynomial is [0.0].  Two
    trimmed polynomials that agree at every point are equal (`Unique`), which turns every ring
    law into a law about values. */
module Polynomials {
  import opened Fractions

  predicate IsTrimmed(p: seq<real>) {
    |p| >= 1 && (|p| == 1 || p[|p| - 1] != 0.0)
  }

  type Poly = p: seq<real> | IsTrimmed(p) witness [0.0]

  const ZERO: Poly := [0.0]
  const ONE: Poly := [1.0]

  function Degree(p: Poly): nat {
    |p| - 1
  }

  function Lead(p: Poly): real {
    p[|p| - 1]
  }

  predicate IsMonic(p: Poly) {
    Lead(p) == 1.0
  }

  /** The value of p at x. */
  function Eval(p: seq<real>, x: real): real {
    if p == [] then 0.0 else p[0] + Mul(x, Eval(p[1..], x))
  }

  /** The value at x of the formal derivative of p. */
  function EvalDerivative(p: seq<real>, x: real): real {
    if p == [] then 0.0 else Eval(p[1..], x) + Mul(x, EvalDerivative(p[1..], x))
  }

  // ---------- operations on raw coefficient sequences ----------

  function Trim(p: seq<real>): (t: Poly)
    ensures |p| >= 1 ==> |t| <= |p| && t == p[..|t|]
    ensures forall i :: |t| <= i < |p| ==> p[i] == 0.0
    ensures p == [] ==> t == ZERO
    ensures IsTrimmed(p) ==> t == p
  {
    if p == [] then
      [0.0]
    else if |p| > 1 && p[|p| - 1] == 0.0 then
      Trim(p[..|p| - 1])
    else
      p
  }

  lemma {:induction false} TrimValue(p: seq<real>, x: real)
    ensures Eval(Trim(p), x) == Eval(p, x)
    ensures EvalDerivative(Trim(p), x) == EvalDerivative(p, x)
  {
    MulUnits(x);
    hide Mul;
    if |p| > 1 && p[|p| - 1] == 0.0 {
      DropZeroValue(p, x);
      TrimValue(p[..|p| - 1], x);
    }
  }

  lemma {:induction false} DropZeroValue(p: seq<real>, x: real)
    requires |p| > 0 && p[|p| - 1] == 0.0
    ensures Eval(p[..|p| - 1], x) == Eval(p, x)
    ensures EvalDerivative(p[..|p| - 1], x) == EvalDerivative(p, x)
  {
    MulUnits(x);
    hide Mul;
    if |p| > 1 {
      assert p[..|p| - 1][1..] == p[1..][..|p| - 2];
      DropZeroValue(p[1..], x);
    }
  }

  function Sum(p: seq<real>, q: seq<real>): (r: seq<real>)
    ensures |r| == if |p| >= |q| then |p| else |q|
    ensures forall i :: 0 <= i < |r| ==>
      r[i] == (if i < |p| then p[i] else 0.0) + (if i < |q| then q[i] else 0.0)
  {
    if p == [] then q
    else if q == [] then p
    else [p[0] + q[0]] + Sum(p[1..], q[1..])
  }

  lemma {:induction false} SumValue(p: seq<real>, q: seq<real>, x: real)
    ensures Eval(Sum(p, q), x) == Eval(p, x) + Eval(q, x)
    ensures EvalDerivative(Sum(p, q), x) == EvalDerivative(p, x) + EvalDerivative(q, x)
  {
    hide Mul;
    if p != [] && q != [] {
      var u, v := p[1..], q[1..];
      assert Sum(p, q)[1..] == Sum(u, v);
      SumValue(u, v, x);
      MulDistributes(x, Eval(u, x), Eval(v, x));
      MulDistributes(x, EvalDerivative(u, x), EvalDerivative(v, x));
    }
  }

  function Scaled(p: seq<real>, c: real): (r: seq<real>)
    ensures |r| == |p|
    ensures forall i :: 0 <= i < |p| ==> r[i] == Mul(c, p[i])
  {
    hide Mul;
    if p == [] then [] else [Mul(c, p[0])] + Scaled(p[1..], c)
  }

  lemma {:induction false} ScaledValue(p: seq<real>, c: real, x: real)
    ensures Eval(Scaled(p, c), x) == Mul(c, Eval(p, x))
    ensures EvalDerivative(Scaled(p, c), x) == Mul(c, EvalDerivative(p, x))
  {
    MulUnits(c);
    hide Mul;
    if p != [] {
      var u := p[1..];
      assert Scaled(p, c)[1..] == Scaled(u, c);
      ScaledValue(u, c, x);
      MulDistributes(c, p[0], Mul(x, Eval(u, x)));
      MulDistributes(c, Eval(u, x), Mul(x, EvalDerivative(u, x)));
      Swap(c, x, Eval(u, x));
      Swap(c, x, EvalDerivative(u, x));
    }
  }

  lemma Swap(a: real, b: real, c: real)
    ensures Mul(a, Mul(b, c)) == Mul(b, Mul(a, c))
  {
    hide Mul;
    MulAssociates(a, b, c);
    MulAssociates(b, a, c);
    MulCommutes(a, b);
  }

  function Product(p: seq<real>, q: seq<real>): (r: seq<real>)
    ensures |p| >= 1 && |q| >= 1 ==> |r| == |p| + |q| - 1
  {
    hide Mul, Scaled, Sum;
    if p == [] then [] else Sum(Scaled(q, p[0]), [0.0] + Product(p[1..], q))
  }

  lemma {:induction false} ProductLead(p: seq<real>, q: seq<real>)
    requires |p| >= 1 && |q| >= 1
    ensures Product(p, q)[|p| + |q| - 2] == Mul(p[|p| - 1], q[|q| - 1])
  {
    hide Mul, Scaled, Sum;
    var n, head, tail := |p| + |q| - 2, Scaled(q, p[0]), Product(p[1..], q);
    var shifted := [0.0] + tail;
    assert Product(p, q) == Sum(head, shifted);
    if |p| == 1 {
      assert tail == [];
    } else {
      hide Product;
      ProductLead(p[1..], q);
      assert shifted[n] == tail[n - 1];
    }
  }

  /** The product takes the product of the values and obeys the product rule. */
  lemma {:induction false} ProductValue(p: seq<real>, q: seq<real>, x: real)
    ensures Eval(Product(p, q), x) == Mul(Eval(p, x), Eval(q, x))
    ensures EvalDerivative(Product(p, q), x)
         == Mul(EvalDerivative(p, x), Eval(q, x)) + Mul(Eval(p, x), EvalDerivative(q, x))
  {
    hide Mul;
    if p == [] {
      MulUnits(Eval(q, x));
      MulUnits(EvalDerivative(q, x));
    } else {
      hide Eval, EvalDerivative, Product;
      ProductValue(p[1..], q, x);
      ProductStep(p, q, x);
      EvalStep(p, x);
      Leibniz(p[0], x, Eval(p[1..], x), EvalDerivative(p[1..], x), Eval(q, x), EvalDerivative(q, x));
    }
  }

  lemma EvalStep(p: seq<real>, x: real)
    requires p != []
    ensures Eval(p, x) == p[0] + Mul(x, Eval(p[1..], x))
    ensures EvalDerivative(p, x) == Eval(p[1..], x) + Mul(x, EvalDerivative(p[1..], x))
  {
  }

  /** One coefficient of the product rule: c is the lowest coefficient, u and u' belong to the rest. */
  lemma Leibniz(c: real, x: real, u: real, u': real, v: real, v': real)
    ensures Mul(c, v) + Mul(x, Mul(u, v)) == Mul(c + Mul(x, u), v)
    ensures Mul(c, v') + (Mul(u, v) + Mul(x, Mul(u', v) + Mul(u, v')))
         == Mul(u + Mul(x, u'), v) + Mul(c + Mul(x, u), v')
  {
    hide Mul;
    MulDistributes(v, c, Mul(x, u));
    MulAssociates(x, u, v);
    MulDistributes(v, u, Mul(x, u'));
    MulAssociates(x, u', v);
    MulDistributes(v', c, Mul(x, u));
    MulAssociates(x, u, v');
    MulDistributes(x, Mul(u', v), Mul(u, v'));
  }

  lemma ProductStep(p: seq<real>, q: seq<real>, x: real)
    requires p != []
    ensures Eval(Product(p, q), x) == Mul(p[0], Eval(q, x)) + Mul(x, Eval(Product(p[1..], q), x))
    ensures EvalDerivative(Product(p, q), x) == Mul(p[0], EvalDerivative(q, x))
         + (Eval(Product(p[1..], q), x) + Mul(x, EvalDerivative(Product(p[1..], q), x)))
  {
    hide Mul;
    var tail := Product(p[1..], q);
    var head, shifted := Scaled(q, p[0]), [0.0] + tail;
    SumValue(head, shifted, x);
    ScaledValue(q, p[0], x);
    assert shifted[1..] == tail;
  }

  // ---------- a trimmed polynomial is determined by its values ----------

  /** The quotient of p by (X - a), by synthetic division. */
  function Deflate(p: seq<real>, a: real): (d: seq<real>)
    ensures |d| == if p == [] then 0 else |p| - 1
  {
    if |p| <= 1 then [] else [Eval(p[1..], a)] + Deflate(p[1..], a)
  }

  predicate AllZero(p: seq<real>) {
    forall i :: 0 <= i < |p| ==> p[i] == 0.0
  }

  lemma {:induction false} DeflateValue(p: seq<real>, a: real, x: real)
    ensures Eval(p, x) == Mul(x - a, Eval(Deflate(p, a), x)) + Eval(p, a)
  {
    MulUnits(x);
    MulUnits(a);
    MulUnits(x - a);
    hide Mul;
    if |p| > 1 {
      var u, e := Eval(p[1..], a), Eval(Deflate(p[1..], a), x);
      DeflateValue(p[1..], a, x);
      assert Deflate(p, a)[1..] == Deflate(p[1..], a);
      MulDistributes(x, Mul(x - a, e), u);
      MulDistributes(x - a, u, Mul(x, e));
      MulDistributes(u, x - a, a);
      Swap(x, x - a, e);
    }
  }

  lemma {:induction false} DeflateAllZero(p: seq<real>, a: real)
    requires AllZero(Deflate(p, a)) && Eval(p, a) == 0.0
    ensures AllZero(p)
  {
    MulUnits(a);
    hide Mul;
    if |p| > 1 {
      var d := Deflate(p, a);
      assert d[0] == 0.0 && d[1..] == Deflate(p[1..], a);
      DeflateAllZero(p[1..], a);
      assert p == [p[0]] + p[1..];
    }
  }

  /** A coefficient sequence that vanishes at every point from some point on is all zero. */
  lemma {:induction false} TooManyRoots(p: seq<real>, base: real)
    requires forall x :: x >= base ==> Eval(p, x) == 0.0
    ensures AllZero(p)
    decreases |p|
  {
    hide Mul;
    if p != [] {
      var d := Deflate(p, base);
      forall x | x >= base + 1.0
        ensures Eval(d, x) == 0.0
      {
        DeflateValue(p, base, x);
        MulNonZero(x - base, Eval(d, x));
      }
      TooManyRoots(d, base + 1.0);
      DeflateAllZero(p, base);
    }
  }

  /** Two trimmed polynomials with the same values are the same. */
  lemma Unique(p: Poly, q: Poly)
    requires forall x :: Eval(p, x) == Eval(q, x)
    ensures p == q
  {
    hide Mul, Eval, Scaled, Sum;
    var n := Scaled(q, -1.0);
    var d := Sum(p, n);
    forall x ensures Eval(d, x) == 0.0 {
      SumValue(p, n, x);
      ScaledValue(q, -1.0, x);
      MulUnits(Eval(q, x));
    }
    TooManyRoots(d, 0.0);
    forall i | 0 <= i < |q| ensures n[i] == -q[i] {
      MulUnits(q[i]);
    }
    assert forall i :: 0 <= i < |d| ==> d[i] == 0.0;
    assert |p| == |q|;
    assert forall i :: 0 <= i < |p| ==> d[i] == p[i] + n[i];
  }

  // ---------- the ring of trimmed polynomials ----------

  function Plus(p: Poly, q: Poly): (r: Poly)
    ensures Degree(r) <= if |p| >= |q| then Degree(p) else Degree(q)
  {
    Trim(Sum(p, q))
  }

  function Times(p: Poly, q: Poly): (r: Poly)
    ensures p != ZERO && q != ZERO ==>
      r != ZERO && Degree(r) == Degree(p) + Degree(q) && Lead(r) == Mul(Lead(p), Lead(q))
  {
    hide Mul, Product, Trim;
    ProductLead(p, q);
    MulNonZero(Lead(p), Lead(q));
    Trim(Product(p, q))
  }

  function Negate(p: Poly): (r: Poly)
    ensures |r| == |p|
  {
    hide Mul;
    MulUnits(Lead(p));
    Scaled(p, -1.0)
  }

  lemma PlusValue(p: Poly, q: Poly, x: real)
    ensures Eval(Plus(p, q), x) == Eval(p, x) + Eval(q, x)
    ensures EvalDerivative(Plus(p, q), x) == EvalDerivative(p, x) + EvalDerivative(q, x)
  {
    hide Mul, Eval, EvalDerivative;
    SumValue(p, q, x);
    TrimValue(Sum(p, q), x);
  }

  lemma TimesValue(p: Poly, q: Poly, x: real)
    ensures Eval(Times(p, q), x) == Mul(Eval(p, x), Eval(q, x))
    ensures EvalDerivative(Times(p, q), x)
         == Mul(EvalDerivative(p, x), Eval(q, x)) + Mul(Eval(p, x), EvalDerivative(q, x))
  {
    hide Mul, Eval, EvalDerivative;
    ProductValue(p, q, x);
    TrimValue(Product(p, q), x);
  }

  lemma NegateValue(p: Poly, x: real)
    ensures Eval(Negate(p), x) == -Eval(p, x)
    ensures EvalDerivative(Negate(p), x) == -EvalDerivative(p, x)
  {
    hide Mul, Eval, EvalDerivative;
    ScaledValue(p, -1.0, x);
    MulUnits(Eval(p, x));
    MulUnits(EvalDerivative(p, x));
  }
}
