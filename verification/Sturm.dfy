/** Sturm sequences and sign variations (`_sturm_sequence`, `_variations` in geometry_math.py). */
module Sturm {
  import opened Fractions
  import opened Outcomes
  import opened Polynomials
  import opened PolynomialRing
  import opened Euclid

  /** p, p', then negated remainders down to the last one that is not zero. */
  ghost predicate IsSturmSequence(p: Poly, s: seq<Poly>) {
    && |s| >= 2
    && s[0] == Monic(p) && s[1] == Derivative(Monic(p))
    && (forall i {:trigger s[i]} :: 2 <= i < |s| ==> IsSturmStep(s[i - 2], s[i - 1], s[i]))
    && (s[|s| - 1] != ZERO ==> Divides(s[|s| - 1], s[|s| - 2]))
  }

  /** c is the negated remainder of a by b. */
  ghost predicate IsSturmStep(a: Poly, b: Poly, c: Poly) {
    exists q: Poly :: IsDivision(a, b, q, Negate(c))
  }

  /** Degrees fall strictly along the sequence. */
  ghost predicate Descends(s: seq<Poly>) {
    && (forall i :: 0 <= i < |s| ==> s[i] != ZERO)
    && forall i :: 0 < i < |s| ==> Degree(s[i]) < Degree(s[i - 1])
  }

  lemma {:induction false} DescentIsShort(s: seq<Poly>, i: nat)
    requires Descends(s) && i < |s|
    ensures Degree(s[i]) + i <= Degree(s[0])
  {
    if i > 0 {
      DescentIsShort(s, i - 1);
    }
  }

  ghost predicate Growing(p: Poly, s: seq<Poly>) {
    && |s| >= 2
    && s[0] == Monic(p) && s[1] == Derivative(Monic(p))
    && (forall i {:trigger s[i]} :: 2 <= i < |s| ==> IsSturmStep(s[i - 2], s[i - 1], s[i]))
    && (Degree(p) >= 1 ==> Descends(s))
  }

  lemma GrowingStarts(p: Poly)
    ensures Growing(p, [Monic(p), Derivative(Monic(p))])
  {
    hide Monic, Derivative;
  }

  lemma GrowingStep(p: Poly, s: seq<Poly>, q: Poly, r: Poly)
    requires Growing(p, s) && r != ZERO && IsDivision(s[|s| - 2], s[|s| - 1], q, r)
    ensures Growing(p, s + [Negate(r)]) && Negate(r) != ZERO && Degree(Negate(r)) < Degree(s[|s| - 1])
  {
    hide *;
    assert Growing(p, s) ==> |s| >= 2 by { GrowingIsLong(p, s); }
    var n := |s|;
    NegatedRemainder(s[n - 2], s[n - 1], q, r);
    GrowingExtends(p, s, Negate(r));
  }

  lemma GrowingIsLong(p: Poly, s: seq<Poly>)
    ensures Growing(p, s) ==> |s| >= 2
  {
  }

  lemma GrowingExtends(p: Poly, s: seq<Poly>, next: Poly)
    requires Growing(p, s) && next != ZERO && Degree(next) < Degree(s[|s| - 1])
    requires IsSturmStep(s[|s| - 2], s[|s| - 1], next)
    ensures Growing(p, s + [next])
  {
    hide Monic, Derivative, IsSturmStep, IsTrimmed, Descends;
    var longer := s + [next];
    if Descends(s) {
      DescentExtends(s, next);
    }
    forall i {:trigger longer[i]} | 2 <= i < |longer| ensures IsSturmStep(longer[i - 2], longer[i - 1], longer[i]) {
      assert longer[i - 2] == s[i - 2] && longer[i - 1] == s[i - 1];
      assert i < |s| ==> longer[i] == s[i];
    }
  }

  lemma DescentExtends(s: seq<Poly>, next: Poly)
    requires Descends(s) && s != [] && next != ZERO && Degree(next) < Degree(s[|s| - 1])
    ensures Descends(s + [next])
  {
    hide IsTrimmed;
  }

  method SturmSequence(polynomial: Poly) returns (sequence: seq<Poly>)
    ensures IsSturmSequence(polynomial, sequence)
    ensures Degree(polynomial) >= 1 ==> Descends(sequence) && |sequence| <= Degree(polynomial) + 1
  {
    hide Mul, Times, Plus, Derivative, Divides, Monic, IsSturmStep, Negate, Trim, IsDivision, Descends;
    sequence := [Monic(polynomial), Derivative(Monic(polynomial))];
    GrowingStarts(polynomial);
    while sequence[|sequence| - 1] != [0.0]
      invariant Growing(polynomial, sequence)
      decreases sequence[|sequence| - 1] != ZERO, Degree(sequence[|sequence| - 1])
    {
      var n := |sequence|;
      var division := Divide(sequence[n - 2], sequence[n - 1]);
      var quotient, remainder := division.value.0, division.value.1;
      if remainder == [0.0] {
        ExactDivisionDivides(sequence[n - 2], sequence[n - 1], quotient);
        break;
      }
      GrowingStep(polynomial, sequence, quotient, remainder);
      sequence := sequence + [Negate(remainder)];
    }
    if Degree(polynomial) >= 1 {
      DescentIsShort(sequence, |sequence| - 1);
    }
  }

  lemma ExactDivisionDivides(a: Poly, b: Poly, q: Poly)
    requires IsDivision(a, b, q, ZERO)
    ensures Divides(b, a)
  {
    hide Times, Plus;
    PlusZero(Times(q, b));
    TimesCommutes(q, b);
  }

  lemma NegatedRemainder(a: Poly, b: Poly, q: Poly, r: Poly)
    requires IsDivision(a, b, q, r) && r != ZERO
    ensures IsSturmStep(a, b, Negate(r)) && Negate(r) != ZERO && Degree(Negate(r)) < Degree(b)
  {
    hide Mul, Times, Plus, Negate;
    NegateTwice(r);
  }

  lemma NegateTwice(p: Poly)
    ensures Negate(Negate(p)) == p
    ensures Negate(p) == ZERO <==> p == ZERO
  {
    hide *;
    forall x ensures Eval(Negate(Negate(p)), x) == Eval(p, x) {
      NegateValue(p, x);
      NegateValue(Negate(p), x);
    }
    Unique(Negate(Negate(p)), p);
    PlusNegate(ZERO);
    PlusZero(Negate(ZERO));
  }

  // ---------- sign variations ----------

  /** The signs of the values at x, zeros left out. */
  function Signs(sequence: seq<Poly>, x: real): (signs: seq<int>)
    ensures |signs| <= |sequence|
    ensures sequence != [] && Eval(sequence[0], x) == 0.0 ==> |signs| < |sequence|
  {
    if sequence == [] then []
    else
      var value := Eval(sequence[0], x);
      (if value > 0.0 then [1] else if value < 0.0 then [-1] else []) + Signs(sequence[1..], x)
  }

  function Changes(signs: seq<int>): (n: nat)
    ensures n <= if signs == [] then 0 else |signs| - 1
  {
    if |signs| < 2 then 0
    else (if signs[0] != signs[1] then 1 else 0) + Changes(signs[1..])
  }

  function Variations(sequence: seq<Poly>, x: real): nat {
    Changes(Signs(sequence, x))
  }

  lemma {:induction false} SignsStep(s: seq<Poly>, p: Poly, x: real)
    ensures Signs(s + [p], x) == Signs(s, x) + Signs([p], x)
  {
    hide Eval;
    if s != [] {
      assert (s + [p])[1..] == s[1..] + [p];
      SignsStep(s[1..], p, x);
    } else {
      assert s + [p] == [p];
    }
  }

  method CountVariations(sequence: seq<Poly>, point: real) returns (count: nat)
    ensures count == Variations(sequence, point)
  {
    hide Mul, Eval;
    var signs: seq<int> := [];
    for index := 0 to |sequence|
      invariant signs == Signs(sequence[..index], point)
    {
      var value := Evaluate(sequence[index], point);
      SignsStep(sequence[..index], sequence[index], point);
      assert sequence[..index + 1] == sequence[..index] + [sequence[index]];
      if value > 0.0 {
        signs := signs + [1];
      } else if value < 0.0 {
        signs := signs + [-1];
      }
    }
    assert sequence[..|sequence|] == sequence;
    count := Changes(signs);
  }
}
