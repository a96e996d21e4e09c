/** Exact fractions, modelled by `real`.

    Products are written through `Mul`, so that a proof can `hide Mul` and appeal to the laws
    below one at a time instead of leaving nonlinear arithmetic to the solver. */
module Fractions {

  function Mul(a: real, b: real): real {
    a * b
  }

  lemma MulCommutes(a: real, b: real)
    ensures Mul(a, b) == Mul(b, a)
  {
  }

  lemma MulAssociates(a: real, b: real, c: real)
    ensures Mul(Mul(a, b), c) == Mul(a, Mul(b, c))
  {
  }

  lemma MulDistributes(a: real, b: real, c: real)
    ensures Mul(a, b + c) == Mul(a, b) + Mul(a, c)
    ensures Mul(b + c, a) == Mul(b, a) + Mul(c, a)
  {
  }

  lemma MulUnits(a: real)
    ensures Mul(a, 0.0) == Mul(0.0, a) == 0.0
    ensures Mul(a, 1.0) == Mul(1.0, a) == a
    ensures Mul(a, -1.0) == Mul(-1.0, a) == -a
  {
  }

  lemma MulNonZero(a: real, b: real)
    ensures Mul(a, b) == 0.0 <==> a == 0.0 || b == 0.0
  {
  }

  lemma MulNegates(a: real, b: real)
    ensures Mul(-a, b) == -Mul(a, b) == Mul(a, -b)
  {
  }

  lemma DivideBack(a: real, b: real)
    requires b != 0.0
    ensures Mul(a / b, b) == a
  {
  }
}
