/** Facts about products of reals, stated once so that the proofs that need them
    do not depend on the solver's non-linear reasoning. */
module Arith {

  lemma MulNonneg(a: real, b: real)
    requires 0.0 <= a && 0.0 <= b
    ensures 0.0 <= a * b
  {
  }

  lemma MulPos(a: real, b: real)
    requires 0.0 < a && 0.0 < b
    ensures 0.0 < a * b
  {
  }

  lemma MulLe(a: real, b: real, c: real)
    requires 0.0 <= a && b <= c
    ensures a * b <= a * c
  {
    MulNonneg(a, c - b);
    assert a * c - a * b == a * (c - b);
  }

  lemma SquareNonneg(a: real)
    ensures 0.0 <= a * a
  {
    if a < 0.0 { MulNonneg(-a, -a); } else { MulNonneg(a, a); }
  }

  lemma LinearStep(a: real, b: real)
    requires 0.0 <= a * b - a * a && 0.0 < b * b - a * b
    ensures a * a < b * b
  {
  }

  /** Squaring is strictly increasing on the non-negative reals. */
  lemma SquareLess(a: real, b: real)
    requires 0.0 <= a < b
    ensures a * a < b * b
  {
    MulNonneg(a, b - a);
    MulPos(b, b - a);
    LinearStep(a, b);
  }
}
