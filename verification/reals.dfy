/**
 * Sign facts about real products. Products are wrapped in `Mul` so that the
 * facts below are stated about one term that the solver does not rewrite.
 */
module Reals {
  function Mul(x: real, y: real): real {
    x * y
  }

  lemma MulNonneg(x: real, y: real)
    requires x >= 0.0 && y >= 0.0
    ensures Mul(x, y) >= 0.0
  {
  }

  lemma MulPos(x: real, y: real)
    requires x > 0.0 && y > 0.0
    ensures Mul(x, y) > 0.0
  {
  }

  lemma MulNeg(x: real, y: real)
    requires x < 0.0 && y < 0.0
    ensures Mul(x, y) > 0.0
  {
  }

  /** Subtraction distributes over `Mul` on the left. */
  lemma MulSubLeft(a: real, b: real, y: real)
    ensures Mul(a - b, y) == Mul(a, y) - Mul(b, y)
  {
  }

  /** The square of a real, the summand of a squared error. */
  function Sq(a: real): real {
    Mul(a, a)
  }

  /** A square is never negative, and strictly positive away from zero. */
  lemma SqSign(a: real)
    ensures Sq(a) >= 0.0
    ensures a != 0.0 ==> Sq(a) > 0.0
  {
    if a > 0.0 {
      MulPos(a, a);
    } else if a < 0.0 {
      MulNeg(a, a);
    }
  }
}
