/** Small facts of real arithmetic that the solver's nonlinear steps use. */
module RealArith {

  /** Multiplying both sides by a positive factor keeps a strict comparison. */
  lemma ScaleCompare(a: real, b: real, d: real)
    requires 0.0 < d
    ensures a < b <==> a * d < b * d
  {
    if a < b {
      assert (b - a) * d > 0.0;
    } else {
      assert (a - b) * d >= 0.0;
    }
  }

  /** A product is zero only when one of its factors is. */
  lemma ZeroProduct(a: real, b: real)
    requires a * b == 0.0
    ensures a == 0.0 || b == 0.0
  {
    if a != 0.0 {
      assert b == (a * b) / a;
    }
  }

  /** A quotient of positive numbers is positive. */
  lemma PositiveQuotient(a: real, b: real)
    requires 0.0 < a && 0.0 < b
    ensures 0.0 < a / b
  {
    assert a == (a / b) * b;
  }

  /** A product divided by one non-zero factor is the other factor. */
  lemma QuotientOfProduct(a: real, b: real, q: real)
    requires b != 0.0 && a == b * q
    ensures a / b == q
  {
  }

  /** A number whose product with `p` is `b` is b / p, so its quotient by a
      non-zero `b` is 1 / p. */
  lemma ReciprocalQuotient(a: real, b: real, p: real)
    requires p != 0.0 && b != 0.0 && a * p == b
    ensures a / b == 1.0 / p
  {
    assert a == b / p;
  }

  /** Multiplying a positive number by a factor above 1 increases it. */
  lemma Grows(x: real, p: real, y: real)
    requires 0.0 < x && 1.0 < p && y == x * p
    ensures x < y
  {
    ScaleCompare(1.0, p, x);
  }

  /** Dividing a positive number by a factor above 1 decreases it. */
  lemma Shrinks(y: real, p: real, x: real)
    requires 0.0 < y && 1.0 < p && x * p == y
    ensures 0.0 < x < y
  {
    Grows(x, p, y);
  }

  /** A positive factor cancels from a strict comparison. */
  lemma CancelFactor(a: real, b: real, p: real)
    requires 0.0 < p && a * p < b * p
    ensures a < b
  {
    ScaleCompare(a, b, p);
  }

  /** A change that, scaled by an efficiency in (0, 1], gives a positive
      ideal change, is positive and at least that ideal change. */
  lemma EfficiencyRise(rise: real, ideal: real, eta: real)
    requires rise * eta == ideal && 0.0 < ideal && 0.0 < eta <= 1.0
    ensures 0.0 < rise && ideal <= rise
  {
    assert rise - ideal == rise * (1.0 - eta);
  }

  /** An efficiency in (0, 1] of a positive ideal change is positive and at
      most that ideal change. */
  lemma EfficiencyDrop(drop: real, ideal: real, eta: real)
    requires drop == ideal * eta && 0.0 < ideal && 0.0 < eta <= 1.0
    ensures 0.0 < drop <= ideal
  {
    assert ideal - drop == ideal * (1.0 - eta);
  }

  /** Real product, named so that the laws of products of logarithms and of
      powers, and the order of products, have a term to match on. */
  function Mul(x: real, y: real): real
  {
    x * y
  }

  /** Products of positive numbers are positive and monotone in both
      factors. */
  lemma MulMonotone(a: real, b: real, c: real, d: real)
    requires 0.0 < a <= b && 0.0 < c <= d
    ensures 0.0 < Mul(a, c) <= Mul(b, d)
  {
    ScaleCompare(0.0, a, c);
    ScaleCompare(b, a, c);
    ScaleCompare(d, c, b);
  }

  /** The seventh power, grouped as the squares it is built from. */
  function Seventh(x: real): real
  {
    Mul(Mul(Mul(Mul(x, x), Mul(x, x)), Mul(x, x)), x)
  }

  /** Seventh powers keep the order of positive numbers. */
  lemma SeventhMonotone(a: real, b: real)
    requires 0.0 < a <= b
    ensures Seventh(a) <= Seventh(b)
  {
    MulMonotone(a, b, a, b);
    MulMonotone(Mul(a, a), Mul(b, b), Mul(a, a), Mul(b, b));
    MulMonotone(Mul(Mul(a, a), Mul(a, a)), Mul(Mul(b, b), Mul(b, b)), Mul(a, a), Mul(b, b));
    MulMonotone(Mul(Mul(Mul(a, a), Mul(a, a)), Mul(a, a)), Mul(Mul(Mul(b, b), Mul(b, b)), Mul(b, b)), a, b);
  }
}
