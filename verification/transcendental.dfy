/** The two transcendental operations the gas and steam solvers use: `x ** e`
    and the natural logarithm. Their numeric values are not modelled; a solver
    receives them as a `Math` value, and a proof assumes only the laws listed
    in `Sound`. */
module Transcendental {
  import opened RealArith

  datatype Math = Math(pow: (real, real) -> real, ln: real -> real) {

    /** The laws of real powers and logarithms the proofs rely on. */
    ghost predicate Sound()
    {
      && (forall x, e :: 0.0 < x ==> 0.0 < pow(x, e))
      && (forall x, e :: 1.0 < x && 0.0 < e ==> 1.0 < pow(x, e))
      && (forall x :: 0.0 < x ==> pow(x, 1.0) == x)
      && (forall x, a, b {:trigger Mul(pow(x, a), pow(x, b))} :: 0.0 < x ==> Mul(pow(x, a), pow(x, b)) == pow(x, a + b))
      && (forall x, y {:trigger ln(Mul(x, y))} :: 0.0 < x && 0.0 < y ==> ln(Mul(x, y)) == ln(x) + ln(y))
      && (forall x, e {:trigger ln(pow(x, e))} :: 0.0 < x ==> ln(pow(x, e)) == e * ln(x))
    }
  }

  /** Logarithms of successive positive ratios add up along a chain
      a -> b -> c. */
  lemma LnChain(m: Math, a: real, b: real, c: real)
    requires m.Sound()
    requires a != 0.0 && b != 0.0 && 0.0 < b / a && 0.0 < c / b
    ensures 0.0 < c / a
    ensures m.ln(b / a) + m.ln(c / b) == m.ln(c / a)
  {
    assert Mul(b / a, c / b) == c / a;
  }

  /** The logarithm of 1 is 0, and of a reciprocal is the negated logarithm. */
  lemma LnReciprocal(m: Math, x: real)
    requires m.Sound()
    requires 0.0 < x
    ensures m.ln(1.0) == 0.0
    ensures m.ln(1.0 / x) == -m.ln(x)
  {
    assert Mul(1.0, 1.0) == 1.0;
    assert Mul(x, 1.0 / x) == 1.0;
  }
}
