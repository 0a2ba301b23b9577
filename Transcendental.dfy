/**
 * The three transcendental operations the LMS transforms use: Math.exp,
 * Math.pow and Math.log. Their numeric definitions are not part of this
 * model: they are supplied as function values, and the laws in `Lawful` are
 * the only facts about them the proofs rely on.
 */
module Transcendental {

  datatype MathFunctions = MathFunctions(
    exp: real -> real,
    pow: (real, real) -> real,
    ln: real -> real)

  function Exp(f: MathFunctions, x: real): real
  {
    f.exp(x)
  }

  function Pow(f: MathFunctions, b: real, e: real): real
  {
    f.pow(b, e)
  }

  function Ln(f: MathFunctions, x: real): real
  {
    f.ln(x)
  }

  /** The laws of exp, pow and ln on the positive reals that the proofs use. */
  ghost predicate Lawful(f: MathFunctions)
  {
    && Exp(f, 0.0) == 1.0
    && Ln(f, 1.0) == 0.0
    && (forall e :: Pow(f, 1.0, e) == 1.0)
    && (forall x :: Ln(f, Exp(f, x)) == x)
    && (forall b, e, d :: b > 0.0 && e * d == 1.0 ==> Pow(f, Pow(f, b, d), e) == b)
    && (forall x, y :: x < y ==> Exp(f, x) < Exp(f, y))
    && (forall a, b, e :: 0.0 < a < b && e > 0.0 ==> Pow(f, a, e) < Pow(f, b, e))
    && (forall a, b, e :: 0.0 < a < b && e < 0.0 ==> Pow(f, a, e) > Pow(f, b, e))
  }
}
