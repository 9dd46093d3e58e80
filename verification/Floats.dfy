/**
 Floats as exact reals together with the IEEE special values. Comparisons follow IEEE 754:
 any comparison with a NaN is false, which is why a NaN can slip past a chain of `>` tests.
 Rounding, overflow to infinity and the sign of zero are not modelled.
 */
module Floats {
  datatype Float = NaN | PosInf | NegInf | Finite(v: real)

  predicate IsFinite(a: Float) {
    a.Finite?
  }

  /** a > b */
  predicate Gt(a: Float, b: Float) {
    match (a, b)
    case (NaN, _) => false
    case (_, NaN) => false
    case (Finite(x), Finite(y)) => x > y
    case (PosInf, _) => b != PosInf
    case (_, NegInf) => a != NegInf
    case _ => false
  }

  /** a < b */
  predicate Lt(a: Float, b: Float) {
    Gt(b, a)
  }

  /** a <= b */
  predicate Le(a: Float, b: Float) {
    a != NaN && b != NaN && !Gt(a, b)
  }

  function Negate(a: Float): Float {
    match a
    case NaN => NaN
    case PosInf => NegInf
    case NegInf => PosInf
    case Finite(x) => Finite(-x)
  }

  /** a + b */
  function Add(a: Float, b: Float): Float {
    match (a, b)
    case (Finite(x), Finite(y)) => Finite(x + y)
    case (Finite(_), _) => b
    case (_, Finite(_)) => a
    case _ => if a == b then a else NaN
  }

  /** a * b */
  function Mul(a: Float, b: Float): Float {
    match (a, b)
    case (Finite(x), Finite(y)) => Finite(x * y)
    case (NaN, _) => NaN
    case (_, NaN) => NaN
    case (Finite(x), _) => if x == 0.0 then NaN else if x > 0.0 then b else Negate(b)
    case (_, Finite(y)) => if y == 0.0 then NaN else if y > 0.0 then a else Negate(a)
    case _ => if a == b then PosInf else NegInf
  }
}
