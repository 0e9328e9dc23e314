/**
 * The two pieces of Go numeric behaviour the core relies on: the conversion `int(f)` of a float64,
 * which truncates toward zero, and float64 division, which yields NaN for 0/0 and an infinity
 * for a non-zero value divided by 0. Floats are modelled as exact reals, extended with the
 * infinities and NaN; rounding is not modelled.
 */
module GoNumeric {

  /** Go's `int(f)`: the integer part of `f`, truncated toward zero. */
  function Trunc(f: real): (n: int)
    ensures 0.0 <= f ==> 0 <= n && n as real <= f < n as real + 1.0
    ensures f < 0.0 ==> n <= 0 && n as real - 1.0 < f <= n as real
  {
    if f >= 0.0 then f.Floor else -((-f).Floor)
  }

  /** Truncating an integral value gives that integer back. */
  lemma TruncOfInt(n: int)
    ensures Trunc(n as real) == n
  {
  }

  /** Truncation is monotone. */
  lemma TruncMonotone(f: real, g: real)
    requires f <= g
    ensures Trunc(f) <= Trunc(g)
  {
    if 0.0 <= f {
      assert Trunc(f) as real <= f <= g < Trunc(g) as real + 1.0;
    } else if g < 0.0 {
      assert Trunc(f) as real - 1.0 < f <= g <= Trunc(g) as real;
    }
  }

  /** A float64 value: a finite number, one of the two infinities, or NaN. */
  datatype F64 = Fin(v: real) | PosInf | NegInf | NaN

  /**
   * `float64(n) / float64(d)` in IEEE 754 semantics (without rounding): finite exactly for a
   * non-zero divisor, and then the number that multiplied by `d` gives `n`; 0/0 is NaN and any
   * other quotient by zero is the infinity of the dividend's sign.
   */
  function Div(n: int, d: int): (q: F64)
    ensures q.Fin? <==> d != 0
    ensures q.Fin? ==> q.v * d as real == n as real
    ensures q.NaN? <==> n == 0 && d == 0
    ensures q.PosInf? <==> n > 0 && d == 0
    ensures q.NegInf? <==> n < 0 && d == 0
  {
    if d != 0 then Fin(n as real / d as real)
    else if n == 0 then NaN
    else if n > 0 then PosInf
    else NegInf
  }

  /** IEEE 754 addition: NaN is absorbing, opposite infinities give NaN, an infinity absorbs finite values. */
  function Add(a: F64, b: F64): (s: F64)
    ensures a.Fin? && b.Fin? ==> s == Fin(a.v + b.v)
    ensures (a.NaN? || b.NaN?) ==> s.NaN?
  {
    match (a, b)
    case (NaN, _) => NaN
    case (_, NaN) => NaN
    case (PosInf, NegInf) => NaN
    case (NegInf, PosInf) => NaN
    case (PosInf, _) => PosInf
    case (_, PosInf) => PosInf
    case (NegInf, _) => NegInf
    case (_, NegInf) => NegInf
    case (Fin(x), Fin(y)) => Fin(x + y)
  }

  /** IEEE 754 comparison `a <= 1`: false for NaN and for +Inf. */
  predicate AtMostOne(a: F64)
  {
    match a
    case Fin(x) => x <= 1.0
    case NegInf => true
    case PosInf => false
    case NaN => false
  }

  /** A truncation is at most any integer at or above its argument. */
  lemma TruncBelowInt(f: real, m: int)
    requires f <= m as real
    ensures Trunc(f) <= m
  {
  }

  /** A truncation is at least any integer at or below its argument. */
  lemma TruncAboveInt(f: real, m: int)
    requires m as real <= f
    ensures m <= Trunc(f)
  {
  }

  /** Truncating n + 1/2 gives n for n >= 0 and n + 1 below zero (toward zero). */
  lemma TruncHalf(n: int)
    ensures Trunc(n as real + 0.5) == if n >= 0 then n else n + 1
  {
  }
}
