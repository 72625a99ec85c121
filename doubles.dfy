/**
 * The C++ `double` as this model sees it: NaN, or a real number.  Rounding,
 * infinities and the sign of zero are not modelled; NaN propagates through
 * every arithmetic operation, as in IEEE 754.
 */
module Doubles {
  datatype Double = NaN | Num(val: real)

  function Add(a: Double, b: Double): Double
  {
    if a.NaN? || b.NaN? then NaN else Num(a.val + b.val)
  }

  function Sub(a: Double, b: Double): Double
  {
    if a.NaN? || b.NaN? then NaN else Num(a.val - b.val)
  }

  function Neg(a: Double): Double
  {
    if a.NaN? then NaN else Num(-a.val)
  }

  /** a * k for a value k that is not NaN (a count of days, a constant). */
  function Scale(a: Double, k: real): Double
  {
    if a.NaN? then NaN else Num(a.val * k)
  }

  /** a / k for a nonzero value k that is not NaN. */
  function Div(a: Double, k: real): Double
    requires k != 0.0
  {
    if a.NaN? then NaN else Num(a.val / k)
  }
}
