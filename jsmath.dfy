/**
 * Exact-real models of the JavaScript number operations the compass uses:
 * the remainder operator `%` (truncated division, so the result takes the
 * sign of the dividend) and `Math.round` (nearest integer, halves rounded
 * toward positive infinity). Angles are `real`, so IEEE-754 rounding is not
 * part of the model.
 */
module JsMath {

  /** True when `x` is a whole number. */
  predicate IsInteger(x: real) {
    x.Floor as real == x
  }

  /** Truncation toward zero: the quotient that JavaScript's `%` is based on. */
  function Trunc(x: real): (q: int)
    ensures 0.0 <= x ==> 0.0 <= q as real <= x < q as real + 1.0
    ensures x < 0.0 ==> q as real - 1.0 < x <= q as real <= 0.0
  {
    if x >= 0.0 then x.Floor else -((-x).Floor)
  }

  /**
   * `a % b`: the remainder of the quotient truncated toward zero, so the
   * result has the sign of the dividend `a`. Its bounds are proved where a
   * divisor is fixed (`RemTurn` and the cardinal lemmas in Compass).
   */
  function Rem(a: real, b: real): real
    requires b != 0.0
  {
    a - b * Trunc(a / b) as real
  }

  /** `Math.round(x)`: the integer nearest to `x`, a half rounded upward. */
  function Round(x: real): (n: int)
    ensures x - 0.5 < n as real <= x + 0.5
  {
    (x + 0.5).Floor
  }
}
