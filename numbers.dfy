/**
 * Numeric helpers shared by the engine and the experiment layer.  JavaScript
 * numbers are modelled as exact reals; where the code distinguishes finite from
 * non-finite values (`NaN`, `Infinity`) the value is a `Number`.
 */
module Numbers {

  /** A JavaScript number as the validators and the CSV writer see it. */
  datatype Number = Finite(value: real) | NonFinite

  /**
   * `clamp(value, min, max) = Math.min(max, Math.max(min, value))`: inside a
   * non-empty range the result lies in the range, and a value already there is
   * returned unchanged.
   */
  function Clamp(value: real, lo: real, hi: real): (r: real)
    ensures lo <= hi ==> lo <= r <= hi
    ensures lo <= value <= hi ==> r == value
    ensures value < lo && lo <= hi ==> r == lo
    ensures hi < value ==> r == hi
    ensures hi < lo ==> r == hi
  {
    var low := if lo < value then value else lo;
    if hi < low then hi else low
  }

  /** Scaling a non-negative amount by a factor in [0, 1] keeps it between 0 and itself. */
  lemma ScaleWithin(t: real, f: real)
    requires t >= 0.0 && 0.0 <= f <= 1.0
    ensures 0.0 <= t * f <= t
    ensures f < 1.0 && t > 0.0 ==> t * f < t
  {
    assert t - t * f == t * (1.0 - f);
  }

  /** `Math.max(a, b)` on integers. */
  function MaxInt(a: int, b: int): (m: int)
    ensures m >= a && m >= b && (m == a || m == b)
  {
    if a < b then b else a
  }

  /** `Math.min(a, b)` on integers. */
  function MinInt(a: int, b: int): (m: int)
    ensures m <= a && m <= b && (m == a || m == b)
  {
    if a < b then a else b
  }

  /** `Math.max(a, b)` on reals. */
  function MaxReal(a: real, b: real): (m: real)
    ensures m >= a && m >= b && (m == a || m == b)
  {
    if a < b then b else a
  }

  /** `Math.min(a, b)` on reals. */
  function MinReal(a: real, b: real): (m: real)
    ensures m <= a && m <= b && (m == a || m == b)
  {
    if a < b then a else b
  }

  /** `Math.trunc(x)`: rounds toward zero. */
  function Trunc(x: real): (t: int)
    ensures x >= 0.0 ==> t == x.Floor
    ensures x < 0.0 ==> x <= t as real < x + 1.0
  {
    if x >= 0.0 then x.Floor else -((-x).Floor)
  }
}
