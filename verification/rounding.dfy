/** JavaScript's `Math.round` applied to an exact quotient of integers.

    `Math.round(x)` is the integer nearest to `x`, halves going up (towards
    positive infinity), that is `floor(x + 1/2)`. For `x = n / d` that is
    `floor((2n + d) / (2d))`. Dafny's `/` floors only for a positive divisor,
    so a negative `d` is handled by negating both sides of the fraction. */
module Rounding {

  /** `Math.round(n / d)`: the `r` with `r <= n/d + 1/2 < r + 1`, written with
      the fraction cleared. */
  function RoundHalfUp(n: int, d: int): (r: int)
    requires d != 0
    ensures d > 0 ==> 2 * d * r <= 2 * n + d < 2 * d * r + 2 * d
    ensures d < 0 ==> 2 * d * r >= 2 * n + d > 2 * d * r + 2 * d
  {
    if d > 0 then (2 * n + d) / (2 * d)
    else (-(2 * n + d)) / (-2 * d)
  }

  /** The inequalities pin the rounded value down, for either sign of `d`: no
      other integer is within a half of `n / d` with halves going up. A negative
      divisor is the positive one with both sides of the fraction negated. */
  lemma RoundHalfUpUnique(n: int, d: int, r: int)
    requires d != 0
    requires d > 0 ==> 2 * d * r <= 2 * n + d < 2 * d * r + 2 * d
    requires d < 0 ==> 2 * d * r >= 2 * n + d > 2 * d * r + 2 * d
    ensures r == RoundHalfUp(n, d)
    decreases if d < 0 then 1 else 0
  {
    var q := RoundHalfUp(n, d);
    if d < 0 {
      RoundHalfUpUnique(-n, -d, r);
    } else if r < q {
      ScaleMonotone(2 * d, r + 1, q);
      assert false;
    } else if r > q {
      ScaleMonotone(2 * d, q + 1, r);
      assert false;
    }
  }

  lemma ScaleMonotone(k: int, a: int, b: int)
    requires k > 0 && a <= b
    ensures k * a <= k * b
  {
  }
}
