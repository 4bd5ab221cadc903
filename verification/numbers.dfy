/** The scalar helpers of `Math` that the exact parts of the toolkit lean on. */
module Numbers {

  /** `Math.abs` on integers. */
  function Abs(x: int): (r: nat)
    ensures r == x || r == -x
  {
    if x < 0 then -x else x
  }

  /** `Math.sign` on integers: -1, 0 or 1. */
  function Sign(x: int): (r: int)
    ensures r * x == Abs(x)
    ensures -1 <= r <= 1
  {
    if x > 0 then 1 else if x < 0 then -1 else 0
  }

  /** `x % 1` is zero, i.e. `x` holds a whole number. */
  predicate IsIntegral(x: real) {
    x == x.Floor as real
  }

  /** `Math.trunc`: drop the fraction, rounding toward zero. */
  function Trunc(x: real): (r: int)
    ensures x >= 0.0 ==> r == x.Floor
    ensures x < 0.0 ==> r <= 0 && r as real - 1.0 < x <= r as real
  {
    if x >= 0.0 then x.Floor else -((-x).Floor)
  }
}
