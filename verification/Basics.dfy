/** Small shared vocabulary: optional values and Go's integer division. */
module Basics {

  datatype Option<+T> = None | Some(value: T)

  /** Go's `/` on integers, which truncates toward zero (Dafny's rounds toward minus infinity). */
  function TruncDiv(a: int, b: int): (q: int)
    requires b > 0
    ensures a >= 0 ==> q * b <= a < (q + 1) * b
    ensures a <= 0 ==> (q - 1) * b < a <= q * b
  {
    if a >= 0 then a / b else -((-a) / b)
  }

  /** Go's conversion of a float to an integer, which drops the fraction. */
  function Truncated(x: real): int { if x >= 0.0 then x.Floor else -(-x).Floor }
}
