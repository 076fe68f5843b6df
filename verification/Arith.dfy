/**
 Python's `min` and `max` on two integers, shared by the sample size of the
 commenting loop and the slice bounds of the read API.
 */
module Arith {

  /** `min(a, b)`. */
  function Min(a: int, b: int): (m: int)
    ensures m <= a && m <= b
    ensures m == a || m == b
  {
    if a <= b then a else b
  }

  /** `max(a, b)`. */
  function Max(a: int, b: int): (m: int)
    ensures m >= a && m >= b
    ensures m == a || m == b
  {
    if a <= b then b else a
  }
}
