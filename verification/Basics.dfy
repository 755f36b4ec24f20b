/** Definitions the other modules share. */
module Basics {

  /** Absent, or present with a value. */
  datatype Option<T> = None | Some(value: T)

  type byte = x: int | 0 <= x < 256

  function Pow2(n: nat): (p: nat)
    ensures p > 0
  {
    if n == 0 then 1 else 2 * Pow2(n - 1)
  }

  function Abs(x: real): (a: real)
    ensures a >= 0.0
  {
    if x < 0.0 then -x else x
  }
}
