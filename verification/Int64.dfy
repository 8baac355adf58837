/** Go's 64-bit integers. */
module Int64 {

  const TWO63: int := 0x8000_0000_0000_0000
  const TWO64: int := 0x1_0000_0000_0000_0000

  predicate InInt64(n: int) {
    -TWO63 <= n < TWO63
  }

  /** The value a 64-bit operation delivers in place of `n`. */
  function Wrap(n: int): (w: int)
    ensures InInt64(w)
    ensures InInt64(n) ==> w == n
  {
    (n + TWO63) % TWO64 - TWO63
  }
}
