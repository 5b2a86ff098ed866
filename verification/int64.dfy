/** Go's int64 arithmetic. */
module Int64 {

  const MAX_INT64: int := 0x7FFF_FFFF_FFFF_FFFF

  /** Two's-complement wrap-around of any integer. */
  function Wrap(x: int): (r: int)
    ensures -MAX_INT64 - 1 <= r <= MAX_INT64
  {
    (x + MAX_INT64 + 1) % (2 * (MAX_INT64 + 1)) - MAX_INT64 - 1
  }

  /** The same for the sum or difference of two int64 values, without division. */
  function Wrap64(x: int): int {
    if x > MAX_INT64 then x - 2 * (MAX_INT64 + 1)
    else if x < -MAX_INT64 - 1 then x + 2 * (MAX_INT64 + 1)
    else x
  }

  /** Wrapping adds a multiple of 2^64. */
  lemma WrapShifts(x: int) returns (k: int)
    ensures Wrap(x) == x - k * (2 * (MAX_INT64 + 1))
  {
    k := (x + MAX_INT64 + 1) / (2 * (MAX_INT64 + 1));
  }

  /** Wrapping early changes nothing. */
  lemma WrapsOnce(s: int, x: int)
    ensures Wrap(Wrap(s) + x) == Wrap(s + x)
  {
  }

  lemma WrapsAgree(a: int, b: int)
    requires -MAX_INT64 - 1 <= a <= MAX_INT64 && -MAX_INT64 - 1 <= b <= MAX_INT64
    ensures Wrap64(a + b) == Wrap(a + b) && Wrap64(a - b) == Wrap(a - b)
  {
  }
}
