/** Go's fixed-width integers and the conversions between them.
    A Go conversion `int32(x)` or `int64(x)` keeps the low bits of x in two's
    complement; an addition or multiplication in a fixed width wraps the same way. */
module Ints {

  const TwoTo31: int := 0x8000_0000
  const TwoTo32: int := 0x1_0000_0000
  const TwoTo63: int := 0x8000_0000_0000_0000
  const TwoTo64: int := 0x1_0000_0000_0000_0000

  type Int32 = x: int | -TwoTo31 <= x < TwoTo31
  type Int64 = x: int | -TwoTo63 <= x < TwoTo63

  /** Go's `int32(x)`: the value in range that agrees with x modulo 2^32. */
  function ToInt32(x: int): (r: Int32)
    ensures (x - r) % TwoTo32 == 0
    ensures -TwoTo31 <= x < TwoTo31 ==> r == x
  {
    (x + TwoTo31) % TwoTo32 - TwoTo31
  }

  /** Go's `int64(x)`, and the result of any int64 arithmetic whose exact value is x. */
  function ToInt64(x: int): (r: Int64)
    ensures (x - r) % TwoTo64 == 0
    ensures -TwoTo63 <= x < TwoTo63 ==> r == x
  {
    (x + TwoTo63) % TwoTo64 - TwoTo63
  }

  /** Two integers that agree modulo 2^32 truncate to the same int32. */
  lemma ToInt32Congruent(x: int, y: int, k: int)
    requires x - y == k * TwoTo32
    ensures ToInt32(x) == ToInt32(y)
  {
  }

  /** Truncating an int64 result to int32 gives the same as truncating the exact value:
      `int32(a * b)` on int64 operands is the exact product modulo 2^32. */
  lemma ToInt32OfToInt64(x: int)
    ensures ToInt32(ToInt64(x)) == ToInt32(x)
  {
    var k := (x + TwoTo63) / TwoTo64;
    assert x - ToInt64(x) == k * TwoTo64;
    assert k * TwoTo64 == (k * TwoTo32) * TwoTo32;
    ToInt32Congruent(x, ToInt64(x), k * TwoTo32);
  }

  /** An int32 accumulator that wraps on every addition ends where the exact sum,
      truncated once, ends. */
  lemma ToInt32Add(a: int, b: int)
    ensures ToInt32(ToInt32(a) + b) == ToInt32(a + b)
  {
  }
}
