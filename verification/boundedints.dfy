/** C#'s 32-bit `int`, with the wrap-around of unchecked arithmetic. */
module BoundedInts {

  const TWO_TO_THE_32: int := 0x1_0000_0000
  const MIN_INT32: int := -0x8000_0000
  const MAX_INT32: int := 0x7fff_ffff

  type int32 = x: int | -0x8000_0000 <= x < 0x8000_0000

  /** The int32 that unchecked two's-complement arithmetic yields for the
      mathematical value `x`: the unique int32 congruent to `x` modulo 2^32. */
  function WrapInt32(x: int): (r: int32)
    ensures (x - r) % TWO_TO_THE_32 == 0
    ensures MIN_INT32 <= x <= MAX_INT32 ==> r == x
  {
    if MIN_INT32 <= x <= MAX_INT32 then x else (x - MIN_INT32) % TWO_TO_THE_32 + MIN_INT32
  }
}
