/** Go's 32-bit signed integers, which wrap around. */
module Ints {

  const TWO_TO_THE_31: int := 0x8000_0000
  const TWO_TO_THE_32: int := 0x1_0000_0000

  /** Conversion to a 32-bit signed integer. */
  function Int32(n: int): (g: int)
    ensures -TWO_TO_THE_31 <= g < TWO_TO_THE_31
  {
    (n + TWO_TO_THE_31) % TWO_TO_THE_32 - TWO_TO_THE_31
  }

  lemma Int32Plus(n: int, i: int)
    ensures Int32(Int32(n) + i) == Int32(n + i)
  {
  }
}
