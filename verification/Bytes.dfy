/** Bytes and fixed-width unsigned words, modelled as bounded integers. */
module Bytes {
  const TWO_TO_THE_32: int := 0x1_0000_0000

  type Byte = b: int | 0 <= b < 0x100
  type Word32 = w: int | 0 <= w < 0x1_0000_0000
}
