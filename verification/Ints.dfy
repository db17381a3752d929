/** The machine's integers. */
module Ints {
  const UINT: nat := 0x1_0000_0000

  type Byte = x: int | 0 <= x < 256
  type Uint = x: int | 0 <= x < UINT
}
