/** The octet type shared by all models, and the control characters the panel firmware compares with. */
module Bytes {
  type Byte = b: int | 0 <= b < 256

  const NUL: Byte := 0
  const LF: Byte := 10
  const CR: Byte := 13

  /** A byte from the card reader, and whether the panel was idle and the reader enabled when it was taken. */
  datatype CardByte = CardByte(b: Byte, idle: bool, readerOn: bool)

  /** The number of values of a 16-bit unsigned integer. */
  const UINT16: int := 0x1_0000

  /** `++` and `--` on a 16-bit unsigned integer. */
  function Next16(n: nat): nat {
    if n == UINT16 - 1 then 0 else n + 1
  }

  function Previous16(n: nat): nat {
    if n == 0 then UINT16 - 1 else n - 1
  }
}
