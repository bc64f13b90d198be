/** The eight-bit byte shared by the register, picture and flash models. */
module Bytes {
  type byte = x: int | 0 <= x < 256

  /** A byte read as int8_t. */
  function Signed(b: byte): (v: int)
    ensures -128 <= v < 128
  {
    if b < 128 then b else b - 256
  }
}
