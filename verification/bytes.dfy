/** Bytes and big-endian numbers, as every wire format here uses them. */
module Bytes {
  type Byte = x: int | 0 <= x < 256

  function Be16(hi: Byte, lo: Byte): nat { 256 * hi + lo }
}
