/** The bytes of texts, arenas and wire lines. */
module Bytes {
  newtype Byte = x: int | 0 <= x < 256
}
