/** Octets, as Node's `Buffer` and the URL standard's byte sequences hold them. */
module Bytes {
  type byte = x: int | 0 <= x < 0x100

  /** An ASCII character's code as a byte. */
  function Ascii(c: char): (b: byte)
    requires c as int < 0x80
    ensures b as char == c
  {
    c as int
  }
}
