/** Bytes and zero padding. */
module Bytes {
  type Byte = b: int | 0 <= b < 256

  function Fill(value: Byte, length: nat): (r: seq<Byte>)
  {
    seq(length, _ => value)
  }

  function Zeros(length: nat): seq<Byte> {
    Fill(0, length)
  }
}
