/** Bytes and the bit-level facts the sample decoding relies on. */
module Bits {

  type Byte = bv8

  /** Reads a 16-bit pattern as a two's-complement signed integer (Rust `as i16`). */
  function AsInt16(w: bv16): int {
    if w < 0x8000 then w as int else w as int - 0x10000
  }

  /** Shifting the high byte left by eight and or-ing the low byte gives their big-endian value. */
  lemma BigEndianBits(hi: Byte, lo: Byte)
    ensures (((hi as bv16) << 8) | (lo as bv16)) as int == (hi as int) * 0x100 + (lo as int)
  {
  }

  /** Two bytes with the same value are the same byte. */
  lemma ValueDeterminesByte(x: Byte, y: Byte)
    requires x as int == y as int
    ensures x == y
  {
  }

  /** One more low bit appended to a byte whose top bit is clear. */
  lemma ShiftInBit(x: Byte, bit: Byte)
    requires x < 0x80 && bit < 2
    ensures ((x << 1) | bit) as int == 2 * (x as int) + bit as int
  {
  }

  /** The byte with a given value, built bit by bit. */
  function ByteOf(n: int): (b: Byte)
    requires 0 <= n < 0x100
    ensures b as int == n
  {
    if n == 0 then 0
    else
      var high := ByteOf(n / 2);
      var bit: Byte := if n % 2 == 0 then 0 else 1;
      ShiftInBit(high, bit);
      (high << 1) | bit
  }
}
