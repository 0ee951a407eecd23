/** Bytes, fixed-width unsigned integers and their byte encodings. */
module Bytes {

  type byte = bv8

  const U32_LIMIT: nat := 0x1_0000_0000

  /** An unsigned 32-bit integer used as a length or a counter. */
  type u32 = n: nat | n < U32_LIMIT

  /** A cast to an unsigned 32-bit integer. */
  function Truncate(n: nat): u32 {
    n % U32_LIMIT
  }

  /** The value of a byte. */
  function Val(b: byte): (n: nat)
    ensures n < 256
  {
    b as int
  }

  lemma NextByte(b: byte)
    requires b != 0xFF
    ensures Val(b + 1) == Val(b) + 1
  {
  }

  /** The byte with a given value. */
  function Digit(n: nat): (b: byte)
    requires n < 256
    ensures Val(b) == n
  {
    if n == 0 then 0
    else
      var b := Digit(n - 1);
      assert b != 0xFF;
      NextByte(b);
      b + 1
  }

  /** Little-endian bytes of a length or counter (host order of the packed header). */
  function LittleEndian(n: u32): (s: seq<byte>)
    ensures |s| == 4
  {
    [Digit(n % 256), Digit(n / 0x100 % 256), Digit(n / 0x1_0000 % 256), Digit(n / 0x100_0000)]
  }

  function FromLittleEndian(s: seq<byte>): (n: u32)
    requires |s| == 4
  {
    Val(s[0]) + 0x100 * Val(s[1]) + 0x1_0000 * Val(s[2]) + 0x100_0000 * Val(s[3])
  }

  lemma LittleEndianRoundTrip(n: u32)
    ensures FromLittleEndian(LittleEndian(n)) == n
  {
    Digits(n);
  }

  /** Big-endian bytes of a length, as the handshake payloads carry it. */
  function BigEndian(n: u32): (s: seq<byte>)
    ensures |s| == 4
  {
    [Digit(n / 0x100_0000), Digit(n / 0x1_0000 % 256), Digit(n / 0x100 % 256), Digit(n % 256)]
  }

  function FromBigEndian(s: seq<byte>): (n: u32)
    requires |s| == 4
  {
    0x100_0000 * Val(s[0]) + 0x1_0000 * Val(s[1]) + 0x100 * Val(s[2]) + Val(s[3])
  }

  lemma BigEndianRoundTrip(n: u32)
    ensures FromBigEndian(BigEndian(n)) == n
  {
    Digits(n);
  }

  lemma Digits(n: nat)
    ensures n == n % 256 + 0x100 * (n / 0x100 % 256) + 0x1_0000 * (n / 0x1_0000 % 256) + 0x100_0000 * (n / 0x100_0000)
  {
    assert n / 0x1_0000 == n / 0x100 / 256;
    assert n / 0x100_0000 == n / 0x1_0000 / 256;
  }

  /** Little-endian bytes of a bit vector (the checksum field). */
  function Word(w: bv32): (s: seq<byte>)
    ensures |s| == 4
  {
    [(w & 0xFF) as byte, ((w >> 8) & 0xFF) as byte, ((w >> 16) & 0xFF) as byte, (w >> 24) as byte]
  }

  function FromWord(s: seq<byte>): (w: bv32)
    requires |s| == 4
  {
    (s[0] as bv32) | ((s[1] as bv32) << 8) | ((s[2] as bv32) << 16) | ((s[3] as bv32) << 24)
  }

  lemma WordRoundTrip(w: bv32)
    ensures FromWord(Word(w)) == w
  {
  }
}
