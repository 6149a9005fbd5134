/** Bytes and fixed-width big-endian numbers. */
module Bytes {
  type Byte = b: int | 0 <= b < 256

  const NEWLINE: Byte := 0x0a

  /** 256 to the power of `width`. */
  function Base(width: nat): (base: nat)
    ensures base > 0
  {
    if width == 0 then 1 else 256 * Base(width - 1)
  }

  function BigEndian(width: nat, n: nat): (bytes: seq<Byte>)
    ensures |bytes| == width
  {
    if width == 0 then [] else BigEndian(width - 1, n / 256) + [n % 256]
  }

  function FromBigEndian(bytes: seq<Byte>): nat {
    if bytes == [] then 0 else FromBigEndian(bytes[..|bytes| - 1]) * 256 + bytes[|bytes| - 1]
  }

  lemma {:induction false} NumberSurvives(width: nat, n: nat)
    requires n < Base(width)
    ensures FromBigEndian(BigEndian(width, n)) == n
  {
    if width > 0 {
      NumberSurvives(width - 1, n / 256);
      assert BigEndian(width, n)[..width - 1] == BigEndian(width - 1, n / 256);
    }
  }

  lemma {:induction false} BytesSurvive(bytes: seq<Byte>)
    ensures BigEndian(|bytes|, FromBigEndian(bytes)) == bytes
    ensures FromBigEndian(bytes) < Base(|bytes|)
  {
    if bytes != [] {
      BytesSurvive(bytes[..|bytes| - 1]);
      assert bytes == bytes[..|bytes| - 1] + [bytes[|bytes| - 1]];
    }
  }

  lemma Widths()
    ensures Base(2) == 0x1_0000 && Base(4) == 0x1_0000_0000 && Base(8) == 0x1_0000_0000_0000_0000
  {
  }
}
