/** Bytes, 32-bit words, and the two packings the C sources use for them. */
module Bytes {

  const TWO32: nat := 0x1_0000_0000

  type Byte = x: int | 0 <= x < 256
  type Word = x: int | 0 <= x < 0x1_0000_0000

  /** uint32_pack: the low 32 bits of u, least significant byte first. */
  function Pack(u: nat): (s: seq<Byte>)
    ensures |s| == 4
  {
    [u % 256, u / 256 % 256, u / 65536 % 256, u / 16777216 % 256]
  }

  /** uint32_unpack. */
  function Unpack(s: seq<Byte>): Word
    requires |s| == 4
  {
    (s[0] as int) + 256 * (s[1] as int) + 65536 * (s[2] as int) + 16777216 * (s[3] as int)
  }

  lemma {:induction false} UnpackPack(u: Word)
    ensures Unpack(Pack(u)) == u
  {
    assert u / 65536 == u / 256 / 256;
    assert u / 16777216 == u / 65536 / 256;
  }

  /** The order of the bytes: the number a + 256 b + 65536 c + 16777216 d is a, b, c, d in one packing and
      d, c, b, a in the other. */
  lemma {:induction false} ByteOrder(a: Byte, b: Byte, c: Byte, d: Byte)
    ensures var u := a + 256 * b + 65536 * c + 16777216 * d;
      && 0 <= u < 0x1_0000_0000 && Pack(u) == [a, b, c, d] && Unpack([a, b, c, d]) == u
      && PackBig32(u) == [d, c, b, a] && UnpackBig32([d, c, b, a]) == u
  {
    var u: nat := a + 256 * b + 65536 * c + 16777216 * d;
    assert u / 256 == b + 256 * c + 65536 * d;
    assert u / 65536 == c + 256 * d;
    assert u / 16777216 == d;
  }

  /** Packing is injective, so packed fields of a key can be compared field by field. */
  lemma {:induction false} PackInjective(u: Word, v: Word)
    requires Pack(u) == Pack(v)
    ensures u == v
  {
    UnpackPack(u);
    UnpackPack(v);
  }

  /** Unsigned 32-bit addition. */
  function Add32(a: Word, b: Word): (r: Word)
    ensures a + b < TWO32 ==> r == a + b
    ensures a + b >= TWO32 ==> r == a + b - TWO32
  {
    (a + b) % TWO32
  }

  /** uint32_pack_big */
  function PackBig32(u: Word): (s: seq<Byte>)
    ensures |s| == 4
  {
    [u / 16777216, u / 65536 % 256, u / 256 % 256, u % 256]
  }

  /** uint32_unpack_big */
  function UnpackBig32(s: seq<Byte>): Word
    requires |s| == 4
  {
    16777216 * (s[0] as int) + 65536 * (s[1] as int) + 256 * (s[2] as int) + s[3]
  }

  lemma {:induction false} UnpackPackBig(u: Word)
    ensures UnpackBig32(PackBig32(u)) == u
  {
    assert u / 65536 == u / 256 / 256;
    assert u / 16777216 == u / 65536 / 256;
  }

  /** uint16_unpack_big */
  function Big16(a: Byte, b: Byte): nat {
    (a as nat) * 256 + b
  }

  function Pow2(k: nat): (p: nat)
    ensures p >= 1
  {
    if k == 0 then 1 else 2 * Pow2(k - 1)
  }

  lemma {:induction false} Pow2Of8()
    ensures Pow2(8) == 256
  {
    assert Pow2(4) == 16;
    assert Pow2(6) == 4 * Pow2(4);
  }
}
