/** The byte buffer operations that the regular-expression compiler uses: little-endian
    16- and 32-bit fields, read back as signed displacements where the machine does so. */
module Bytes {

  type byte = b: int | 0 <= b < 256

  const INT32_MAX: int := 0x7fff_ffff
  const TWO32: int := 0x1_0000_0000

  function PutU16(v: int): (r: seq<byte>)
    ensures |r| == 2
  {
    [v % 256, v / 256 % 256]
  }

  function PutU32(v: int): (r: seq<byte>)
    ensures |r| == 4
  {
    [v % 256, v / 256 % 256, v / 65536 % 256, v / 16777216 % 256]
  }

  function GetU16(code: seq<byte>, p: nat): int
    requires p + 2 <= |code|
  {
    (code[p] as int) + 256 * (code[p + 1] as int)
  }

  function GetU32(code: seq<byte>, p: nat): int
    requires p + 4 <= |code|
  {
    (code[p] as int) + 256 * (code[p + 1] as int)
    + 65536 * (code[p + 2] as int) + 16777216 * (code[p + 3] as int)
  }

  /** The conversion `(int)val` of a 32-bit unsigned value. */
  function Signed(v: int): int {
    if v > INT32_MAX then v - TWO32 else v
  }

  /** `frag` stands in `code` at offset `a`. */
  ghost predicate Has(code: seq<byte>, a: nat, frag: seq<byte>) {
    a + |frag| <= |code| && code[a..a + |frag|] == frag
  }

  lemma HasSplit(code: seq<byte>, a: nat, x: seq<byte>, y: seq<byte>)
    requires Has(code, a, x + y)
    ensures Has(code, a, x)
    ensures Has(code, a + |x|, y)
  {
    assert (x + y)[..|x|] == x;
    assert (x + y)[|x|..] == y;
    assert code[a..a + |x|] == code[a..a + |x + y|][..|x|];
    assert code[a + |x|..a + |x| + |y|] == code[a..a + |x + y|][|x|..];
  }

  lemma HasAt(code: seq<byte>, a: nat, frag: seq<byte>, i: nat)
    requires Has(code, a, frag) && i < |frag|
    ensures code[a + i] == frag[i]
  {
    assert code[a..a + |frag|][i] == code[a + i];
  }

  lemma GetPutU16(code: seq<byte>, p: nat, v: int)
    requires Has(code, p, PutU16(v))
    ensures GetU16(code, p) == v % 0x10000
  {
    HasAt(code, p, PutU16(v), 0);
    HasAt(code, p, PutU16(v), 1);
  }

  lemma GetPutU32(code: seq<byte>, p: nat, v: int)
    requires Has(code, p, PutU32(v))
    ensures GetU32(code, p) == v % TWO32
  {
    HasAt(code, p, PutU32(v), 0);
    HasAt(code, p, PutU32(v), 1);
    HasAt(code, p, PutU32(v), 2);
    HasAt(code, p, PutU32(v), 3);
    assert v / 65536 == v / 256 / 256;
    assert v / 16777216 == v / 256 / 256 / 256;
  }
}
