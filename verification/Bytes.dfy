/** Bytes and big-endian 32 bit numbers. */
module Bytes {
  newtype byte = x: int | 0 <= x < 256

  type u32 = x: int | 0 <= x < 0x1_0000_0000

  function PutUint32(v: u32): (r: seq<byte>)
    ensures |r| == 4
  {
    [(v / 256 / 256 / 256) as byte, (v / 256 / 256 % 256) as byte, (v / 256 % 256) as byte, (v % 256) as byte]
  }

  function Uint32(b: seq<byte>): (r: u32)
    requires |b| == 4
  {
    b[0] as int * 0x100_0000 + b[1] as int * 0x1_0000 + b[2] as int * 0x100 + b[3] as int
  }

  lemma Uint32RoundTrip(v: u32)
    ensures Uint32(PutUint32(v)) == v
  {
    var v1 := v / 256;
    var v2 := v1 / 256;
    assert v == v1 * 256 + v % 256 && v1 == v2 * 256 + v1 % 256 && v2 == v2 / 256 * 256 + v2 % 256;
  }

  lemma PutUint32RoundTrip(b: seq<byte>)
    requires |b| == 4
    ensures PutUint32(Uint32(b)) == b
  {
    var b0, b1, b2, b3 := b[0] as int, b[1] as int, b[2] as int, b[3] as int;
    var v := Uint32(b);
    assert v / 256 == b0 * 0x1_0000 + b1 * 0x100 + b2;
    assert v / 256 / 256 == b0 * 0x100 + b1;
    assert v / 256 / 256 / 256 == b0;
  }
}
