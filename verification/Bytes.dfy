/** Byte strings and the big-endian integer fields every on-disk and in-store format is made of. */
module Bytes {

  newtype byte = x: int | 0 <= x < 256

  type bytes = seq<byte>

  datatype Option<+T> = None | Some(value: T)

  const U32_SIZE: nat := 0x1_0000_0000
  const U64_SIZE: nat := 0x1_0000_0000_0000_0000

  function Pow256(n: nat): (r: nat)
    ensures r > 0
  {
    if n == 0 then 1 else 256 * Pow256(n - 1)
  }

  function DecodeBE(b: bytes): (v: nat)
    ensures v < Pow256(|b|)
  {
    if b == [] then 0 else DecodeBE(b[..|b| - 1]) * 256 + b[|b| - 1] as int
  }

  /** v written in w bytes, most significant first. */
  function EncodeBE(v: nat, w: nat): (b: bytes)
    requires v < Pow256(w)
    ensures |b| == w
    ensures DecodeBE(b) == v
    decreases w, v
  {
    if w == 0 then []
    else
      var hi := EncodeBE(v / 256, w - 1);
      assert (hi + [(v % 256) as byte])[..w - 1] == hi;
      hi + [(v % 256) as byte]
  }

  /** Decoding is injective at a fixed width. */
  lemma {:induction false} DecodeInjective(a: bytes, b: bytes)
    requires |a| == |b| && DecodeBE(a) == DecodeBE(b)
    ensures a == b
  {
    if a != [] {
      var n := |a| - 1;
      DecodeInjective(a[..n], b[..n]);
      assert a == a[..n] + [a[n]] && b == b[..n] + [b[n]];
    }
  }

  function PutU32(n: nat): (b: bytes)
    ensures |b| == 4 && DecodeBE(b) == n % U32_SIZE
  {
    assert Pow256(4) == U32_SIZE;
    EncodeBE(n % U32_SIZE, 4)
  }

  function PutU64(n: nat): (b: bytes)
    ensures |b| == 8 && DecodeBE(b) == n % U64_SIZE
  {
    assert Pow256(8) == U64_SIZE;
    EncodeBE(n % U64_SIZE, 8)
  }

  lemma DecodeBounds(b: bytes)
    ensures |b| == 4 ==> DecodeBE(b) < U32_SIZE
    ensures |b| == 8 ==> DecodeBE(b) < U64_SIZE
  {
    assert Pow256(4) == U32_SIZE && Pow256(8) == U64_SIZE;
  }
}
