/** Unsigned big-endian integers over bytes, as `byteorder::BigEndian` (Rust) and the `>`
    format prefix of `struct` (Python) lay them out. */
module Bytes {

  newtype byte = x: int | 0 <= x < 256

  /** One more than the largest `u32`: `as u32` keeps a value modulo this. */
  const U32: nat := 0x1_0000_0000
  /** One more than the largest `u64`, and than the largest value `struct` format `Q` packs. */
  const U64: nat := 0x1_0000_0000_0000_0000

  /** 256 to the power `n`: one more than the largest `n`-byte unsigned value. */
  function Pow256(n: nat): (r: nat)
    ensures r > 0
  {
    if n == 0 then 1 else 256 * Pow256(n - 1)
  }

  /** The widths of `u32` and `u64`. */
  lemma Pow256Values()
    ensures Pow256(4) == 0x1_0000_0000
    ensures Pow256(8) == 0x1_0000_0000_0000_0000
  {
  }

  /** `x` written in exactly `n` bytes, most significant byte first. */
  function ToBigEndian(x: nat, n: nat): (r: seq<byte>)
    requires x < Pow256(n)
    ensures |r| == n
  {
    if n == 0 then [] else ToBigEndian(x / 256, n - 1) + [(x % 256) as byte]
  }

  /** The unsigned value of a big-endian byte string. */
  function FromBigEndian(bs: seq<byte>): (r: nat)
    ensures r < Pow256(|bs|)
  {
    if bs == [] then 0
    else
      var hi := FromBigEndian(bs[..|bs| - 1]);
      assert hi * 256 <= (Pow256(|bs| - 1) - 1) * 256;
      hi * 256 + bs[|bs| - 1] as nat
  }

  /** Decoding an encoding gives the value back. */
  lemma {:induction false} FromToBigEndian(x: nat, n: nat)
    requires x < Pow256(n)
    ensures FromBigEndian(ToBigEndian(x, n)) == x
  {
    if n > 0 {
      var bs := ToBigEndian(x, n);
      assert bs[..n - 1] == ToBigEndian(x / 256, n - 1);
      FromToBigEndian(x / 256, n - 1);
    }
  }

  /** Encoding a decoded byte string in the same width gives the bytes back. */
  lemma {:induction false} ToFromBigEndian(bs: seq<byte>)
    ensures ToBigEndian(FromBigEndian(bs), |bs|) == bs
  {
    if bs != [] {
      var n := |bs|;
      var v := FromBigEndian(bs);
      var hi := FromBigEndian(bs[..n - 1]);
      assert v / 256 == hi && v % 256 == bs[n - 1] as nat;
      ToFromBigEndian(bs[..n - 1]);
      assert bs == bs[..n - 1] + [bs[n - 1]];
    }
  }

  /** The four bytes of a 32-bit big-endian value, one by one. */
  lemma BigEndian32(v: nat)
    requires v < 0x1_0000_0000
    ensures Pow256(4) == 0x1_0000_0000
    ensures ToBigEndian(v, 4)
         == [(v / 0x100_0000) as byte, (v / 0x1_0000 % 256) as byte,
             (v / 256 % 256) as byte, (v % 256) as byte]
  {
    Pow256Values();
    assert v / 256 / 256 == v / 0x1_0000;
    assert v / 0x1_0000 / 256 == v / 0x100_0000;
    var b3 := ToBigEndian(v / 0x100_0000, 1);
    assert b3 == [(v / 0x100_0000) as byte];
    var b2 := ToBigEndian(v / 0x1_0000, 2);
    assert b2 == b3 + [(v / 0x1_0000 % 256) as byte];
    var b1 := ToBigEndian(v / 256, 3);
    assert b1 == b2 + [(v / 256 % 256) as byte];
    assert ToBigEndian(v, 4) == b1 + [(v % 256) as byte];
  }
}
