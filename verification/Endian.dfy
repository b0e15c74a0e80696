/** Big-endian integers in byte strings, as encoding/binary reads and writes them. */
module Endian {

  type Byte = b: nat | b < 256

  type Bytes = seq<Byte>

  type Uint16 = n: nat | n < 0x1_0000

  type Uint32 = n: nat | n < 0x1_0000_0000

  // Sizes in bytes of 16-, 32- and 64-bit integers
  const SHORT: nat := 2
  const LONG: nat := 4
  const LONG_LONG: nat := 8

  function Pow256(k: nat): (p: nat)
    ensures p >= 1
  {
    if k == 0 then 1 else 256 * Pow256(k - 1)
  }

  /** The k low-order bytes of n, highest first. */
  function Encode(n: nat, k: nat): (bs: Bytes)
    ensures |bs| == k
  {
    if k == 0 then [] else Encode(n / 256, k - 1) + [n % 256]
  }

  function Decode(bs: Bytes): nat {
    if bs == [] then 0 else 256 * Decode(bs[..|bs| - 1]) + bs[|bs| - 1]
  }

  lemma {:induction false} DecodeEncode(n: nat, k: nat)
    requires n < Pow256(k)
    ensures Decode(Encode(n, k)) == n
  {
    if k > 0 {
      DecodeEncode(n / 256, k - 1);
      assert Encode(n, k)[..k - 1] == Encode(n / 256, k - 1);
    }
  }

  lemma {:induction false} EncodeDecode(bs: Bytes)
    ensures Decode(bs) < Pow256(|bs|) && Encode(Decode(bs), |bs|) == bs
  {
    if bs != [] {
      var k := |bs| - 1;
      EncodeDecode(bs[..k]);
      assert Decode(bs) / 256 == Decode(bs[..k]) && Decode(bs) % 256 == bs[k];
      assert bs == bs[..k] + [bs[k]];
    }
  }

  lemma Powers()
    ensures Pow256(SHORT) == 0x1_0000 && Pow256(LONG) == 0x1_0000_0000 && Pow256(LONG_LONG) == 0x1_0000_0000_0000_0000
  {
  }

  function Decode16(bs: Bytes): (n: Uint16)
    requires |bs| == 2
    ensures n == Decode(bs)
  {
    Powers();
    EncodeDecode(bs);
    Decode(bs)
  }

  function Decode32(bs: Bytes): (n: Uint32)
    requires |bs| == 4
    ensures n == Decode(bs)
  {
    Powers();
    EncodeDecode(bs);
    Decode(bs)
  }
}
