/** Bytes, 32-byte hashes and the little-endian integers of the wire format. */
module Bytes {

  type Byte = b: int | 0 <= b < 256

  /** A double-SHA-256 digest. */
  type Hash = h: seq<Byte> | |h| == 32 witness seq(32, _ => 0)

  /** The hash function is a parameter of every result: nothing about it is assumed. */
  type HashFunction = seq<Byte> -> Hash

  const ZERO_HASH: Hash := Zeros()

  function Zeros(): Hash {
    seq(32, _ => 0)
  }

  function Pow256(n: nat): (p: nat)
    ensures p >= 1
  {
    if n == 0 then 1 else 256 * Pow256(n - 1)
  }

  /** The low n bytes of v, least significant first. */
  function LE(n: nat, v: nat): (s: seq<Byte>)
    ensures |s| == n
  {
    if n == 0 then [] else [v % 256] + LE(n - 1, v / 256)
  }

  function FromLE(s: seq<Byte>): (v: nat) {
    if s == [] then 0 else s[0] + 256 * FromLE(s[1..])
  }

  lemma {:induction false} LERoundTrip(n: nat, v: nat)
    requires v < Pow256(n)
    ensures FromLE(LE(n, v)) == v
  {
    if n > 0 {
      LERoundTrip(n - 1, v / 256);
      assert LE(n, v)[1..] == LE(n - 1, v / 256);
    }
  }

  lemma LEInjective(n: nat, v: nat, w: nat)
    requires v < Pow256(n) && w < Pow256(n)
    requires LE(n, v) == LE(n, w)
    ensures v == w
  {
    LERoundTrip(n, v);
    LERoundTrip(n, w);
  }

  lemma Pow256Values()
    ensures Pow256(1) == 0x100 && Pow256(2) == 0x1_0000 && Pow256(4) == 0x1_0000_0000
    ensures Pow256(8) == 0x1_0000_0000_0000_0000
  {
    assert Pow256(3) == 0x100_0000;
    assert Pow256(5) == 256 * Pow256(4);
    assert Pow256(6) == 256 * Pow256(5);
    assert Pow256(7) == 256 * Pow256(6);
  }

  /** Writes `bytes` into `buffer` from `offset` on and leaves the other cells alone. */
  method Put(buffer: array<Byte>, offset: nat, bytes: seq<Byte>)
    requires offset + |bytes| <= buffer.Length
    modifies buffer
    ensures buffer[..] == old(buffer[..offset]) + bytes + old(buffer[offset + |bytes|..])
  {
    forall i | 0 <= i < |bytes| {
      buffer[offset + i] := bytes[i];
    }
  }
}
