/**
 * Pool-side rotation of block version bits 13-16 (BIP 320). Words are the unsigned 32-bit form of
 * JavaScript's bitwise operands.
 */
module VersionRotation {
  import opened Bits

  type Word = w: nat | w < 0x1_0000_0000

  /** The nibble the pool keeps for itself, and the mask it grants to miners. */
  const POOL_VERSION_BITS_MASK: Word := 0x0001_e000
  const MINER_VERSION_MASK: Word := 0x1ffe_0000

  function JobVersion(version: Word, counter: nat): nat {
    var rotationState := Bitwise(And, counter, 0x0f);
    var poolVersionBits := Shl(rotationState, 13);
    Bitwise(Or, Bitwise(And, version, Not(32, POOL_VERSION_BITS_MASK)),
            Bitwise(And, poolVersionBits, POOL_VERSION_BITS_MASK))
  }

  predicate WithinMinerMask(mask: nat) {
    Bitwise(And, mask, MINER_VERSION_MASK) == mask
  }

  lemma Constants()
    ensures Ones(4) == 15 && Ones(32) == 0xffff_ffff
    ensures Shl(15, 13) == POOL_VERSION_BITS_MASK && Shl(Ones(12), 17) == MINER_VERSION_MASK
  {
    assert Ones(12) == 0xfff;
    assert Ones(16) == 0xffff;
    assert Ones(24) == 0xff_ffff;
    assert Shl(0xfff, 6) == 0x3_ffc0;
    assert Shl(0xfff, 12) == 0xff_f000;
  }

  lemma PoolMaskBit(i: nat)
    ensures Bit(POOL_VERSION_BITS_MASK, i) == (13 <= i < 17)
  {
    Constants();
    ShlBit(15, 13, i);
    if i >= 13 { OnesBit(4, i - 13); }
  }

  lemma MinerMaskBit(i: nat)
    ensures Bit(MINER_VERSION_MASK, i) == (17 <= i < 29)
  {
    Constants();
    ShlBit(Ones(12), 17, i);
    if i >= 17 { OnesBit(12, i - 17); }
  }

  lemma WordBit(w: Word, i: nat)
    requires i >= 32
    ensures !Bit(w, i)
  {
    Constants();
    HighBitsZero(w, 32, i);
  }

  lemma KeptBit(version: Word, i: nat)
    ensures Bit(Bitwise(And, version, Not(32, POOL_VERSION_BITS_MASK)), i) == (Bit(version, i) && !(13 <= i < 17))
  {
    BitwiseBit(And, version, Not(32, POOL_VERSION_BITS_MASK), i);
    NotBit(32, POOL_VERSION_BITS_MASK, i);
    PoolMaskBit(i);
    if i >= 32 { WordBit(version, i); }
  }

  lemma PoolBit(counter: nat, i: nat)
    ensures Bit(Bitwise(And, Shl(Bitwise(And, counter, 0x0f), 13), POOL_VERSION_BITS_MASK), i)
         == (13 <= i < 17 && Bit(counter, i - 13))
  {
    var rotationState := Bitwise(And, counter, 0x0f);
    BitwiseBit(And, Shl(rotationState, 13), POOL_VERSION_BITS_MASK, i);
    PoolMaskBit(i);
    ShlBit(rotationState, 13, i);
    if i >= 13 {
      BitwiseBit(And, counter, 0x0f, i - 13);
      OnesBit(4, i - 13);
      Constants();
    }
  }

  /** Bits 13-16 carry the counter's low nibble; every other bit is the template's. */
  lemma JobVersionBit(version: Word, counter: nat, i: nat)
    ensures Bit(JobVersion(version, counter), i) == if 13 <= i < 17 then Bit(counter, i - 13) else Bit(version, i)
  {
    var kept := Bitwise(And, version, Not(32, POOL_VERSION_BITS_MASK));
    var pool := Bitwise(And, Shl(Bitwise(And, counter, 0x0f), 13), POOL_VERSION_BITS_MASK);
    BitwiseBit(Or, kept, pool, i);
    KeptBit(version, i);
    PoolBit(counter, i);
  }

  lemma JobVersionIsWord(version: Word, counter: nat)
    ensures JobVersion(version, counter) < 0x1_0000_0000
  {
    Constants();
    forall i: nat | 32 <= i ensures !Bit(JobVersion(version, counter), i) {
      JobVersionBit(version, counter, i);
      WordBit(version, i);
    }
    NoHighBits(JobVersion(version, counter), 32);
  }

  function RotatedVersion(version: Word, counter: nat): (w: Word)
    ensures w == JobVersion(version, counter)
  {
    JobVersionIsWord(version, counter);
    JobVersion(version, counter)
  }

  function Pow2(n: nat): (p: nat)
    ensures p >= 1
  {
    if n == 0 then 1 else 2 * Pow2(n - 1)
  }

  lemma RemainderUnique(a: nat, m: nat, q: nat, r: nat)
    requires r < m && a == q * m + r
    ensures a % m == r
  {
    var k := q - a / m;
    assert k * m == a % m - r;
    SmallMultiple(k, m);
  }

  lemma SmallMultiple(k: int, m: int)
    requires m > 0
    ensures k >= 1 ==> k * m >= m
    ensures k <= -1 ==> k * m <= -m
  {
    if k >= 1 {
      assert (k - 1) * m >= 0;
    } else if k <= -1 {
      assert (-k - 1) * m >= 0;
    }
  }

  lemma HalveRemainder(a: nat, p: nat)
    requires p >= 1
    ensures a % (2 * p) == 2 * (a / 2 % p) + a % 2
  {
    var q := a / 2 / p;
    var r := a / 2 % p;
    assert a / 2 == q * p + r;
    assert q * (2 * p) == 2 * (q * p);
    RemainderUnique(a, 2 * p, q, 2 * r + a % 2);
  }

  /** The low bits determine the remainder, and are determined by it. */
  lemma {:induction false} SameLowBits(a: nat, b: nat, width: nat)
    requires forall i :: 0 <= i < width ==> Bit(a, i) == Bit(b, i)
    ensures a % Pow2(width) == b % Pow2(width)
  {
    if width > 0 {
      HalveRemainder(a, Pow2(width - 1));
      HalveRemainder(b, Pow2(width - 1));
      assert Bit(a, 0) == Bit(b, 0);
      forall i | 0 <= i < width - 1 ensures Bit(a / 2, i) == Bit(b / 2, i) {
        assert Bit(a, i + 1) == Bit(b, i + 1);
      }
      SameLowBits(a / 2, b / 2, width - 1);
    }
  }

  lemma {:induction false} SameRemainder(a: nat, b: nat, width: nat, i: nat)
    requires i < width && a % Pow2(width) == b % Pow2(width)
    ensures Bit(a, i) == Bit(b, i)
  {
    var p := Pow2(width - 1);
    HalveRemainder(a, p);
    HalveRemainder(b, p);
    SplitEven(a / 2 % p, a % 2, b / 2 % p, b % 2);
    if i > 0 { SameRemainder(a / 2, b / 2, width - 1, i - 1); }
  }

  lemma SplitEven(x: nat, r: nat, y: nat, s: nat)
    requires r < 2 && s < 2 && 2 * x + r == 2 * y + s
    ensures x == y && r == s
  {
  }

  /** On one template, two jobs share their version exactly when their counters agree modulo 16. */
  lemma SameVersionIffSameRotation(version: Word, c: nat, d: nat)
    ensures JobVersion(version, c) == JobVersion(version, d) <==> c % 16 == d % 16
  {
    if JobVersion(version, c) == JobVersion(version, d) {
      forall i | 0 <= i < 4 ensures Bit(c, i) == Bit(d, i) {
        JobVersionBit(version, c, i + 13);
        JobVersionBit(version, d, i + 13);
      }
      SameLowBits(c, d, 4);
      assert Pow2(4) == 16;
    }
    if c % 16 == d % 16 {
      assert Pow2(4) == 16;
      forall i: nat ensures Bit(JobVersion(version, c), i) == Bit(JobVersion(version, d), i) {
        JobVersionBit(version, c, i);
        JobVersionBit(version, d, i);
        if 13 <= i < 17 { SameRemainder(c, d, 4, i - 13); }
      }
      BitsExtensional(JobVersion(version, c), JobVersion(version, d));
    }
  }

  lemma MaskedBit(version: Word, counter: nat, mask: nat, i: nat)
    requires WithinMinerMask(mask) && i < 4
    ensures Bit(Bitwise(Xor, JobVersion(version, counter), mask), i + 13) == Bit(counter, i)
  {
    BitwiseBit(Xor, JobVersion(version, counter), mask, i + 13);
    BitwiseBit(And, mask, MINER_VERSION_MASK, i + 13);
    MinerMaskBit(i + 13);
    JobVersionBit(version, counter, i + 13);
  }

  /**
   * No two masks that stay inside the granted range make the versions of two jobs meet when their
   * counters differ modulo 16, whatever the templates.
   */
  lemma SearchSpacesDisjoint(v: Word, w: Word, c: nat, d: nat, m: nat, n: nat)
    requires c % 16 != d % 16
    requires WithinMinerMask(m) && WithinMinerMask(n)
    ensures Bitwise(Xor, JobVersion(v, c), m) != Bitwise(Xor, JobVersion(w, d), n)
  {
    if forall i :: 0 <= i < 4 ==> Bit(c, i) == Bit(d, i) {
      assert Pow2(4) == 16 by { assert Pow2(2) == 4; }
      SameLowBits(c, d, 4);
    }
    var i :| 0 <= i < 4 && Bit(c, i) != Bit(d, i);
    MaskedBit(v, c, m, i);
    MaskedBit(w, d, n, i);
  }
}
