/** The difficulty of a hash and of the network, and when a share is a block. */
module Difficulties {
  import opened Bytes
  import opened Bits
  import V = VersionRotation

  /** Both of the source's constants denote 65535 * 2^208 as a double. */
  const TRUE_DIFF_ONE: real := 65535.0 * Pow256Real(26)

  datatype Difficulty = Infinite | Finite(value: real)

  function Pow256Real(e: int): (p: real)
    ensures p > 0.0
    decreases if e < 0 then -e else e
  {
    if e == 0 then 1.0 else if e > 0 then 256.0 * Pow256Real(e - 1) else Pow256Real(e + 1) / 256.0
  }

  /** The hash as a little-endian number, accumulated from its last byte. */
  method Le256ToDouble(target: seq<Byte>) returns (number: nat)
    ensures number == FromLE(target)
  {
    number := 0;
    var i := |target|;
    while i > 0
      invariant 0 <= i <= |target|
      invariant number == FromLE(target[i..])
    {
      i := i - 1;
      assert target[i..][1..] == target[i + 1..];
      number := number * 256 + target[i];
    }
    assert target[0..] == target;
  }

  /** A zero hash has infinite difficulty. */
  function ShareDifficulty(hash: Hash): Difficulty {
    if FromLE(hash) == 0 then Infinite else Finite(TRUE_DIFF_ONE / FromLE(hash) as real)
  }

  method CalculateDifficulty(H: HashFunction, header: seq<Byte>) returns (submissionDifficulty: Difficulty)
    ensures submissionDifficulty == ShareDifficulty(H(header))
  {
    var hashResult := H(header);
    var target := Le256ToDouble(hashResult);
    submissionDifficulty := if target == 0 then Infinite else Finite(TRUE_DIFF_ONE / target as real);
  }

  /** The compact target: a 23-bit mantissa and a base-256 exponent. */
  function CompactTarget(nBits: nat): real {
    var mantissa := Bitwise(And, nBits, 0x007f_ffff);
    var exponent := Bitwise(And, Shr(nBits, 24), 0xff);
    Target(mantissa, exponent)
  }

  function Target(mantissa: nat, exponent: nat): real {
    mantissa as real * Pow256Real(exponent - 3)
  }

  function NetworkDifficulty(nBits: nat): Difficulty {
    if CompactTarget(nBits) == 0.0 then Infinite else Finite(TRUE_DIFF_ONE / CompactTarget(nBits))
  }

  // ---------- what a compact target denotes ----------

  lemma {:induction false} AndOnes(n: nat, k: nat)
    ensures Bitwise(And, n, Ones(k)) == n % V.Pow2(k)
    decreases k
  {
    if k == 0 {
      AndZero(n);
    } else {
      AndOnes(n / 2, k - 1);
      V.HalveRemainder(n, V.Pow2(k - 1));
      assert Ones(k) / 2 == Ones(k - 1) && Ones(k) % 2 == 1;
    }
  }

  lemma {:induction false} AndZero(n: nat)
    ensures Bitwise(And, n, 0) == 0
  {
    if n > 0 { AndZero(n / 2); }
  }

  lemma {:induction false} ShrIsQuotient(n: nat, k: nat)
    ensures Shr(n, k) == n / V.Pow2(k)
    decreases k
  {
    if k > 0 {
      ShrIsQuotient(n / 2, k - 1);
      HalvesFirst(n, V.Pow2(k - 1));
    }
  }

  lemma HalvesFirst(n: nat, p: nat)
    requires p >= 1
    ensures n / 2 / p == n / (2 * p)
  {
    V.HalveRemainder(n, p);
    var q, r := n / 2 / p, n / 2 % p;
    assert n / 2 == q * p + r;
    assert n == q * (2 * p) + (2 * r + n % 2);
    var k := q - n / (2 * p);
    assert k * (2 * p) == 0;
    V.SmallMultiple(k, 2 * p);
  }

  lemma PowersOfTwo()
    ensures V.Pow2(8) == 256 && V.Pow2(23) == 0x80_0000 && V.Pow2(24) == 0x100_0000
  {
    assert V.Pow2(8) == 256;
    assert V.Pow2(12) == 4096;
    assert V.Pow2(16) == 0x1_0000;
    assert V.Pow2(20) == 0x10_0000;
  }

  lemma OnesValues()
    ensures Ones(8) == 0xff && Ones(23) == 0x7f_ffff
  {
    assert Ones(8) == 0xff;
    assert Ones(12) == 0xfff;
    assert Ones(16) == 0xffff;
    assert Ones(20) == 0xf_ffff;
  }

  lemma LowBits(n: nat, k: nat, ones: nat, power: nat)
    requires ones == Ones(k) && power == V.Pow2(k)
    ensures Bitwise(And, n, ones) == n % power
  {
    AndOnes(n, k);
  }

  lemma HighBits(n: nat, k: nat, power: nat)
    requires power == V.Pow2(k)
    ensures Shr(n, k) == n / power
  {
    ShrIsQuotient(n, k);
  }

  /** The low 23 bits are the mantissa and the high byte of a word is the exponent. */
  lemma CompactParts(n: nat)
    ensures Bitwise(And, n, 0x007f_ffff) == n % 0x80_0000
    ensures Bitwise(And, Shr(n, 24), 0xff) == n / 0x100_0000 % 256
  {
    PowersOfTwo();
    OnesValues();
    LowBits(n, 23, 0x7f_ffff, 0x80_0000);
    HighBits(n, 24, 0x100_0000);
    LowBits(Shr(n, 24), 8, 0xff, 256);
  }

  lemma CompactValue(n: nat)
    ensures CompactTarget(n) == Target(n % 0x80_0000, n / 0x100_0000 % 256)
  {
    CompactParts(n);
  }

  lemma {:induction false} PowersAgree(k: nat)
    ensures Pow256Real(k) == Pow256(k) as real
    ensures Pow256Real(0 - k) * Pow256(k) as real == 1.0
  {
    if k > 0 {
      PowersAgree(k - 1);
      assert Pow256Real(0 - k) == Pow256Real(0 - (k - 1)) / 256.0;
      Cancel(Pow256Real(0 - (k - 1)), Pow256(k - 1) as real);
    }
  }

  lemma Cancel(a: real, b: real)
    ensures (a / 256.0) * (256.0 * b) == a * b
  {
  }

  lemma PartsOf(m: nat, e: nat, sign: nat)
    requires m < 0x80_0000 && e < 256 && sign < 2
    ensures var n := e * 0x100_0000 + sign * 0x80_0000 + m; n % 0x80_0000 == m && n / 0x100_0000 % 256 == e
  {
  }

  lemma CompactTargetOf(n: nat, m: nat, e: nat, sign: nat)
    requires m < 0x80_0000 && e < 256 && sign < 2 && n == e * 0x100_0000 + sign * 0x80_0000 + m
    ensures CompactTarget(n) == Target(m, e)
  {
    PartsOf(m, e, sign);
    CompactValue(n);
  }

  /** m * 256^(e - 3), as whole numbers. */
  predicate IsMantissaTimesPower(target: real, m: nat, e: nat) {
    if e >= 3 then target == (m * Pow256(e - 3)) as real else target * Pow256(3 - e) as real == m as real
  }

  /** A compact target with exponent e and mantissa m is m * 256^(e - 3); the sign bit changes nothing. */
  lemma CompactTargetIs(n: nat, m: nat, e: nat, sign: nat)
    requires m < 0x80_0000 && e < 256 && sign < 2 && n == e * 0x100_0000 + sign * 0x80_0000 + m
    ensures IsMantissaTimesPower(CompactTarget(n), m, e)
  {
    CompactTargetOf(n, m, e, sign);
    TargetIs(CompactTarget(n), m, e);
  }

  lemma TargetIs(target: real, m: nat, e: nat)
    requires target == Target(m, e)
    ensures IsMantissaTimesPower(target, m, e)
  {
    if e >= 3 { ScaledUp(m, e); } else { ScaledDown(m, e); }
  }

  lemma ScaledUp(m: nat, e: nat)
    requires e >= 3
    ensures Target(m, e) == (m * Pow256(e - 3)) as real
  {
    PowersAgree(e - 3);
  }

  lemma ScaledDown(m: nat, e: nat)
    requires e < 3
    ensures Target(m, e) * Pow256(3 - e) as real == m as real
  {
    PowersAgree(3 - e);
    assert 0 - (3 - e) == e - 3;
    Rearranged(m as real, Pow256Real(e - 3), Pow256(3 - e) as real);
  }

  lemma Rearranged(a: real, b: real, c: real)
    requires b * c == 1.0
    ensures (a * b) * c == a
  {
    assert (a * b) * c == a * (b * c);
  }

  lemma DifficultyOneInDigits()
    ensures TRUE_DIFF_ONE == 26959535291011309493156476344723991336010898738574164086137773096960.0
    ensures TRUE_DIFF_ONE == (65535 * Pow256(26)) as real
  {
    PowersAgree(26);
    Pow256Of26();
  }

  /** The easiest target: the compact 0x1d00ffff is 65535 * 256^26 and has difficulty one. */
  lemma EasiestTarget(nBits: nat)
    requires nBits == 0x1d00ffff
    ensures CompactTarget(nBits) == 26959535291011309493156476344723991336010898738574164086137773096960.0
    ensures NetworkDifficulty(nBits) == Finite(1.0)
  {
    CompactTargetIs(nBits, 0xffff, 0x1d, 0);
    DifficultyOneInDigits();
    OneOverOne(CompactTarget(nBits));
  }

  lemma OneOverOne(target: real)
    requires target > 0.0
    ensures target / target == 1.0
  {
  }

  lemma Pow256Of26()
    ensures Pow256(26) == 0x1_0000_0000_0000_0000_0000_0000_0000_0000_0000_0000_0000_0000_0000
  {
    Pow256Values();
    assert Pow256(12) == 0x1_0000_0000_0000_0000_0000_0000;
    assert Pow256(16) == 0x1_0000_0000_0000_0000_0000_0000_0000_0000;
    assert Pow256(20) == 0x1_0000_0000_0000_0000_0000_0000_0000_0000_0000_0000;
    assert Pow256(24) == 0x1_0000_0000_0000_0000_0000_0000_0000_0000_0000_0000_0000_0000;
  }

  /** JavaScript's `>=` with an infinite value. */
  predicate AtLeast(a: Difficulty, b: Difficulty) {
    a.Infinite? || (b.Finite? && a.value >= b.value)
  }

  lemma MulMonotone(a: real, b: real, c: real)
    requires c > 0.0
    ensures a <= b <==> a * c <= b * c
  {
  }

  lemma QuotientOrder(one: real, x: real, y: real)
    requires one > 0.0 && x > 0.0 && y > 0.0
    ensures one / x > 0.0
    ensures one / x >= one / y <==> x <= y
  {
    var p, q := one / x, one / y;
    assert p * x == one && q * y == one;
    MulMonotone(p, 0.0, x);
    MulMonotone(q, 0.0, y);
    MulMonotone(q, p, x);
    MulMonotone(x, y, q);
  }

  /** The comparison of difficulties, as the comparison of a number with a target. */
  lemma DifficultyOrder(value: nat, target: real)
    requires target >= 0.0
    ensures AtLeast(if value == 0 then Infinite else Finite(TRUE_DIFF_ONE / value as real),
                    if target == 0.0 then Infinite else Finite(TRUE_DIFF_ONE / target))
       <==> value as real <= target
  {
    var one := TRUE_DIFF_ONE;
    if value > 0 && target > 0.0 {
      QuotientOrder(one, value as real, target);
    }
  }

  lemma TargetNotNegative(nBits: nat)
    ensures CompactTarget(nBits) >= 0.0
  {
    CompactValue(nBits);
    PlainTargetNotNegative(nBits % 0x80_0000, nBits / 0x100_0000 % 256);
  }

  lemma PlainTargetNotNegative(mantissa: nat, exponent: nat)
    ensures Target(mantissa, exponent) >= 0.0
  {
    MulMonotone(0.0, mantissa as real, Pow256Real(exponent - 3));
  }

  /** A share is taken for a block exactly when its hash meets the target, for every compact encoding. */
  lemma BlockFoundIffHashMeetsTarget(hash: Hash, nBits: nat)
    ensures AtLeast(ShareDifficulty(hash), NetworkDifficulty(nBits)) <==> FromLE(hash) as real <= CompactTarget(nBits)
  {
    TargetNotNegative(nBits);
    DifficultyOrder(FromLE(hash), CompactTarget(nBits));
  }

  /** A share meets the session's difficulty exactly when its hash is at most the session's own target. */
  lemma ShareAcceptedIff(hash: Hash, sessionDifficulty: real)
    requires sessionDifficulty > 0.0
    ensures AtLeast(ShareDifficulty(hash), Finite(sessionDifficulty))
       <==> FromLE(hash) as real <= TRUE_DIFF_ONE / sessionDifficulty
  {
    Reciprocal(TRUE_DIFF_ONE, sessionDifficulty);
    DifficultyOrder(FromLE(hash), TRUE_DIFF_ONE / sessionDifficulty);
  }

  lemma Reciprocal(one: real, d: real)
    requires one > 0.0 && d > 0.0
    ensures one / d > 0.0 && one / (one / d) == d
  {
    QuotientOrder(one, d, d);
    var t := one / d;
    assert t * d == one;
  }
}
