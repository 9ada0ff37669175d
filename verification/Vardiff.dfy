/**
 * Difficulty adjustment: rounding down to a power of two with 32-bit shifts, the suggestion from recent
 * submissions, and the check that applies it. Difficulties are exact.
 */
module Vardiff {
  import opened Options
  import opened Bits
  import V = VersionRotation

  const MIN_DIFF: real := 0.00001
  const TWO_31: real := 2147483648.0
  const TARGET_SUBMISSION_PER_SECOND: real := 10.0

  datatype Submission = Submission(timeMs: int, difficulty: real)

  // ---------- the bit cascade ----------

  function Smear(y: nat, shift: nat): nat {
    Bitwise(Or, y, Shr(y, shift))
  }

  /** The or-shift cascade; a shift by 32 is a shift by 0 on 32-bit operands. */
  function Cascade(value: nat): nat {
    Smear(Smear(Smear(Smear(Smear(Smear(value, 1), 2), 4), 8), 16), 32 % 32)
  }

  function TopBit(value: nat): nat {
    var x := Cascade(value);
    assert Shr(x, 1) == x / 2;
    x - Shr(x, 1)
  }

  ghost predicate AnyBit(x: nat, from: nat, width: nat) {
    exists j: nat :: from <= j < from + width && Bit(x, j)
  }

  /** y has bit i exactly when x has one of the `width` bits from i on. */
  ghost predicate Smeared(x: nat, y: nat, width: nat) {
    forall i: nat :: Bit(y, i) == AnyBit(x, i, width)
  }

  lemma SmearDoubles(x: nat, y: nat, width: nat)
    requires Smeared(x, y, width)
    ensures Smeared(x, Smear(y, width), 2 * width)
  {
    forall i: nat ensures Bit(Smear(y, width), i) == AnyBit(x, i, 2 * width) {
      BitwiseBit(Or, y, Shr(y, width), i);
      ShrBit(y, width, i);
      assert Bit(y, i) == AnyBit(x, i, width) && Bit(y, i + width) == AnyBit(x, i + width, width);
      if AnyBit(x, i, 2 * width) {
        var j: nat :| i <= j < i + 2 * width && Bit(x, j);
        if j >= i + width { assert i + width <= j < i + width + width; }
      }
    }
  }

  lemma SmearZero(y: nat)
    ensures Smear(y, 0) == y
  {
    forall i: nat ensures Bit(Smear(y, 0), i) == Bit(y, i) { BitwiseBit(Or, y, y, i); }
    BitsExtensional(Smear(y, 0), y);
  }

  lemma {:induction false} Log2(x: nat) returns (k: nat)
    requires x > 0
    ensures V.Pow2(k) <= x < 2 * V.Pow2(k)
    ensures Bit(x, k) && forall j: nat | j > k :: !Bit(x, j)
  {
    if x == 1 {
      k := 0;
      forall j: nat | j > 0 ensures !Bit(1, j) { ZeroBit(j - 1); }
    } else {
      var h := Log2(x / 2);
      k := h + 1;
      forall j: nat | j > k ensures !Bit(x, j) { assert !Bit(x / 2, j - 1); }
    }
  }

  lemma {:induction false} OnesIsPow2(k: nat)
    ensures Ones(k) + 1 == V.Pow2(k)
  {
    if k > 0 { OnesIsPow2(k - 1); }
  }

  lemma {:induction false} Pow2Monotone(a: nat, b: nat)
    requires a <= b
    ensures V.Pow2(a) <= V.Pow2(b)
  {
    if a < b { Pow2Monotone(a, b - 1); }
  }

  /** Seen through 32 positions, exactly the bits up to the highest one are set. */
  lemma BitsUpToHighest(x: nat, k: nat, i: nat)
    requires k < 32 && Bit(x, k) && forall j: nat | j > k :: !Bit(x, j)
    ensures AnyBit(x, i, 32) == (i <= k)
  {
    if i <= k { assert i <= k < i + 32 && Bit(x, k); }
  }

  lemma BitsAreOnes(y: nat, w: nat)
    requires forall i: nat :: Bit(y, i) == (i < w)
    ensures y == Ones(w)
  {
    forall i: nat ensures Bit(y, i) == Bit(Ones(w), i) { OnesBit(w, i); }
    BitsExtensional(y, Ones(w));
  }

  lemma FullySmeared(x: nat, y: nat, k: nat)
    requires Smeared(x, y, 32) && k < 32 && Bit(x, k) && forall j: nat | j > k :: !Bit(x, j)
    ensures forall i: nat :: Bit(y, i) == (i < k + 1)
  {
    forall i: nat ensures Bit(y, i) == (i < k + 1) { BitsUpToHighest(x, k, i); }
  }

  lemma SmearedOnce(x: nat)
    ensures Smeared(x, x, 1)
  {
    forall i: nat ensures Bit(x, i) == AnyBit(x, i, 1) {
      if Bit(x, i) { assert i <= i < i + 1; }
    }
  }

  lemma CascadeSmears(value: nat)
    ensures Smeared(value, Cascade(value), 32)
  {
    var a := Smear(value, 1);
    var b := Smear(a, 2);
    var c := Smear(b, 4);
    var d := Smear(c, 8);
    var e := Smear(d, 16);
    SmearedOnce(value);
    SmearDoubles(value, value, 1);
    SmearDoubles(value, a, 2);
    SmearDoubles(value, b, 4);
    SmearDoubles(value, c, 8);
    SmearDoubles(value, d, 16);
    SmearZero(e);
  }

  lemma TopOfOnes(k: nat)
    ensures Ones(k + 1) - Shr(Ones(k + 1), 1) == V.Pow2(k)
  {
    OnesIsPow2(k);
    assert Shr(Ones(k + 1), 1) == Ones(k + 1) / 2 == Ones(k);
  }

  /** For a non-zero 31-bit value the cascade leaves exactly its highest bit. */
  lemma TopBitIsolates(value: nat) returns (k: nat)
    requires 0 < value < 0x8000_0000
    ensures TopBit(value) == V.Pow2(k) && k <= 30
    ensures V.Pow2(k) <= value < 2 * V.Pow2(k)
  {
    k := Log2(value);
    if k >= 31 {
      Pow2Monotone(31, k);
      Pow2Of31();
    }
    CascadeSmears(value);
    FullySmeared(value, Cascade(value), k);
    BitsAreOnes(Cascade(value), k + 1);
    TopOfOnes(k);
  }

  lemma Pow2Of31()
    ensures V.Pow2(31) == 0x8000_0000
  {
    assert V.Pow2(8) == 256;
    assert V.Pow2(16) == 0x1_0000;
    assert V.Pow2(24) == 0x100_0000;
  }

  lemma SmearOfZero(shift: nat)
    ensures Smear(0, shift) == 0
  {
    ShrOfZero(shift);
  }

  lemma {:induction false} ShrOfZero(k: nat)
    ensures Shr(0, k) == 0
  {
    if k > 0 { ShrOfZero(k - 1); }
  }

  lemma TopBitZero()
    ensures TopBit(0) == 0
  {
    SmearOfZero(1);
    SmearOfZero(2);
    SmearOfZero(4);
    SmearOfZero(8);
    SmearOfZero(16);
    SmearOfZero(0);
  }

  // ---------- rounding down to a power of two ----------

  /** How often the value is still to be multiplied by 100. */
  function Rank(val: real): nat {
    if val >= 1.0 then 0 else if val >= 0.01 then 1 else if val >= 0.0001 then 2 else 3
  }

  /** `null` for 0; fractions are scaled by 100 until a whole bit appears. */
  function NearestPowerOfTwo(val: real): Option<real>
    requires val < TWO_31
    decreases Rank(val)
  {
    if val == 0.0 then None
    else if val < MIN_DIFF then Some(MIN_DIFF)
    else
      var res := TopBit(val.Floor);
      if res == 0 && val * 100.0 < MIN_DIFF then Some(MIN_DIFF)
      else if res == 0 then
        BitAppears(val);
        var scaled := NearestPowerOfTwo(val * 100.0);
        Some((if scaled.Some? then scaled.value else 0.0) / 100.0)
      else Some(res as real)
  }

  lemma BitAppears(val: real)
    requires MIN_DIFF <= val < TWO_31
    ensures TopBit(val.Floor) == 0 <==> val < 1.0
  {
    if val < 1.0 {
      assert val.Floor == 0;
      TopBitZero();
    } else {
      var k := TopBitIsolates(val.Floor);
    }
  }

  lemma WholeRounds(val: real)
    requires 1.0 <= val < TWO_31
    ensures NearestPowerOfTwo(val) == Some(TopBit(val.Floor) as real)
  {
    BitAppears(val);
  }

  lemma FractionRounds(val: real)
    requires MIN_DIFF <= val < 1.0
    ensures var scaled := NearestPowerOfTwo(val * 100.0);
            NearestPowerOfTwo(val) == Some((if scaled.Some? then scaled.value else 0.0) / 100.0)
  {
    BitAppears(val);
  }

  function Pow100(j: nat): real {
    if j == 0 then 1.0 else 100.0 * Pow100(j - 1)
  }

  lemma {:induction false} Pow100Positive(j: nat)
    ensures Pow100(j) >= 1.0
  {
    if j > 0 { Pow100Positive(j - 1); }
  }

  /** The result is a power of two over at most three hundreds, and the largest such value not above `val`. */
  lemma {:induction false} NearestPowerBounds(val: real) returns (k: nat, j: nat)
    requires MIN_DIFF <= val < TWO_31
    ensures j == Rank(val) <= 3 && k <= 30
    ensures NearestPowerOfTwo(val) == Some(V.Pow2(k) as real / Pow100(j))
    ensures var r := V.Pow2(k) as real / Pow100(j); r <= val < 2.0 * r
    decreases Rank(val)
  {
    BitAppears(val);
    if val < 1.0 {
      k, j := NearestPowerBounds(val * 100.0);
      Pow100Positive(j);
      Hundredth(V.Pow2(k) as real, Pow100(j), val);
      j := j + 1;
    } else {
      k := TopBitIsolates(val.Floor);
      j := 0;
    }
  }

  lemma Hundredth(n: real, p: real, val: real)
    requires p > 0.0 && n / p <= val * 100.0 < 2.0 * (n / p)
    ensures n / p / 100.0 == n / (100.0 * p)
    ensures n / (100.0 * p) <= val < 2.0 * (n / (100.0 * p))
  {
    assert n / p == n / (100.0 * p) * 100.0;
  }

  /** The bounds alone. */
  lemma RoundedDown(val: real)
    requires MIN_DIFF <= val < TWO_31
    ensures NearestPowerOfTwo(val).Some?
    ensures NearestPowerOfTwo(val).value <= val < 2.0 * NearestPowerOfTwo(val).value
  {
    var k, j := NearestPowerBounds(val);
  }

  /** Between 0.00001 and 0.00002 the power of two is over a million, and it is 8 or 16. */
  lemma JustAboveMinimum(val: real) returns (p: nat)
    requires MIN_DIFF <= val < 0.00002
    ensures NearestPowerOfTwo(val) == Some(p as real / 1000000.0)
    ensures p as real <= val * 1000000.0 < 2.0 * p as real
    ensures p == 8 || p == 16
  {
    var k, j := NearestPowerBounds(val);
    p := V.Pow2(k);
    Pow100Of3();
    Million(p as real, val);
    PowersUpTo20(k);
  }

  lemma Pow100Of3()
    ensures Pow100(3) == 1000000.0
  {
    assert Pow100(1) == 100.0 && Pow100(2) == 10000.0;
  }

  lemma Million(p: real, val: real)
    requires MIN_DIFF <= val < 0.00002 && p / 1000000.0 <= val < 2.0 * (p / 1000000.0)
    ensures p <= val * 1000000.0 < 2.0 * p && 5.0 < p < 20.0
  {
  }

  /** Despite its name MIN_DIFF is not a lower bound of the result: values just above it round below it. */
  lemma RoundsBelowMinimumIff(val: real)
    requires 0.00001 <= val < 2147483648.0
    ensures NearestPowerOfTwo(val).Some?
    ensures NearestPowerOfTwo(val).value < 0.00001 <==> val < 0.000016
  {
    RoundedDown(val);
    if val < 0.00002 {
      var p := JustAboveMinimum(val);
    }
  }

  lemma PowersUpTo20(k: nat)
    requires 5 < V.Pow2(k) < 20
    ensures V.Pow2(k) == 8 || V.Pow2(k) == 16
  {
    assert V.Pow2(0) == 1 && V.Pow2(1) == 2 && V.Pow2(2) == 4 && V.Pow2(3) == 8 && V.Pow2(4) == 16 && V.Pow2(5) == 32;
    if k >= 5 { Pow2Monotone(5, k); }
  }

  // ---------- the suggestion and the check ----------

  function SumDifficulty(cache: seq<Submission>): real {
    if cache == [] then 0.0 else SumDifficulty(cache[..|cache| - 1]) + cache[|cache| - 1].difficulty
  }

  function SpanSeconds(cache: seq<Submission>): real
    requires cache != []
  {
    (cache[|cache| - 1].timeMs - cache[0].timeMs) as real / 1000.0
  }

  /** The difficulty at which this cache would give ten submissions a second. */
  function Target(cache: seq<Submission>): real
    requires cache != [] && SpanSeconds(cache) > 0.0
  {
    SumDifficulty(cache) / SpanSeconds(cache) * TARGET_SUBMISSION_PER_SECOND
  }

  /** The target in whole units: ten submissions a second for difficulties summed over milliseconds. */
  lemma TargetIs(cache: seq<Submission>)
    requires cache != [] && SpanSeconds(cache) > 0.0
    ensures Target(cache) * (cache[|cache| - 1].timeMs - cache[0].timeMs) as real == SumDifficulty(cache) * 10000.0
  {
    TenASecond(SumDifficulty(cache), (cache[|cache| - 1].timeMs - cache[0].timeMs) as real);
  }

  lemma TenASecond(sum: real, ms: real)
    requires ms / 1000.0 > 0.0
    ensures (sum / (ms / 1000.0) * 10.0) * ms == sum * 10000.0
  {
    var seconds := ms / 1000.0;
    var rate := sum / seconds;
    assert rate * seconds == sum;
    assert (rate * 10.0) * (seconds * 1000.0) == (rate * seconds) * 10000.0;
  }

  function SuggestedFor(target: real, clientDifficulty: real): Option<real>
    requires target < TWO_31
  {
    if clientDifficulty * 2.0 < target || clientDifficulty / 2.0 > target then NearestPowerOfTwo(target) else None
  }

  /** `checkDifficulty`: no suggestion means no change. */
  function Adjusted(clientDifficulty: real, suggestion: Option<real>): real {
    if suggestion.Some? then suggestion.value else clientDifficulty
  }

  /** One check brings the difficulty within a factor of two of the target, and a second changes nothing. */
  lemma OneCheckSettles(target: real, clientDifficulty: real)
    requires 0.00001 <= target < 2147483648.0
    ensures var d := Adjusted(clientDifficulty, SuggestedFor(target, clientDifficulty));
            && target / 2.0 <= d <= 2.0 * target
            && SuggestedFor(target, d) == None
  {
    RoundedDown(target);
  }

  /** Below MIN_DIFF the difficulty may be out of reach, but one check still settles it. */
  lemma OneCheckSettlesLowTargets(target: real, clientDifficulty: real)
    requires 0.0 <= target < MIN_DIFF
    ensures var d := Adjusted(clientDifficulty, SuggestedFor(target, clientDifficulty));
            Adjusted(d, SuggestedFor(target, d)) == d
  {
  }

  // ---------- idle sessions ----------

  /** An idle check divides by six and rounds down. */
  function IdleCheck(difficulty: real): (lower: real)
    requires 0.0 < difficulty < 6.0 * TWO_31
    ensures 0.0 < lower < 6.0 * TWO_31
  {
    if difficulty / 6.0 >= MIN_DIFF then RoundedDown(difficulty / 6.0); NearestPowerOfTwo(difficulty / 6.0).value
    else NearestPowerOfTwo(difficulty / 6.0).value
  }

  function IdleChecks(n: nat, difficulty: real): (lower: real)
    requires 0.0 < difficulty < 6.0 * TWO_31
    ensures 0.0 < lower < 6.0 * TWO_31
  {
    if n == 0 then difficulty else IdleChecks(n - 1, IdleCheck(difficulty))
  }

  function Pow6(n: nat): real {
    if n == 0 then 1.0 else 6.0 * Pow6(n - 1)
  }

  /** Every idle check falls by at least a factor of six, but never to MIN_DIFF/2, until it reaches the minimum. */
  lemma IdleCheckFalls(difficulty: real)
    requires 0.0 < difficulty < 6.0 * TWO_31
    ensures IdleCheck(difficulty) > MIN_DIFF / 2.0
    ensures difficulty / 6.0 >= MIN_DIFF ==> difficulty / 12.0 < IdleCheck(difficulty) <= difficulty / 6.0
    ensures difficulty / 6.0 < MIN_DIFF ==> IdleCheck(difficulty) == MIN_DIFF
  {
    if difficulty / 6.0 >= MIN_DIFF { RoundedDown(difficulty / 6.0); }
  }

  /** At the minimum an idle session stays for ever. */
  lemma {:induction false} MinimumStays(n: nat)
    ensures IdleChecks(n, MIN_DIFF) == MIN_DIFF
  {
    if n > 0 {
      IdleCheckFalls(MIN_DIFF);
      MinimumStays(n - 1);
    }
  }

  /** n checks suffice when the difficulty is below 6^n times the minimum. */
  lemma {:induction false} IdleConverges(n: nat, difficulty: real)
    requires n >= 1 && 0.0 < difficulty < 6.0 * TWO_31 && difficulty < Pow6(n) * MIN_DIFF
    ensures IdleChecks(n, difficulty) == MIN_DIFF
  {
    IdleCheckFalls(difficulty);
    if difficulty / 6.0 < MIN_DIFF {
      MinimumStays(n - 1);
    } else {
      assert Pow6(n) == 6.0 * Pow6(n - 1);
      if n == 1 {
        assert false;
      }
      IdleConverges(n - 1, IdleCheck(difficulty));
    }
  }

  /** Twenty idle checks bring any session to the minimum. */
  lemma TwentyIdleChecksSuffice(difficulty: real)
    requires 0.0 < difficulty < 12884901888.0
    ensures IdleChecks(20, difficulty) == 0.00001
  {
    assert Pow6(4) == 1296.0;
    assert Pow6(8) == 1679616.0;
    assert Pow6(12) == 2176782336.0;
    assert Pow6(16) == 2821109907456.0;
    assert Pow6(20) == 3656158440062976.0;
    IdleConverges(20, difficulty);
  }
}
