/**
 * Rounding down beyond 31 bits: what the shifts do to values that JavaScript wraps to negative words or to
 * zero, and to an infinite target. A call is followed through at most `depth` nested calls.
 */
module LargeTargets {
  import opened Options
  import opened Bits
  import opened Vardiff
  import V = VersionRotation

  /** A target is a quotient; its denominator may be zero. */
  datatype Extended = Finite(value: real) | Infinity

  datatype Call = Returned(result: Option<real>) | Deeper

  // ---------- signed words ----------

  /** `ToInt32`, as an unsigned word. */
  function WordOf(val: Extended): V.Word
    requires val.Finite? ==> val.value >= 0.0
  {
    if val.Infinity? then 0 else val.value.Floor % 0x1_0000_0000
  }

  /** `>>` on a word with its sign bit set: ones come in from the left. */
  function Sar(word: nat, k: nat): nat
    requires k <= 32
  {
    Bitwise(Or, Shr(word, k), Shl(Ones(k), 32 - k))
  }

  function SignedSmear(word: nat, k: nat): nat
    requires k <= 32
  {
    Bitwise(Or, word, Sar(word, k))
  }

  function SignedCascade(word: nat): nat {
    SignedSmear(SignedSmear(SignedSmear(SignedSmear(SignedSmear(SignedSmear(word, 1), 2), 4), 8), 16), 32 % 32)
  }

  /** `x - (x >> 1)` after the cascade; without a sign bit `>>` is `>>>`. */
  function SignedTopBit(word: V.Word): int {
    if word < 0x8000_0000 then TopBit(word) else SignedCascade(word) - Sar(SignedCascade(word), 1)
  }

  /** The top w bits are set and nothing lies above them. */
  ghost predicate TopSet(word: nat, w: nat) {
    forall i: nat :: (i >= 32 ==> !Bit(word, i)) && (i < 32 <= i + w ==> Bit(word, i))
  }

  lemma SarBit(word: nat, k: nat, i: nat)
    requires k <= 32
    ensures Bit(Sar(word, k), i) == (Bit(word, i + k) || 32 - k <= i < 32)
  {
    BitwiseBit(Or, Shr(word, k), Shl(Ones(k), 32 - k), i);
    ShrBit(word, k, i);
    ShlBit(Ones(k), 32 - k, i);
    if i >= 32 - k { OnesBit(k, i - (32 - k)); }
  }

  lemma SignedSmearWidens(word: nat, k: nat, w: nat)
    requires k <= w && k <= 32 && TopSet(word, w)
    ensures TopSet(SignedSmear(word, k), w + k)
  {
    var y := SignedSmear(word, k);
    forall i: nat ensures (i >= 32 ==> !Bit(y, i)) && (i < 32 <= i + (w + k) ==> Bit(y, i)) {
      BitwiseBit(Or, word, Sar(word, k), i);
      SarBit(word, k, i);
      assert i >= 32 ==> !Bit(word, i) && !Bit(word, i + k);
      assert i < 32 <= i + w ==> Bit(word, i);
      assert i + k < 32 <= i + k + w ==> Bit(word, i + k);
    }
  }

  lemma AllSet(word: nat)
    requires TopSet(word, 32)
    ensures word == Ones(32)
  {
    forall i: nat ensures Bit(word, i) == Bit(Ones(32), i) { OnesBit(32, i); }
    BitsExtensional(word, Ones(32));
  }

  lemma SignBitSet(word: V.Word)
    requires word >= 0x8000_0000
    ensures TopSet(word, 1)
  {
    var k := Log2(word);
    Pow2Of31();
    if k < 31 { Pow2Monotone(k + 1, 31); }
    if k > 31 { Pow2Monotone(32, k); }
    forall i: nat ensures (i >= 32 ==> !Bit(word, i)) && (i < 32 <= i + 1 ==> Bit(word, i)) {
      assert i > k ==> !Bit(word, i);
    }
  }

  /** A negative word smears to all ones, so nothing is left of it. */
  lemma NegativeHasNoTopBit(word: V.Word)
    requires word >= 0x8000_0000
    ensures SignedTopBit(word) == 0
  {
    SignBitSet(word);
    var a := SignedSmear(word, 1);
    var b := SignedSmear(a, 2);
    var c := SignedSmear(b, 4);
    var d := SignedSmear(c, 8);
    var e := SignedSmear(d, 16);
    SignedSmearWidens(word, 1, 1);
    SignedSmearWidens(a, 2, 2);
    SignedSmearWidens(b, 4, 4);
    SignedSmearWidens(c, 8, 8);
    SignedSmearWidens(d, 16, 16);
    SignedSmearWidens(e, 0, 32);
    AllSet(SignedCascade(word));
    SarOfOnes();
  }

  lemma SarOfOnes()
    ensures Sar(Ones(32), 1) == Ones(32)
  {
    forall i: nat ensures Bit(Sar(Ones(32), 1), i) == Bit(Ones(32), i) {
      SarBit(Ones(32), 1, i);
      OnesBit(32, i);
      OnesBit(32, i + 1);
    }
    BitsExtensional(Sar(Ones(32), 1), Ones(32));
  }

  /** A bit is found exactly in the non-zero words without a sign bit. */
  lemma BitFoundIff(word: V.Word)
    ensures SignedTopBit(word) >= 0
    ensures SignedTopBit(word) != 0 <==> 0 < word < 0x8000_0000
  {
    if word >= 0x8000_0000 {
      NegativeHasNoTopBit(word);
    } else if word == 0 {
      TopBitZero();
    } else {
      var k := TopBitIsolates(word);
    }
  }

  // ---------- the recursion ----------

  function Times100(val: Extended): Extended {
    if val.Infinity? then Infinity else Finite(100.0 * val.value)
  }

  /** The recursion, given how the top bit of a word is found. */
  function NearestWith(topBit: V.Word -> int, val: Extended, depth: nat): Call
    decreases depth
  {
    if val == Finite(0.0) then Returned(None)
    else if val.Finite? && val.value < MIN_DIFF then Returned(Some(MIN_DIFF))
    else
      var res := topBit(WordOf(val));
      if res == 0 && val.Finite? && val.value * 100.0 < MIN_DIFF then Returned(Some(MIN_DIFF))
      else if res != 0 then Returned(Some(res as real))
      else if depth == 0 then Deeper
      else Divided(NearestWith(topBit, Times100(val), depth - 1))
  }

  function Divided(call: Call): Call {
    match call
    case Deeper => Deeper
    case Returned(scaled) => Returned(Some((if scaled.Some? then scaled.value else 0.0) / 100.0))
  }

  /** `nearestPowerOfTwo` for any target, followed for `depth` nested calls. */
  function NearestPower(val: Extended, depth: nat): Call {
    NearestWith(SignedTopBit, val, depth)
  }

  ghost predicate FindsTopBits(topBit: V.Word -> int) {
    forall w: V.Word :: topBit(w) != 0 <==> 0 < w < 0x8000_0000
  }

  lemma SignedTopBitFinds()
    ensures FindsTopBits(SignedTopBit)
  {
    forall w: V.Word ensures SignedTopBit(w) != 0 <==> 0 < w < 0x8000_0000 { BitFoundIff(w); }
  }

  /** Below 2^31 every call returns within three nested calls, with the result of the rounding. */
  lemma SmallTargetsReturn(val: real, depth: nat)
    requires val < 2147483648.0 && depth >= 3
    ensures NearestPower(Finite(val), depth) == Returned(NearestPowerOfTwo(val))
  {
    SignedTopBitFinds();
    RoundingRounds();
    SmallWith(SignedTopBit, Rounding(), val, depth);
  }

  function Rounding(): real -> Option<real> {
    (val: real) => if val < TWO_31 then NearestPowerOfTwo(val) else None
  }

  /** The equations of rounding down, case by case. */
  ghost predicate Rounds(topBit: V.Word -> int, round: real -> Option<real>) {
    && round(0.0) == None
    && (forall val: real :: val < MIN_DIFF && val != 0.0 ==> round(val) == Some(MIN_DIFF))
    && (forall val: real :: 1.0 <= val < TWO_31 ==> round(val) == Some(topBit(val.Floor) as real))
    && (forall val: real :: MIN_DIFF <= val < 1.0 ==> Returned(round(val)) == Divided(Returned(round(val * 100.0))))
  }

  lemma RoundingRounds()
    ensures Rounds(SignedTopBit, Rounding())
  {
    forall val: real | 1.0 <= val < TWO_31 ensures Rounding()(val) == Some(SignedTopBit(val.Floor) as real) {
      RoundingWhole(val);
    }
    forall val: real | MIN_DIFF <= val < 1.0
      ensures Returned(Rounding()(val)) == Divided(Returned(Rounding()(val * 100.0)))
    {
      RoundingFraction(val);
    }
  }

  lemma RoundingWhole(val: real)
    requires 1.0 <= val < TWO_31
    ensures Rounding()(val) == Some(SignedTopBit(val.Floor) as real)
  {
    WholeRounds(val);
  }

  lemma RoundingFraction(val: real)
    requires MIN_DIFF <= val < 1.0
    ensures Returned(Rounding()(val)) == Divided(Returned(Rounding()(val * 100.0)))
  {
    FractionRounds(val);
  }

  lemma {:induction false} SmallWith(topBit: V.Word -> int, round: real -> Option<real>, val: real, depth: nat)
    requires FindsTopBits(topBit) && Rounds(topBit, round)
    requires val < TWO_31 && depth >= Rank(val)
    ensures NearestWith(topBit, Finite(val), depth) == Returned(round(val))
    decreases Rank(val)
  {
    if val >= 1.0 {
      WholeWith(topBit, val, depth);
    } else if val >= MIN_DIFF {
      SmallWith(topBit, round, val * 100.0, depth - 1);
      FractionWith(topBit, val, depth);
    }
  }

  lemma WholeWith(topBit: V.Word -> int, val: real, depth: nat)
    requires 1.0 <= val < TWO_31 && FindsTopBits(topBit)
    ensures NearestWith(topBit, Finite(val), depth) == Returned(Some(topBit(val.Floor) as real))
  {
    assert WordOf(Finite(val)) == val.Floor;
  }

  lemma FractionWith(topBit: V.Word -> int, val: real, depth: nat)
    requires MIN_DIFF <= val < 1.0 && FindsTopBits(topBit) && depth >= 1
    ensures NearestWith(topBit, Finite(val), depth) == Divided(NearestWith(topBit, Finite(val * 100.0), depth - 1))
  {
    assert WordOf(Finite(val)) == 0 && Times100(Finite(val)) == Finite(val * 100.0);
  }

  function Scaled(val: real, j: nat): real {
    val * Pow100(j)
  }

  predicate HasBit(val: real) {
    val >= 0.0 && 0 < WordOf(Finite(val)) < 0x8000_0000
  }

  /** Some scaling within the depth is a positive 32-bit integer. */
  ghost predicate FindsBit(val: real, depth: nat) {
    exists j: nat :: j <= depth && HasBit(Scaled(val, j))
  }

  /** From MIN_DIFF up a call returns exactly when one of the scaled values is a positive 32-bit integer. */
  lemma ReturnsIff(val: real, depth: nat)
    requires val >= MIN_DIFF
    ensures NearestPower(Finite(val), depth).Returned? <==> FindsBit(val, depth)
  {
    SignedTopBitFinds();
    ReturnsWith(SignedTopBit, val, depth);
  }

  lemma {:induction false} ReturnsWith(topBit: V.Word -> int, val: real, depth: nat)
    requires val >= MIN_DIFF && FindsTopBits(topBit)
    ensures NearestWith(topBit, Finite(val), depth).Returned? <==> FindsBit(val, depth)
    decreases depth
  {
    FirstScale(val, depth);
    assert topBit(WordOf(Finite(val))) != 0 <==> HasBit(val);
    if !HasBit(val) && depth > 0 {
      ReturnsWith(topBit, 100.0 * val, depth - 1);
      ScaledFurther(val, depth);
    }
  }

  lemma FirstScale(val: real, depth: nat)
    requires val >= MIN_DIFF
    ensures HasBit(val) ==> FindsBit(val, depth)
    ensures FindsBit(val, 0) ==> HasBit(val)
  {
    assert Scaled(val, 0) == val;
  }

  lemma ScaledFurther(val: real, depth: nat)
    requires depth > 0 && !HasBit(val)
    ensures FindsBit(100.0 * val, depth - 1) <==> FindsBit(val, depth)
  {
    assert Scaled(val, 0) == val;
    if FindsBit(100.0 * val, depth - 1) {
      var j: nat :| j <= depth - 1 && HasBit(Scaled(100.0 * val, j));
      NextScale(val, j);
      assert j + 1 <= depth && HasBit(Scaled(val, j + 1));
    }
    if FindsBit(val, depth) {
      var j: nat :| j <= depth && HasBit(Scaled(val, j));
      NextScale(val, j - 1);
      assert j - 1 <= depth - 1 && HasBit(Scaled(100.0 * val, j - 1));
    }
  }

  lemma NextScale(val: real, j: nat)
    ensures Scaled(100.0 * val, j) == Scaled(val, j + 1)
  {
    assert Pow100(j + 1) == 100.0 * Pow100(j);
  }

  function Pow4(k: nat): nat {
    if k == 0 then 1 else 4 * Pow4(k - 1)
  }

  /** A value in fourths of fourths becomes whole after as many scalings. */
  lemma {:induction false} BecomesWhole(val: real, k: nat, n: nat) returns (whole: nat)
    requires val * Pow4(k) as real == n as real
    ensures Scaled(val, k) == whole as real
    decreases k
  {
    if k == 0 {
      whole := n;
    } else {
      assert val * Pow4(k) as real == (4.0 * val) * Pow4(k - 1) as real;
      var before := BecomesWhole(4.0 * val, k - 1, n);
      whole := 25 * before;
      ScaledOnce(val, k - 1);
    }
  }

  lemma ScaledOnce(val: real, k: nat)
    ensures Scaled(val, k + 1) == 25.0 * Scaled(4.0 * val, k)
    ensures Scaled(val, k + 1) == 100.0 * Scaled(val, k)
  {
    assert Pow100(k + 1) == 100.0 * Pow100(k);
    assert val * (100.0 * Pow100(k)) == 25.0 * ((4.0 * val) * Pow100(k));
    assert val * (100.0 * Pow100(k)) == 100.0 * (val * Pow100(k));
  }

  function HundredTo(j: nat): nat {
    if j == 0 then 1 else 100 * HundredTo(j - 1)
  }

  lemma {:induction false} WholeScaled(val: real, k: nat, whole: nat, j: nat)
    requires Scaled(val, k) == whole as real
    ensures Scaled(val, k + j) == (whole * HundredTo(j)) as real
  {
    if j > 0 {
      WholeScaled(val, k, whole, j - 1);
      ScaledOnce(val, k + (j - 1));
      assert whole * HundredTo(j) == 100 * (whole * HundredTo(j - 1));
    }
  }

  /** From the sixteenth further scaling on, whole values are multiples of 2^32. */
  lemma {:induction false} MultipleAfter16(j: nat) returns (m: nat)
    requires j >= 16
    ensures HundredTo(j) == m * 0x1_0000_0000
  {
    if j == 16 {
      m := 23283064365386962890625;
      assert HundredTo(4) == 100000000;
      assert HundredTo(8) == 10000000000000000;
      assert HundredTo(12) == 1000000000000000000000000;
      assert HundredTo(16) == 100000000000000000000000000000000;
    } else {
      var before := MultipleAfter16(j - 1);
      m := 100 * before;
    }
  }

  lemma NoBitInMultiple(val: real, whole: nat, m: nat)
    requires val == (whole * (m * 0x1_0000_0000)) as real
    ensures !HasBit(val)
  {
    assert whole * (m * 0x1_0000_0000) == (whole * m) * 0x1_0000_0000;
    MultipleModulo(whole * m);
  }

  lemma MultipleModulo(m: nat)
    ensures (m * 0x1_0000_0000) % 0x1_0000_0000 == 0
  {
  }

  lemma NoBitLate(val: real, k: nat, n: nat, j: nat)
    requires val * Pow4(k) as real == n as real && j >= k + 16
    ensures !HasBit(Scaled(val, j))
  {
    var whole := BecomesWhole(val, k, n);
    WholeScaled(val, k, whole, j - k);
    var m := MultipleAfter16(j - k);
    assert k + (j - k) == j;
    NoBitInMultiple(Scaled(val, j), whole, m);
  }

  /**
   * For a value with 2k binary places the call returns at all exactly when one of its first k + 16 scalings,
   * itself included, wraps to a positive 32-bit integer; whole values have k = 0.
   */
  lemma ReturnsAtAllIff(val: real, k: nat, n: nat)
    requires val >= MIN_DIFF && val * Pow4(k) as real == n as real
    ensures (exists depth: nat :: NearestPower(Finite(val), depth).Returned?) <==> FindsBit(val, k + 15)
  {
    ReturnsIff(val, k + 15);
    if exists depth: nat :: NearestPower(Finite(val), depth).Returned? {
      var depth: nat :| NearestPower(Finite(val), depth).Returned?;
      ReturnsIff(val, depth);
      var j: nat :| j <= depth && HasBit(Scaled(val, j));
      if j > k + 15 { NoBitLate(val, k, n, j); }
    }
  }

  /** An infinite target, from submissions at one instant, never returns. */
  lemma InfinityNeverReturns(depth: nat)
    ensures NearestPower(Infinity, depth) == Deeper
  {
    SignedTopBitFinds();
    InfinityWith(SignedTopBit, depth);
  }

  lemma {:induction false} InfinityWith(topBit: V.Word -> int, depth: nat)
    requires FindsTopBits(topBit)
    ensures NearestWith(topBit, Infinity, depth) == Deeper
  {
    assert topBit(0) == 0;
    if depth > 0 { InfinityWith(topBit, depth - 1); }
  }

  /** Nor does 2^31 itself: it is a negative word, and all its scalings are multiples of 2^32. */
  lemma TwoTo31NeverReturns(depth: nat)
    ensures NearestPower(Finite(TWO_31), depth) == Deeper
  {
    SignedTopBitFinds();
    TwoTo31With(SignedTopBit, depth);
  }

  lemma TwoTo31With(topBit: V.Word -> int, depth: nat)
    requires FindsTopBits(topBit)
    ensures NearestWith(topBit, Finite(TWO_31), depth) == Deeper
  {
    assert WordOf(Finite(TWO_31)) == 0x8000_0000;
    if depth > 0 {
      assert Times100(Finite(TWO_31)) == Finite((50 * 0x1_0000_0000) as real);
      MultiplesWith(topBit, 50, depth - 1);
    }
  }

  lemma {:induction false} MultiplesWith(topBit: V.Word -> int, k: nat, depth: nat)
    requires k > 0 && FindsTopBits(topBit)
    ensures NearestWith(topBit, Finite((k * 0x1_0000_0000) as real), depth) == Deeper
    decreases depth
  {
    assert WordOf(Finite((k * 0x1_0000_0000) as real)) == 0;
    if depth > 0 {
      assert Times100(Finite((k * 0x1_0000_0000) as real)) == Finite((100 * k * 0x1_0000_0000) as real);
      MultiplesWith(topBit, 100 * k, depth - 1);
    }
  }

  // ---------- the suggestion ----------

  /** The target of a cache: infinite when all submissions came at one instant, and no number when they weigh nothing too. */
  function TargetOf(cache: seq<Submission>): Option<Extended>
    requires cache != []
  {
    if SpanSeconds(cache) != 0.0 then Some(Finite(SumDifficulty(cache) / SpanSeconds(cache) * TARGET_SUBMISSION_PER_SECOND))
    else if SumDifficulty(cache) == 0.0 then None else Some(Infinity)
  }

  predicate OffTarget(clientDifficulty: real, target: Extended) {
    target.Infinity? || clientDifficulty * 2.0 < target.value || clientDifficulty / 2.0 > target.value
  }

  /** The suggestion for a full cache, on a call stack with room for `depth` nested calls. */
  function Suggestion(cache: seq<Submission>, clientDifficulty: real, depth: nat): Call
    requires cache != []
  {
    var target := TargetOf(cache);
    if target.Some? && OffTarget(clientDifficulty, target.value) then NearestPower(target.value, depth) else Returned(None)
  }

  /** Submissions at one instant: the suggestion never returns, however deep the stack. */
  lemma OneInstantNeverReturns(cache: seq<Submission>, clientDifficulty: real, depth: nat)
    requires cache != [] && SpanSeconds(cache) == 0.0 && SumDifficulty(cache) > 0.0
    ensures Suggestion(cache, clientDifficulty, depth) == Deeper
  {
    InfinityNeverReturns(depth);
  }

  /** With time between the submissions and a target below 2^31 three nested calls are enough. */
  lemma OrdinarySuggestion(cache: seq<Submission>, clientDifficulty: real, depth: nat)
    requires cache != [] && SpanSeconds(cache) > 0.0 && Target(cache) < TWO_31 && depth >= 3
    ensures Suggestion(cache, clientDifficulty, depth) == Returned(SuggestedFor(Target(cache), clientDifficulty))
  {
    SmallTargetsReturn(Target(cache), depth);
  }

  /** The suggestion for a session without enough submissions is the idle check of the convergence results. */
  lemma IdleSuggestion(difficulty: real, depth: nat)
    requires 0.0 < difficulty < 6.0 * TWO_31 && depth >= 3
    ensures NearestPower(Finite(difficulty / 6.0), depth) == Returned(Some(IdleCheck(difficulty)))
  {
    SmallTargetsReturn(difficulty / 6.0, depth);
    if difficulty / 6.0 >= MIN_DIFF { RoundedDown(difficulty / 6.0); }
  }
}
