/**
 * Splitting a found block over the shares of the window: the fee, one floored amount per share, the
 * credits per miner, and the dust that is left. Proportions are exact.
 */
module RewardSplit {
  import opened Options
  import opened Ledger
  import opened ShareLog

  // ---------- sums over shares ----------

  function SumInt(shares: seq<Share>, f: Share -> int): int {
    if shares == [] then 0 else SumInt(shares[..|shares| - 1], f) + f(shares[|shares| - 1])
  }

  function SumReal(shares: seq<Share>, f: Share -> real): real {
    if shares == [] then 0.0 else SumReal(shares[..|shares| - 1], f) + f(shares[|shares| - 1])
  }

  function Difficulty(): Share -> real {
    (s: Share) => s.difficulty
  }

  function DifficultyOf(miner: Address): Share -> real {
    (s: Share) => if s.minerAddress == miner then s.difficulty else 0.0
  }

  function CountOf(miner: Address): Share -> int {
    (s: Share) => if s.minerAddress == miner then 1 else 0
  }

  function One(): Share -> int {
    (s: Share) => 1
  }

  /** The distributable reward, exactly in proportion. */
  function Portion(distributable: int, difficulty: real, total: real): real
    requires total > 0.0
  {
    distributable as real * (difficulty / total)
  }

  function AmountOf(s: Share, distributable: int, total: real): int
    requires total > 0.0
  {
    Portion(distributable, s.difficulty, total).Floor
  }

  function Amounts(distributable: int, total: real): Share -> int
    requires total > 0.0
  {
    (s: Share) => AmountOf(s, distributable, total)
  }

  /** What one share brings one miner. */
  function AmountsOf(miner: Address, distributable: int, total: real): Share -> int
    requires total > 0.0
  {
    (s: Share) => if s.minerAddress == miner then AmountOf(s, distributable, total) else 0
  }

  function MinerTotal(shares: seq<Share>, miner: Address, distributable: int, total: real): int
    requires total > 0.0
  {
    SumInt(shares, AmountsOf(miner, distributable, total))
  }

  // ---------- bounds ----------

  lemma Linear(distributable: int, d: real, e: real, total: real)
    requires total > 0.0
    ensures Portion(distributable, d + e, total) == Portion(distributable, d, total) + Portion(distributable, e, total)
  {
    assert (d + e) / total == d / total + e / total;
  }

  /** The exact portion of a sum is the sum of the exact portions. */
  lemma {:induction false} PortionOfSum(shares: seq<Share>, d: Share -> real, distributable: int, total: real,
                                        portion: Share -> real)
    requires total > 0.0 && forall s :: portion(s) == Portion(distributable, d(s), total)
    ensures SumReal(shares, portion) == Portion(distributable, SumReal(shares, d), total)
  {
    if shares != [] {
      var n := |shares| - 1;
      PortionOfSum(shares[..n], d, distributable, total, portion);
      Linear(distributable, SumReal(shares[..n], d), d(shares[n]), total);
    }
  }

  /** Floors of k counted terms stay within k below their exact sum. */
  lemma {:induction false} FloorsOfSum(shares: seq<Share>, floors: Share -> int, exact: Share -> real, count: Share -> int)
    requires forall s :: (count(s) == 1 && floors(s) == exact(s).Floor) || (count(s) == 0 && floors(s) == 0 && exact(s) == 0.0)
    ensures var k := SumInt(shares, count);
            && k >= 0
            && SumInt(shares, floors) as real <= SumReal(shares, exact)
            && (k > 0 ==> SumReal(shares, exact) < (SumInt(shares, floors) + k) as real)
            && (k == 0 ==> SumReal(shares, exact) == 0.0 && SumInt(shares, floors) == 0)
  {
    if shares != [] {
      FloorsOfSum(shares[..|shares| - 1], floors, exact, count);
    }
  }

  /** Floors of k terms lie within k below their exact sum. */
  predicate WithinShares(paid: int, exact: real, k: int) {
    paid as real <= exact && (k > 0 ==> exact < (paid + k) as real) && (k == 0 ==> paid == 0)
  }

  lemma MinerPortion(shares: seq<Share>, miner: Address, distributable: int, total: real)
    requires total > 0.0
    ensures WithinShares(MinerTotal(shares, miner, distributable, total),
                         Portion(distributable, SumReal(shares, DifficultyOf(miner)), total), SumInt(shares, CountOf(miner)))
  {
    var exact := (s: Share) => Portion(distributable, DifficultyOf(miner)(s), total);
    PortionOfSum(shares, DifficultyOf(miner), distributable, total, exact);
    FloorsOfSum(shares, AmountsOf(miner, distributable, total), exact, CountOf(miner));
  }

  /** A miner with k shares gets at most the exact portion and more than the exact portion minus k. */
  lemma MinerBounds(shares: seq<Share>, miner: Address, distributable: int, total: real)
    requires total > 0.0
    ensures var exact := distributable as real * (SumReal(shares, DifficultyOf(miner)) / total);
            var paid := MinerTotal(shares, miner, distributable, total);
            var k := SumInt(shares, CountOf(miner));
            && paid as real <= exact
            && (k > 0 ==> exact < (paid + k) as real)
            && (k == 0 ==> paid == 0)
  {
    MinerPortion(shares, miner, distributable, total);
  }

  lemma ProductFirst(a: real, b: real, c: real)
    requires c > 0.0
    ensures a * (b / c) == a * b / c
  {
  }

  lemma FloorSumBounds(shares: seq<Share>, distributable: int, total: real)
    requires total > 0.0 && shares != []
    ensures var exact := Portion(distributable, SumReal(shares, Difficulty()), total);
            var paid := SumInt(shares, Amounts(distributable, total));
            paid as real <= exact < (paid + |shares|) as real
  {
    var exact := (s: Share) => Portion(distributable, Difficulty()(s), total);
    PortionOfSum(shares, Difficulty(), distributable, total, exact);
    FloorsOfSum(shares, Amounts(distributable, total), exact, One());
    SumOfOnes(shares);
  }

  lemma {:induction false} SumOfOnes(shares: seq<Share>)
    ensures SumInt(shares, One()) == |shares|
  {
    if shares != [] { SumOfOnes(shares[..|shares| - 1]); }
  }

  /** The dust is never negative and is less than one lep per share. */
  lemma DustBounds(shares: seq<Share>, distributable: int)
    requires SumReal(shares, Difficulty()) > 0.0
    ensures 0 <= distributable - SumInt(shares, Amounts(distributable, SumReal(shares, Difficulty()))) < |shares|
  {
    var total := SumReal(shares, Difficulty());
    FloorSumBounds(shares, distributable, total);
    assert total / total == 1.0;
  }

  // ---------- order and splitting ----------

  lemma {:induction false} RemoveInt(shares: seq<Share>, i: nat, f: Share -> int)
    requires i < |shares|
    ensures SumInt(shares, f) == SumInt(shares[..i] + shares[i + 1..], f) + f(shares[i])
  {
    var n := |shares| - 1;
    var others := shares[..i] + shares[i + 1..];
    if i == n {
      assert others == shares[..n];
    } else {
      RemoveInt(shares[..n], i, f);
      assert others[..n - 1] == shares[..n][..i] + shares[..n][i + 1..];
    }
  }

  lemma {:induction false} RemoveReal(shares: seq<Share>, i: nat, f: Share -> real)
    requires i < |shares|
    ensures SumReal(shares, f) == SumReal(shares[..i] + shares[i + 1..], f) + f(shares[i])
  {
    var n := |shares| - 1;
    var others := shares[..i] + shares[i + 1..];
    if i == n {
      assert others == shares[..n];
    } else {
      RemoveReal(shares[..n], i, f);
      assert others[..n - 1] == shares[..n][..i] + shares[..n][i + 1..];
    }
  }

  lemma SameWithoutOne(a: seq<Share>, b: seq<Share>) returns (i: nat)
    requires multiset(a) == multiset(b) && a != []
    ensures i < |b| && b[i] == a[|a| - 1]
    ensures multiset(a[..|a| - 1]) == multiset(b[..i] + b[i + 1..])
  {
    var n := |a| - 1;
    assert a[n] in multiset(b);
    i :| 0 <= i < |b| && b[i] == a[n];
    var x, y := multiset(a[..n]), multiset(b[..i] + b[i + 1..]);
    assert multiset(a) == x + multiset{a[n]} by { assert a == a[..n] + [a[n]]; }
    assert multiset(b) == y + multiset{b[i]} by { assert b == b[..i] + ([b[i]] + b[i + 1..]); }
    assert x == (x + multiset{a[n]}) - multiset{a[n]};
    assert y == (y + multiset{b[i]}) - multiset{b[i]};
  }

  lemma {:induction false} SumsIgnoreOrder(a: seq<Share>, b: seq<Share>, f: Share -> int, g: Share -> real)
    requires multiset(a) == multiset(b)
    ensures SumInt(a, f) == SumInt(b, f) && SumReal(a, g) == SumReal(b, g)
    decreases |a|
  {
    if a == [] {
      assert |multiset(b)| == |b|;
    } else {
      var i := SameWithoutOne(a, b);
      RemoveInt(b, i, f);
      RemoveReal(b, i, g);
      SumsIgnoreOrder(a[..|a| - 1], b[..i] + b[i + 1..], f, g);
    }
  }

  /** The order in which the database returns the shares changes no miner's payout. */
  lemma OrderDoesNotMatter(a: seq<Share>, b: seq<Share>, miner: Address, distributable: int)
    requires multiset(a) == multiset(b) && SumReal(a, Difficulty()) > 0.0
    ensures SumReal(b, Difficulty()) == SumReal(a, Difficulty())
    ensures MinerTotal(a, miner, distributable, SumReal(a, Difficulty()))
         == MinerTotal(b, miner, distributable, SumReal(b, Difficulty()))
  {
    SumsIgnoreOrder(a, b, AmountsOf(miner, distributable, SumReal(a, Difficulty())), Difficulty());
  }

  lemma {:induction false} SameTerms(shares: seq<Share>, f: Share -> int, g: Share -> int)
    requires forall i :: 0 <= i < |shares| ==> f(shares[i]) == g(shares[i])
    ensures SumInt(shares, f) == SumInt(shares, g)
  {
    if shares != [] { SameTerms(shares[..|shares| - 1], f, g); }
  }

  /** Cutting one share into k pieces of the same total never raises its payout and costs at most k-1. */
  lemma SplittingNeverPays(whole: Share, pieces: seq<Share>, distributable: int, total: real)
    requires total > 0.0 && pieces != []
    requires forall i :: 0 <= i < |pieces| ==> pieces[i].minerAddress == whole.minerAddress
    requires SumReal(pieces, Difficulty()) == whole.difficulty
    ensures var split := MinerTotal(pieces, whole.minerAddress, distributable, total);
            var one := AmountOf(whole, distributable, total);
            one - (|pieces| - 1) <= split <= one
  {
    SameTerms(pieces, AmountsOf(whole.minerAddress, distributable, total), Amounts(distributable, total));
    FloorSumBounds(pieces, distributable, total);
  }

  lemma {:induction false} SumsOfConcat(a: seq<Share>, b: seq<Share>, f: Share -> int, g: Share -> real)
    ensures SumInt(a + b, f) == SumInt(a, f) + SumInt(b, f) && SumReal(a + b, g) == SumReal(a, g) + SumReal(b, g)
  {
    if b == [] {
      assert a + b == a;
    } else {
      var n := |b| - 1;
      assert (a + b)[..|a| + n] == a + b[..n];
      SumsOfConcat(a, b[..n], f, g);
    }
  }

  /** The window with one share cut into pieces. */
  function Cut(shares: seq<Share>, i: nat, pieces: seq<Share>): seq<Share>
    requires i < |shares|
  {
    shares[..i] + pieces + shares[i + 1..]
  }

  /**
   * A miner who cuts one share of a window into pieces leaves the total and every other payout unchanged,
   * and gains nothing: the own payout falls by at most one lep per extra piece.
   */
  lemma SplittingInWindow(shares: seq<Share>, i: nat, pieces: seq<Share>, miner: Address, distributable: int)
    requires i < |shares| && pieces != [] && SumReal(shares, Difficulty()) > 0.0
    requires forall k :: 0 <= k < |pieces| ==> pieces[k].minerAddress == shares[i].minerAddress
    requires SumReal(pieces, Difficulty()) == shares[i].difficulty
    ensures var total := SumReal(shares, Difficulty());
            && SumReal(Cut(shares, i, pieces), Difficulty()) == total
            && var before := MinerTotal(shares, miner, distributable, total);
               var after := MinerTotal(Cut(shares, i, pieces), miner, distributable, total);
               if miner == shares[i].minerAddress then before - (|pieces| - 1) <= after <= before else after == before
  {
    var total := SumReal(shares, Difficulty());
    var f := AmountsOf(miner, distributable, total);
    var whole := [shares[i]];
    assert shares == shares[..i] + whole + shares[i + 1..];
    SumsOfConcat(shares[..i], whole, f, Difficulty());
    SumsOfConcat(shares[..i] + whole, shares[i + 1..], f, Difficulty());
    SumsOfConcat(shares[..i], pieces, f, Difficulty());
    SumsOfConcat(shares[..i] + pieces, shares[i + 1..], f, Difficulty());
    assert SumInt(whole, f) == f(shares[i]) && SumReal(whole, Difficulty()) == shares[i].difficulty by {
      assert whole[..0] == [];
    }
    if miner == shares[i].minerAddress {
      SplittingNeverPays(shares[i], pieces, distributable, total);
    } else {
      NothingForOthers(pieces, miner, distributable, total);
    }
  }

  lemma {:induction false} NothingForOthers(shares: seq<Share>, miner: Address, distributable: int, total: real)
    requires total > 0.0 && forall k :: 0 <= k < |shares| ==> shares[k].minerAddress != miner
    ensures MinerTotal(shares, miner, distributable, total) == 0
  {
    if shares != [] { NothingForOthers(shares[..|shares| - 1], miner, distributable, total); }
  }

  // ---------- the service ----------

  function SumKeys(miners: seq<Address>, amount: Address -> int): int {
    if miners == [] then 0 else SumKeys(miners[..|miners| - 1], amount) + amount(miners[|miners| - 1])
  }

  ghost predicate Distinct(miners: seq<Address>) {
    forall i, j :: 0 <= i < j < |miners| ==> miners[i] != miners[j]
  }

  lemma {:induction false} SumKeysRaised(miners: seq<Address>, f: Address -> int, g: Address -> int, m: Address, raise: int)
    requires Distinct(miners) && forall k :: g(k) == f(k) + if k == m then raise else 0
    ensures SumKeys(miners, g) == SumKeys(miners, f) + if m in miners then raise else 0
  {
    if miners != [] {
      var n := |miners| - 1;
      SumKeysRaised(miners[..n], f, g, m, raise);
      assert miners == miners[..n] + [miners[n]];
    }
  }

  function TotalsOf(shares: seq<Share>, distributable: int, total: real): Address -> int
    requires total > 0.0
  {
    (m: Address) => MinerTotal(shares, m, distributable, total)
  }

  /** Adding up per miner is adding up per share. */
  lemma {:induction false} PerMinerIsPerShare(shares: seq<Share>, miners: seq<Address>, distributable: int, total: real)
    requires total > 0.0 && Distinct(miners) && forall i :: 0 <= i < |shares| ==> shares[i].minerAddress in miners
    ensures SumKeys(miners, TotalsOf(shares, distributable, total)) == SumInt(shares, Amounts(distributable, total))
  {
    if shares == [] {
      AllZero(miners, TotalsOf(shares, distributable, total));
    } else {
      var front, last := shares[..|shares| - 1], shares[|shares| - 1];
      PerMinerIsPerShare(front, miners, distributable, total);
      SumKeysRaised(miners, TotalsOf(front, distributable, total), TotalsOf(shares, distributable, total),
                    last.minerAddress, AmountOf(last, distributable, total));
    }
  }

  lemma {:induction false} AllZero(miners: seq<Address>, f: Address -> int)
    requires forall m :: f(m) == 0
    ensures SumKeys(miners, f) == 0
  {
    if miners != [] { AllZero(miners[..|miners| - 1], f); }
  }

  lemma {:induction false} AmountsNotNegative(shares: seq<Share>, miner: Address, distributable: int, total: real)
    requires total > 0.0 && distributable >= 0 && forall i :: 0 <= i < |shares| ==> shares[i].difficulty >= 0.0
    ensures MinerTotal(shares, miner, distributable, total) >= 0
  {
    if shares != [] {
      AmountsNotNegative(shares[..|shares| - 1], miner, distributable, total);
      assert shares[|shares| - 1].difficulty / total >= 0.0;
    }
  }

  /** The rows a block adds: one per miner with a positive amount, holding exactly that miner's total. */
  ghost predicate CreditsBlock(before: seq<Row>, after: seq<Row>, shares: seq<Share>, height: int, distributable: int,
                               total: real)
    requires total > 0.0
  {
    && before <= after
    && (forall j :: |before| <= j < |after| ==>
          && after[j].status == PENDING && after[j].height == height
          && after[j].amount == MinerTotal(shares, after[j].miner, distributable, total) > 0)
    && (forall j, k :: |before| <= j < k < |after| ==> after[j].miner != after[k].miner)
    && (forall i :: 0 <= i < |shares| && MinerTotal(shares, shares[i].minerAddress, distributable, total) > 0 ==>
          exists j :: |before| <= j < |after| && after[j].miner == shares[i].minerAddress)
  }

  /** Everything a reward can end up in. */
  datatype Books = Books(rows: seq<Row>, nextId: nat, fee: int, dust: int)

  /** Every lep of the reward is in the ledger, the fee total or the dust total. */
  ghost predicate Conserved(before: Books, after: Books, reward: int) {
    Sum(after.rows, Any) + after.fee + after.dust == Sum(before.rows, Any) + before.fee + before.dust + reward
  }

  /** Without difficulty in the window nobody is credited and no fee is taken; otherwise fee, credits and bounded dust. */
  ghost predicate Booked(before: Books, after: Books, shares: seq<Share>, height: int, reward: int, distributable: int) {
    var total := SumReal(shares, Difficulty());
    if total <= 0.0 then after.rows == before.rows && after.fee == before.fee
    else
      && CreditsBlock(before.rows, after.rows, shares, height, distributable, total)
      && after.fee == before.fee + reward - distributable
      && (distributable >= 0 && (forall i :: 0 <= i < |shares| ==> shares[i].difficulty >= 0.0) ==>
            0 <= after.dust - before.dust < |shares|)
  }

  /** One call writes the miners' totals in some order, and the rest of the distributable reward is dust. */
  ghost predicate Written(before: Books, after: Books, order: seq<Address>, totals: map<Address, int>, height: int,
                          reward: int, distributable: int)
  {
    && (forall m :: m in order ==> m in totals)
    && var credits := Credits(order, totals, before.nextId, height);
       && after.rows == before.rows + credits && after.nextId == before.nextId + |credits|
       && after.fee == before.fee + reward - distributable
       && after.dust == before.dust + distributable - Sum(credits, Any)
  }

  /** What is not fee: without difficulty in the window, everything. */
  function NotFee(shares: seq<Share>, reward: int, distributable: int): int {
    if SumReal(shares, Difficulty()) <= 0.0 then reward else distributable
  }

  /** The credits written for miners in a given order. */
  function Credits(order: seq<Address>, totals: map<Address, int>, nextId: nat, height: int): seq<Row>
    requires forall m :: m in order ==> m in totals
  {
    if order == [] then []
    else
      var m := order[|order| - 1];
      var front := Credits(order[..|order| - 1], totals, nextId, height);
      if totals[m] > 0 then front + [Row(nextId + |front|, m, height, totals[m], PENDING, None)] else front
  }

  lemma NextCredit(order: seq<Address>, i: nat, totals: map<Address, int>, nextId: nat, height: int)
    requires i < |order| && forall m :: m in order ==> m in totals
    ensures var amount, front := totals[order[i]], Credits(order[..i], totals, nextId, height);
            var more := Credits(order[..i + 1], totals, nextId, height);
            && more == (if amount > 0 then front + [Row(nextId + |front|, order[i], height, amount, PENDING, None)] else front)
            && Sum(more, Any) == Sum(front, Any) + if amount > 0 then amount else 0
  {
    assert order[..i + 1][..i] == order[..i];
    var front := Credits(order[..i], totals, nextId, height);
    SumAppend(front, Row(nextId + |front|, order[i], height, totals[order[i]], PENDING, None), Any);
  }

  function Positive(totals: map<Address, int>): Address -> int {
    (m: Address) => if m in totals && totals[m] > 0 then totals[m] else 0
  }

  lemma {:induction false} CreditsSum(order: seq<Address>, totals: map<Address, int>, nextId: nat, height: int)
    requires forall m :: m in order ==> m in totals
    ensures Sum(Credits(order, totals, nextId, height), Any) == SumKeys(order, Positive(totals))
  {
    if order != [] {
      var n := |order| - 1;
      var front := Credits(order[..n], totals, nextId, height);
      CreditsSum(order[..n], totals, nextId, height);
      SumAppend(front, Row(nextId + |front|, order[n], height, totals[order[n]], PENDING, None), Any);
    }
  }

  ghost predicate AreTotals(rows: seq<Row>, order: seq<Address>, totals: map<Address, int>, height: int) {
    && (forall j :: 0 <= j < |rows| ==>
          && rows[j].miner in order && rows[j].miner in totals && rows[j].amount == totals[rows[j].miner]
          && rows[j].amount > 0 && rows[j].status == PENDING && rows[j].height == height)
    && (forall j, k :: 0 <= j < k < |rows| ==> rows[j].miner != rows[k].miner)
  }

  lemma {:induction false} CreditsAreTotals(order: seq<Address>, totals: map<Address, int>, nextId: nat, height: int)
    requires Distinct(order) && forall m :: m in order ==> m in totals
    ensures AreTotals(Credits(order, totals, nextId, height), order, totals, height)
  {
    if order != [] {
      var n := |order| - 1;
      var front := Credits(order[..n], totals, nextId, height);
      CreditsAreTotals(order[..n], totals, nextId, height);
      forall j | 0 <= j < |front| ensures front[j].miner in order && front[j].miner != order[n] {
        assert front[j].miner in order[..n];
      }
    }
  }

  lemma {:induction false} CreditsAreComplete(order: seq<Address>, totals: map<Address, int>, nextId: nat, height: int,
                                              m: Address)
    requires (forall k :: k in order ==> k in totals) && m in order && totals[m] > 0
    ensures exists j :: 0 <= j < |Credits(order, totals, nextId, height)|
                     && Credits(order, totals, nextId, height)[j].miner == m
  {
    var n := |order| - 1;
    var front := Credits(order[..n], totals, nextId, height);
    if m == order[n] {
      assert Credits(order, totals, nextId, height)[|front|].miner == m;
    } else {
      assert order == order[..n] + [order[n]];
      CreditsAreComplete(order[..n], totals, nextId, height, m);
      var j :| 0 <= j < |front| && front[j].miner == m;
      assert Credits(order, totals, nextId, height)[j] == front[j];
    }
  }

  /** Credits written from the per-miner totals are the block's credits. */
  lemma BlockIsCredited(before: seq<Row>, shares: seq<Share>, order: seq<Address>, totals: map<Address, int>, nextId: nat,
                        height: int, distributable: int, total: real)
    requires total > 0.0 && Distinct(order) && (forall i :: 0 <= i < |shares| ==> shares[i].minerAddress in order)
    requires forall m :: m in order ==> m in totals
    requires forall m :: m in totals ==> totals[m] == MinerTotal(shares, m, distributable, total)
    ensures CreditsBlock(before, before + Credits(order, totals, nextId, height), shares, height, distributable, total)
  {
    var rows := Credits(order, totals, nextId, height);
    CreditsAreTotals(order, totals, nextId, height);
    forall i | 0 <= i < |shares| && MinerTotal(shares, shares[i].minerAddress, distributable, total) > 0
      ensures exists j :: |before| <= j < |before + rows| && (before + rows)[j].miner == shares[i].minerAddress
    {
      CreditsAreComplete(order, totals, nextId, height, shares[i].minerAddress);
      var j :| 0 <= j < |rows| && rows[j].miner == shares[i].minerAddress;
      assert (before + rows)[|before| + j] == rows[j];
    }
  }

  /** What is left of the reward after the fee. */
  function AfterFee(blockRewardSats: int, feePercent: real): int {
    (blockRewardSats as real * (1.0 - feePercent / 100.0)).Floor
  }

  /** The fee is the exact percentage, rounded up to whole lep, and never more than the reward. */
  lemma FeeIsRoundedUp(blockRewardSats: int, feePercent: real)
    requires 0.0 <= feePercent < 100.0 && blockRewardSats >= 0
    ensures var fee := blockRewardSats - AfterFee(blockRewardSats, feePercent);
            var exact := blockRewardSats as real * (feePercent / 100.0);
            && exact <= fee as real < exact + 1.0
            && 0 <= fee <= blockRewardSats
  {
    var share := 1.0 - feePercent / 100.0;
    assert blockRewardSats as real * share == blockRewardSats as real - blockRewardSats as real * (feePercent / 100.0);
    assert 0.0 < share <= 1.0;
    ProductNotNegative(blockRewardSats as real, feePercent / 100.0);
    ProductNotNegative(blockRewardSats as real, share);
  }

  lemma ProductNotNegative(a: real, b: real)
    requires a >= 0.0 && b >= 0.0
    ensures a * b >= 0.0
  {
  }

  class RewardCalculatorService {
    const shareLog: PplnsShareLogService
    const payoutLedger: PayoutLedgerService
    const poolAccounting: PoolAccountingService
    const windowMinutes: int
    const feePercent: real

    ghost predicate Valid()
      reads this, payoutLedger
    {
      payoutLedger.Valid() && 0.0 <= feePercent < 100.0
    }

    /** A configured fee outside [0, 100) counts as the default, zero. */
    constructor (log: PplnsShareLogService, ledger: PayoutLedgerService, accounting: PoolAccountingService,
                 windowMinutes: int, configuredFeePercent: real)
      requires ledger.Valid()
      ensures Valid() && shareLog == log && payoutLedger == ledger && poolAccounting == accounting
      ensures this.windowMinutes == windowMinutes
      ensures feePercent == configuredFeePercent || (feePercent == 0.0 && !(0.0 <= configuredFeePercent < 100.0))
    {
      shareLog, payoutLedger, poolAccounting, this.windowMinutes := log, ledger, accounting, windowMinutes;
      feePercent := if 0.0 <= configuredFeePercent < 100.0 then configuredFeePercent else 0.0;
    }

    function Distributable(blockRewardSats: int): int {
      AfterFee(blockRewardSats, feePercent)
    }

    /** The per-miner totals, with the miners in the order in which the loop first meets them. */
    method PerMinerTotals(shares: seq<Share>, distributable: int, totalDifficulty: real)
      returns (totals: map<Address, int>, order: seq<Address>)
      requires totalDifficulty > 0.0
      ensures Distinct(order) && (forall i :: 0 <= i < |shares| ==> shares[i].minerAddress in order)
      ensures forall m :: m in order <==> m in totals
      ensures forall m :: m in totals ==> totals[m] == MinerTotal(shares, m, distributable, totalDifficulty)
      ensures forall m :: m !in totals ==> MinerTotal(shares, m, distributable, totalDifficulty) == 0
    {
      totals, order := map[], [];
      for i := 0 to |shares|
        invariant Distinct(order) && (forall j :: 0 <= j < i ==> shares[j].minerAddress in order)
        invariant forall m :: m in order <==> m in totals
        invariant forall m :: m in totals ==> totals[m] == MinerTotal(shares[..i], m, distributable, totalDifficulty)
        invariant forall m :: m !in totals ==> MinerTotal(shares[..i], m, distributable, totalDifficulty) == 0
      {
        var share := shares[i];
        var amount := AmountOf(share, distributable, totalDifficulty);
        assert shares[..i + 1][..i] == shares[..i];
        if share.minerAddress !in totals {
          order := order + [share.minerAddress];
        }
        totals := totals[share.minerAddress :=
                         (if share.minerAddress in totals then totals[share.minerAddress] else 0) + amount];
      }
      assert shares[..|shares|] == shares;
    }

    /** Writes one credit per miner with a positive total. */
    method CreditMiners(totals: map<Address, int>, order: seq<Address>, blockHeight: int) returns (allocatedSats: int)
      requires payoutLedger.Valid() && forall m :: m in order ==> m in totals
      modifies payoutLedger
      ensures payoutLedger.Valid()
      ensures payoutLedger.rows == old(payoutLedger.rows) + Credits(order, totals, old(payoutLedger.nextId), blockHeight)
      ensures allocatedSats == Sum(Credits(order, totals, old(payoutLedger.nextId), blockHeight), Any)
      ensures payoutLedger.nextId == old(payoutLedger.nextId) + |Credits(order, totals, old(payoutLedger.nextId), blockHeight)|
    {
      allocatedSats := 0;
      ghost var before, nextId := payoutLedger.rows, payoutLedger.nextId;
      for i := 0 to |order|
        invariant payoutLedger.Valid()
        invariant payoutLedger.rows == before + Credits(order[..i], totals, nextId, blockHeight)
        invariant payoutLedger.nextId == nextId + |Credits(order[..i], totals, nextId, blockHeight)|
        invariant allocatedSats == Sum(Credits(order[..i], totals, nextId, blockHeight), Any)
      {
        var amount := totals[order[i]];
        NextCredit(order, i, totals, nextId, blockHeight);
        if amount > 0 {
          payoutLedger.Credit(order[i], amount, blockHeight);
          allocatedSats := allocatedSats + amount;
        }
      }
      assert order[..|order|] == order;
    }

    method Total(shares: seq<Share>) returns (totalDifficulty: real)
      ensures totalDifficulty == SumReal(shares, Difficulty())
    {
      totalDifficulty := 0.0;
      for i := 0 to |shares|
        invariant totalDifficulty == SumReal(shares[..i], Difficulty())
      {
        assert shares[..i + 1][..i] == shares[..i];
        totalDifficulty := totalDifficulty + shares[i].difficulty;
      }
      assert shares[..|shares|] == shares;
    }

    function AllBooks(): Books
      reads payoutLedger, poolAccounting
    {
      Books(payoutLedger.rows, payoutLedger.nextId, poolAccounting.TotalFeeSats(), poolAccounting.TotalDustSats())
    }

    /**
     * Splits the reward over the logged shares of the last `windowMinutes` minutes. `counted`, `order` and
     * `totals` record these shares and what was written for whom.
     */
    method ProcessBlockFound(blockHeight: int, blockRewardSats: int, now: int)
      returns (ghost counted: seq<Share>, ghost order: seq<Address>, ghost totals: map<Address, int>)
      requires Valid()
      modifies payoutLedger, poolAccounting
      ensures Valid()
      // a share counts, as often as it was logged, exactly when it is at most the window old
      ensures forall s: Share :: multiset(counted)[s] ==
                          if s.timestamp + windowMinutes * 60000 >= now then multiset(shareLog.log)[s] else 0
      ensures Conserved(old(AllBooks()), AllBooks(), blockRewardSats)
      ensures Booked(old(AllBooks()), AllBooks(), counted, blockHeight, blockRewardSats, Distributable(blockRewardSats))
      ensures Written(old(AllBooks()), AllBooks(), order, totals, blockHeight, blockRewardSats,
                      NotFee(counted, blockRewardSats, Distributable(blockRewardSats)))
      // the fee is the configured percentage, rounded up, and none is taken from a window without difficulty
      ensures blockRewardSats >= 0 ==>
                var fee := (AllBooks().fee - old(AllBooks()).fee) as real;
                if SumReal(counted, Difficulty()) <= 0.0 then fee == 0.0
                else blockRewardSats as real * feePercent / 100.0 <= fee < blockRewardSats as real * feePercent / 100.0 + 1.0
    {
      var windowStart := now - windowMinutes * 60 * 1000;
      var shares := shareLog.GetSharesInWindow(windowStart);
      forall s: Share
        ensures multiset(shares)[s] == if s.timestamp + windowMinutes * 60000 >= now then multiset(shareLog.log)[s] else 0
      {
        SinceExactly(shareLog.log, windowStart, s);
      }
      assert AllBooks() == old(AllBooks());
      counted := shares;
      order, totals := SplitOver(blockHeight, blockRewardSats, shares);
      if blockRewardSats >= 0 {
        FeeIsRoundedUp(blockRewardSats, feePercent);
        ProductFirst(blockRewardSats as real, feePercent, 100.0);
      }
    }

    /** The part of `processBlockFound` after the query. */
    method SplitOver(blockHeight: int, blockRewardSats: int, shares: seq<Share>)
      returns (ghost order: seq<Address>, ghost totals: map<Address, int>)
      requires Valid()
      modifies payoutLedger, poolAccounting
      ensures Valid()
      ensures Conserved(old(AllBooks()), AllBooks(), blockRewardSats)
      ensures Booked(old(AllBooks()), AllBooks(), shares, blockHeight, blockRewardSats, Distributable(blockRewardSats))
      ensures Written(old(AllBooks()), AllBooks(), order, totals, blockHeight, blockRewardSats,
                      NotFee(shares, blockRewardSats, Distributable(blockRewardSats)))
    {
      var totalDifficulty := Total(shares);
      if totalDifficulty <= 0.0 {
        poolAccounting.AddFeeAndDust(0, blockRewardSats);
        return [], map[];
      }
      var distributable := Distributable(blockRewardSats);
      var perMinerTotals, miners := PerMinerTotals(shares, distributable, totalDifficulty);
      WriteCredits(blockHeight, blockRewardSats, distributable, perMinerTotals, miners);
      order, totals := miners, perMinerTotals;
      WrittenConserves(old(AllBooks()), AllBooks(), order, totals, blockHeight, blockRewardSats, distributable);
      WrittenIsBooked(old(AllBooks()), AllBooks(), shares, order, totals, blockHeight, blockRewardSats, distributable);
    }

    /** The fee, the credits and the dust. */
    method WriteCredits(blockHeight: int, blockRewardSats: int, distributable: int, perMinerTotals: map<Address, int>,
                        miners: seq<Address>)
      requires Valid() && forall m :: m in miners ==> m in perMinerTotals
      modifies payoutLedger, poolAccounting
      ensures Valid()
      ensures Written(old(AllBooks()), AllBooks(), miners, perMinerTotals, blockHeight, blockRewardSats, distributable)
    {
      var feeSats := blockRewardSats - distributable;
      var allocatedSats := CreditMiners(perMinerTotals, miners, blockHeight);
      var dustSats := distributable - allocatedSats;
      poolAccounting.AddFeeAndDust(feeSats, dustSats);
    }
  }

  lemma WrittenConserves(before: Books, after: Books, order: seq<Address>, totals: map<Address, int>, height: int,
                         reward: int, distributable: int)
    requires Written(before, after, order, totals, height, reward, distributable)
    ensures Conserved(before, after, reward)
  {
    SumConcat(before.rows, Credits(order, totals, before.nextId, height), Any);
  }

  /** What follows from having written the miners' totals. */
  lemma WrittenIsBooked(before: Books, after: Books, shares: seq<Share>, order: seq<Address>, totals: map<Address, int>,
                        height: int, reward: int, distributable: int)
    requires SumReal(shares, Difficulty()) > 0.0
    requires Distinct(order) && forall i :: 0 <= i < |shares| ==> shares[i].minerAddress in order
    requires forall m :: m in totals ==> totals[m] == MinerTotal(shares, m, distributable, SumReal(shares, Difficulty()))
    requires forall m :: m !in totals ==> MinerTotal(shares, m, distributable, SumReal(shares, Difficulty())) == 0
    requires Written(before, after, order, totals, height, reward, distributable)
    ensures Booked(before, after, shares, height, reward, distributable)
  {
    BlockIsCredited(before.rows, shares, order, totals, before.nextId, height, distributable, SumReal(shares, Difficulty()));
    WrittenDust(before, after, shares, order, totals, height, reward, distributable);
  }

  lemma WrittenDust(before: Books, after: Books, shares: seq<Share>, order: seq<Address>, totals: map<Address, int>,
                    height: int, reward: int, distributable: int)
    requires SumReal(shares, Difficulty()) > 0.0
    requires Distinct(order) && forall i :: 0 <= i < |shares| ==> shares[i].minerAddress in order
    requires forall m :: m in totals ==> totals[m] == MinerTotal(shares, m, distributable, SumReal(shares, Difficulty()))
    requires forall m :: m !in totals ==> MinerTotal(shares, m, distributable, SumReal(shares, Difficulty())) == 0
    requires Written(before, after, order, totals, height, reward, distributable)
    ensures distributable >= 0 && (forall i :: 0 <= i < |shares| ==> shares[i].difficulty >= 0.0) ==>
              0 <= after.dust - before.dust < |shares|
  {
    if distributable >= 0 && forall i :: 0 <= i < |shares| ==> shares[i].difficulty >= 0.0 {
      CreditsSum(order, totals, before.nextId, height);
      AllocatedIsFloors(shares, totals, order, distributable, SumReal(shares, Difficulty()));
      DustBounds(shares, distributable);
    }
  }

  /** With no negative difficulty the skipped totals are zero, so nothing but the floors is lost. */
  lemma AllocatedIsFloors(shares: seq<Share>, totals: map<Address, int>, order: seq<Address>, distributable: int, total: real)
    requires total > 0.0 && distributable >= 0 && forall i :: 0 <= i < |shares| ==> shares[i].difficulty >= 0.0
    requires Distinct(order) && forall i :: 0 <= i < |shares| ==> shares[i].minerAddress in order
    requires forall m :: m in totals ==> totals[m] == MinerTotal(shares, m, distributable, total)
    requires forall m :: m !in totals ==> MinerTotal(shares, m, distributable, total) == 0
    ensures SumKeys(order, Positive(totals)) == SumInt(shares, Amounts(distributable, total))
  {
    forall m ensures Positive(totals)(m) == TotalsOf(shares, distributable, total)(m) {
      AmountsNotNegative(shares, m, distributable, total);
    }
    SumKeysRaised(order, TotalsOf(shares, distributable, total), Positive(totals), "", 0);
    PerMinerIsPerShare(shares, order, distributable, total);
  }
}
