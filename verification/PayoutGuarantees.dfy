/** What holds in every reachable state of the money pipeline. */
module PayoutGuarantees {
  import opened Options
  import opened Ledger
  import opened PayoutRuns

  lemma ReachableInv(events: seq<Event>)
    ensures Inv(Run(INIT, events))
  {
    RunKeepsInv(INIT, events);
  }

  // ---------- rows only move forward ----------

  /** Credit data is fixed; the status goes PENDING, SENT, CONFIRMED and a txid, once set, stays. */
  predicate Forward(a: Row, b: Row) {
    && SameCredit(a, b)
    && (a.status != PENDING ==> b.status != PENDING && b.txid == a.txid)
    && (a.status == CONFIRMED ==> b.status == CONFIRMED)
    && (b.status == PENDING <==> b.txid == None)
  }

  /** One event moves a status by at most one, and only a mark or a confirmation moves it. */
  predicate Moved(a: Row, b: Row, e: Event) {
    && Forward(a, b)
    && (a.status != b.status ==>
          || (a.status == PENDING && b.status == SENT && e.Marked?)
          || (a.status == SENT && b.status == CONFIRMED && e.Confirmed?))
  }

  lemma StepMovesForward(w: World, e: Event)
    requires ValidTable(w.rows, w.nextId)
    ensures |w.rows| <= |Step(w, e).rows|
    ensures forall i :: 0 <= i < |w.rows| ==> Moved(w.rows[i], Step(w, e).rows[i], e)
  {
    forall i | 0 <= i < |w.rows| ensures Moved(w.rows[i], Step(w, e).rows[i], e) {
      assert ValidRow(w.rows[i]);
      if e.Marked? && w.phase.Marking? && e.miner in w.phase.batch.cycle.cands {
        assert Step(w, e).rows == MarkStep(w, e.miner).rows;
      } else if e.Confirmed? {
        assert Step(w, e).rows == Confirm(w.rows, e.txid);
      } else {
        assert Step(w, e).rows[i] == w.rows[i];
      }
    }
  }

  lemma {:induction false} RunMovesForward(w: World, events: seq<Event>)
    requires Inv(w)
    ensures |w.rows| <= |Run(w, events).rows|
    ensures forall i :: 0 <= i < |w.rows| ==> Forward(w.rows[i], Run(w, events).rows[i])
  {
    if events == [] {
      assert forall i :: 0 <= i < |w.rows| ==> ValidRow(w.rows[i]);
    } else {
      var before := Run(w, events[..|events| - 1]);
      RunKeepsInv(w, events[..|events| - 1]);
      RunMovesForward(w, events[..|events| - 1]);
      StepMovesForward(before, events[|events| - 1]);
    }
  }

  // ---------- amounts sent and rows marked ----------

  function PaidBy(txid: Txid, miner: Address): Row -> bool {
    (r: Row) => r.txid == Some(txid) && r.miner == miner
  }

  function PendingUpTo(miner: Address, cutoff: nat): Row -> bool {
    (r: Row) => r.status == PENDING && r.miner == miner && r.id <= cutoff
  }

  /** A row that the cutoff takes although the snapshot did not count it: its block has not matured. */
  function ImmatureUpTo(miner: Address, cutoff: nat, mature: int): Row -> bool {
    (r: Row) => r.status == PENDING && r.miner == miner && r.id <= cutoff && r.height > mature
  }

  /** Checkable when the cycle starts: below the miner's cutoff there is no pending row of an immature block. */
  predicate CutoffSafe(c: CycleData, miner: Address)
    requires miner in c.cands
  {
    forall i :: 0 <= i < |c.snap| ==> !ImmatureUpTo(miner, c.cands[miner].maxRowId, c.mature)(c.snap[i])
  }

  /** A fully marked batch as the table shows it. */
  ghost predicate Settled(rows: seq<Row>, nextId: nat, p: Payment) {
    ValidTable(rows, nextId) && PaymentOk(rows, p) && Complete(p)
  }

  lemma ClaimedSum(rows: seq<Row>, nextId: nat, p: Payment, miner: Address)
    requires Settled(rows, nextId, p) && miner in p.cycle.cands
    ensures Sum(rows, PaidBy(p.txid, miner)) == Sum(p.cycle.snap, PendingUpTo(miner, p.cycle.cands[miner].maxRowId))
  {
    assert forall i :: 0 <= i < |rows| ==> PaidRowFact(rows, p, miner, i);
    SumOfPaid(rows, p, miner);
  }

  /** Which rows the batch paid its miner with, told from the snapshot alone. */
  predicate PaidRowFact(rows: seq<Row>, p: Payment, miner: Address, i: nat)
    requires miner in p.cycle.cands && i < |rows|
  {
    var snap := p.cycle.snap;
    if i >= |snap| then !PaidBy(p.txid, miner)(rows[i])
    else rows[i].amount == snap[i].amount
         && PaidBy(p.txid, miner)(rows[i]) == PendingUpTo(miner, p.cycle.cands[miner].maxRowId)(snap[i])
  }

  lemma SumOfPaid(rows: seq<Row>, p: Payment, miner: Address)
    requires miner in p.cycle.cands && |p.cycle.snap| <= |rows|
    requires forall i :: 0 <= i < |rows| ==> PaidRowFact(rows, p, miner, i)
    ensures Sum(rows, PaidBy(p.txid, miner)) == Sum(p.cycle.snap, PendingUpTo(miner, p.cycle.cands[miner].maxRowId))
  {
    var n := |p.cycle.snap|;
    var front, back := rows[..n], rows[n..];
    assert rows == front + back;
    SumConcat(front, back, PaidBy(p.txid, miner));
    forall i | 0 <= i < |back| ensures !PaidBy(p.txid, miner)(back[i]) { assert PaidRowFact(rows, p, miner, n + i); }
    SumNothing(back, PaidBy(p.txid, miner));
    assert forall i :: 0 <= i < n ==> PaidRowFact(rows, p, miner, i) && front[i] == rows[i];
    SumCongruent(front, PaidBy(p.txid, miner), p.cycle.snap, PendingUpTo(miner, p.cycle.cands[miner].maxRowId));
  }

  lemma SnapshotSplit(c: Cycle, miner: Address)
    requires miner in c.cands
    ensures Sum(c.snap, PendingUpTo(miner, c.cands[miner].maxRowId))
         == c.cands[miner].total + Sum(c.snap, ImmatureUpTo(miner, c.cands[miner].maxRowId, c.mature))
  {
    var cutoff := c.cands[miner].maxRowId;
    var all, counted := PendingUpTo(miner, cutoff), MaturePendingOf(miner, c.mature);
    var extra := ImmatureUpTo(miner, cutoff, c.mature);
    forall i | 0 <= i < |c.snap|
      ensures !(counted(c.snap[i]) && extra(c.snap[i]))
      ensures all(c.snap[i]) <==> counted(c.snap[i]) || extra(c.snap[i])
    {
      if counted(c.snap[i]) { SnapshotCutoff(c.snap, c.mature, i); }
    }
    SumSplit(c.snap, all, counted, extra);
    SnapshotSum(c.snap, c.mature, miner);
  }

  /**
   * Once a batch is marked, its miner's rows sum to the amount sent plus whatever immature rows the
   * cutoff swept along, so the two agree exactly when the cutoff was safe, and never fall short.
   */
  lemma RowsAgreeWithAmountIff(rows: seq<Row>, nextId: nat, p: Payment, miner: Address)
    requires Settled(rows, nextId, p) && miner in p.cycle.cands
    ensures var paid := Sum(rows, PaidBy(p.txid, miner));
            && paid >= p.cycle.cands[miner].total
            && (paid == p.cycle.cands[miner].total <==> CutoffSafe(p.cycle, miner))
  {
    var c := p.cycle;
    ClaimedSum(rows, nextId, p, miner);
    SnapshotSplit(c, miner);
    forall i | 0 <= i < |c.snap| ensures c.snap[i].amount > 0 {
      assert SameCredit(c.snap[i], rows[i]) && ValidRow(rows[i]);
    }
    SumPositive(c.snap, ImmatureUpTo(miner, c.cands[miner].maxRowId, c.mature));
  }

  /** No row of anybody else carries the batch's txid. */
  lemma OnlyCandidatesArePaid(w: World, k: nat, i: nat)
    requires Inv(w) && k < |w.payments| && i < |w.rows| && w.rows[i].txid == Some(w.payments[k].txid)
    ensures w.rows[i].miner in w.payments[k].cycle.cands
  {
    assert PaymentOk(w.rows, w.payments[k]);
  }

  /** Per miner, later rows never have lower block heights. */
  ghost predicate HeightsInOrder(rows: seq<Row>) {
    forall i, j :: 0 <= i < j < |rows| && rows[i].miner == rows[j].miner ==> rows[i].height <= rows[j].height
  }

  lemma OrderedHeightsMakeCutoffSafe(rows: seq<Row>, nextId: nat, p: Payment, miner: Address)
    requires ValidTable(rows, nextId) && Extends(rows, p.cycle.snap) && miner in p.cycle.cands
    requires HeightsInOrder(rows)
    ensures CutoffSafe(p.cycle, miner)
  {
    var c := p.cycle;
    var j := SnapshotWitness(c.snap, c.mature, miner);
    forall i | 0 <= i < |c.snap|
      ensures !ImmatureUpTo(miner, c.cands[miner].maxRowId, c.mature)(c.snap[i])
    {
      assert SameCredit(c.snap[i], rows[i]) && SameCredit(c.snap[j], rows[j]);
      if i > j { assert rows[j].id < rows[i].id; }
    }
  }

  /** If this event writes a credit, its miner has no credit of a higher block yet. */
  ghost predicate WritesInOrder(w: World, e: Event) {
    e.Credited? && e.block < |w.blocks| && w.blocks[e.block].rest != [] && !w.blocks[e.block].finished
    && w.blocks[e.block].rest[0].amount > 0 ==>
      forall i :: 0 <= i < |w.rows| && w.rows[i].miner == w.blocks[e.block].rest[0].miner ==>
        w.rows[i].height <= w.blocks[e.block].height
  }

  lemma StepKeepsHeightsIff(w: World, e: Event)
    requires ValidTable(w.rows, w.nextId)
    ensures HeightsInOrder(Step(w, e).rows) <==> HeightsInOrder(w.rows) && WritesInOrder(w, e)
  {
    StepMovesForward(w, e);
    var rows := Step(w, e).rows;
    if HeightsInOrder(rows) {
      forall i, j | 0 <= i < j < |w.rows| && w.rows[i].miner == w.rows[j].miner ensures w.rows[i].height <= w.rows[j].height {
        assert Moved(w.rows[i], rows[i], e) && Moved(w.rows[j], rows[j], e);
      }
    }
    if |rows| == |w.rows| {
      forall i, j | HeightsInOrder(w.rows) && 0 <= i < j < |rows| && rows[i].miner == rows[j].miner
        ensures rows[i].height <= rows[j].height
      {
        assert Moved(w.rows[i], rows[i], e) && Moved(w.rows[j], rows[j], e);
      }
    } else {
      assert e.Credited? && rows == CreditStep(w, e.block).rows;
      assert rows[|w.rows|].height == w.blocks[e.block].height;
      if HeightsInOrder(rows) {
        forall i | 0 <= i < |w.rows| && w.rows[i].miner == w.blocks[e.block].rest[0].miner
          ensures w.rows[i].height <= w.blocks[e.block].height
        {
          assert rows[i] == w.rows[i];
        }
      }
    }
  }

  ghost predicate InOrderAt(events: seq<Event>, k: nat)
    requires k < |events|
  {
    WritesInOrder(Run(INIT, events[..k]), events[k])
  }

  ghost predicate AllInOrder(events: seq<Event>) {
    forall k :: 0 <= k < |events| ==> InOrderAt(events, k)
  }

  lemma AllInOrderButLast(events: seq<Event>)
    requires events != []
    ensures var n := |events| - 1;
            AllInOrder(events) <==> AllInOrder(events[..n]) && WritesInOrder(Run(INIT, events[..n]), events[n])
  {
    var n := |events| - 1;
    forall k | 0 <= k < n ensures InOrderAt(events[..n], k) == InOrderAt(events, k) {
      assert events[..n][..k] == events[..k];
    }
    assert InOrderAt(events, n) == WritesInOrder(Run(INIT, events[..n]), events[n]);
    if AllInOrder(events[..n]) {
      assert forall k :: 0 <= k < n ==> InOrderAt(events[..n], k);
    }
  }

  /** The heights are in order exactly when every single credit of the run was written in order. */
  lemma {:induction false} HeightsInOrderIff(events: seq<Event>)
    ensures HeightsInOrder(Run(INIT, events).rows) <==> AllInOrder(events)
  {
    if events != [] {
      var front := events[..|events| - 1];
      HeightsInOrderIff(front);
      ReachableInv(front);
      AllInOrderButLast(events);
      HeightsAfterStep(Run(INIT, front), events[|events| - 1]);
    }
  }

  lemma HeightsAfterStep(w: World, e: Event)
    requires Inv(w)
    ensures HeightsInOrder(Step(w, e).rows) <==> HeightsInOrder(w.rows) && WritesInOrder(w, e)
  {
    StepKeepsHeightsIff(w, e);
  }

  /** In every run a batch's rows sum to the amount sent exactly when the cutoff it read was safe. */
  lemma PayoutsAgreeIff(events: seq<Event>, k: nat, miner: Address)
    requires var w := Run(INIT, events); k < |w.payments| && miner in w.payments[k].cycle.cands
    ensures var w := Run(INIT, events);
            Sum(w.rows, PaidBy(w.payments[k].txid, miner)) == w.payments[k].cycle.cands[miner].total
            <==> CutoffSafe(w.payments[k].cycle, miner)
  {
    ReachableInv(events);
    var w := Run(INIT, events);
    assert PaymentOk(w.rows, w.payments[k]);
    RowsAgreeWithAmountIff(w.rows, w.nextId, w.payments[k], miner);
  }

  /**
   * Payout agreement over whole runs: when each miner's credits are written in block order, every batch
   * marks for every miner exactly the amount it sent.
   */
  lemma PayoutsAgree(events: seq<Event>, k: nat, miner: Address)
    requires var w := Run(INIT, events);
             && k < |w.payments| && miner in w.payments[k].cycle.cands
             && HeightsInOrder(w.rows)
    ensures var w := Run(INIT, events);
            Sum(w.rows, PaidBy(w.payments[k].txid, miner)) == w.payments[k].cycle.cands[miner].total
  {
    ReachableInv(events);
    var w := Run(INIT, events);
    assert PaymentOk(w.rows, w.payments[k]);
    OrderedHeightsMakeCutoffSafe(w.rows, w.nextId, w.payments[k], miner);
    PayoutsAgreeIff(events, k, miner);
  }

  /** A row whose amount was part of what the batch sent. */
  predicate CountedIn(p: Payment, i: nat) {
    i < |p.cycle.snap| && IsMaturePending(p.cycle.snap[i], p.cycle.mature) && p.cycle.snap[i].miner in p.cycle.cands
  }

  /** Every counted row ends up with the batch's txid. */
  lemma CountedRowsAreMarked(w: World, k: nat, i: nat)
    requires Inv(w) && k < |w.payments| && CountedIn(w.payments[k], i)
    ensures i < |w.rows| && w.rows[i].status != PENDING && w.rows[i].txid == Some(w.payments[k].txid)
  {
    var p := w.payments[k];
    assert PaymentOk(w.rows, p);
    SnapshotCutoff(p.cycle.snap, p.cycle.mature, i);
    assert ValidRow(w.rows[i]);
  }

  /** No credit is part of two batches, in any run. */
  lemma NoCreditIsPaidTwice(events: seq<Event>, j: nat, k: nat, i: nat)
    requires var w := Run(INIT, events);
             && j < k < |w.payments|
             && CountedIn(w.payments[j], i)
    ensures !CountedIn(Run(INIT, events).payments[k], i)
  {
    var w := Run(INIT, events);
    ReachableInv(events);
    CountedRowsAreMarked(w, j, i);
    if CountedIn(w.payments[k], i) {
      CountedRowsAreMarked(w, k, i);
    }
  }

  // ---------- the sum over all batches ----------

  function PaidByFirst(payments: seq<Payment>, miner: Address): Row -> bool {
    (r: Row) => r.miner == miner && exists k :: 0 <= k < |payments| && r.txid == Some(payments[k].txid)
  }

  function AmountSent(p: Payment, miner: Address): int {
    if miner in p.cycle.cands then p.cycle.cands[miner].total else 0
  }

  function TotalSent(payments: seq<Payment>, miner: Address): int {
    if payments == [] then 0
    else TotalSent(payments[..|payments| - 1], miner) + AmountSent(payments[|payments| - 1], miner)
  }

  /** The batch marked for the miner what it sent. */
  predicate SafeFor(p: Payment, miner: Address) {
    miner in p.cycle.cands ==> CutoffSafe(p.cycle, miner)
  }

  predicate AllSafeFor(payments: seq<Payment>, miner: Address) {
    forall k :: 0 <= k < |payments| ==> SafeFor(payments[k], miner)
  }

  lemma BatchSum(rows: seq<Row>, nextId: nat, p: Payment, miner: Address)
    requires Settled(rows, nextId, p)
    ensures Sum(rows, PaidBy(p.txid, miner)) >= AmountSent(p, miner)
    ensures Sum(rows, PaidBy(p.txid, miner)) == AmountSent(p, miner) <==> SafeFor(p, miner)
  {
    if miner in p.cycle.cands {
      RowsAgreeWithAmountIff(rows, nextId, p, miner);
    } else {
      SumNothing(rows, PaidBy(p.txid, miner));
    }
  }

  /** The last batch adds exactly its own rows: txids are distinct. */
  lemma LastBatchSplits(first: seq<Payment>, last: Payment, miner: Address, r: Row)
    requires forall k :: 0 <= k < |first| ==> first[k].txid != last.txid
    ensures !(PaidByFirst(first, miner)(r) && PaidBy(last.txid, miner)(r))
    ensures PaidByFirst(first + [last], miner)(r) <==> PaidByFirst(first, miner)(r) || PaidBy(last.txid, miner)(r)
  {
    var all := first + [last];
    if PaidByFirst(first, miner)(r) {
      var k :| 0 <= k < |first| && r.txid == Some(first[k].txid);
      assert all[k] == first[k];
    }
    assert all[|first|] == last;
  }

  lemma SumOfLast(rows: seq<Row>, payments: seq<Payment>, miner: Address)
    requires payments != [] && PaymentsOk(rows, payments)
    ensures var n := |payments| - 1;
            Sum(rows, PaidByFirst(payments, miner))
            == Sum(rows, PaidByFirst(payments[..n], miner)) + Sum(rows, PaidBy(payments[n].txid, miner))
  {
    var first, last := payments[..|payments| - 1], payments[|payments| - 1];
    forall i | 0 <= i < |rows|
      ensures !(PaidByFirst(first, miner)(rows[i]) && PaidBy(last.txid, miner)(rows[i]))
      ensures PaidByFirst(first + [last], miner)(rows[i])
         <==> PaidByFirst(first, miner)(rows[i]) || PaidBy(last.txid, miner)(rows[i])
    {
      LastBatchSplits(first, last, miner, rows[i]);
    }
    assert first + [last] == payments;
    SumSplit(rows, PaidByFirst(payments, miner), PaidByFirst(first, miner), PaidBy(last.txid, miner));
  }

  lemma {:induction false} BatchSums(rows: seq<Row>, nextId: nat, payments: seq<Payment>, miner: Address)
    requires ValidTable(rows, nextId) && PaymentsOk(rows, payments)
    ensures Sum(rows, PaidByFirst(payments, miner)) >= TotalSent(payments, miner)
    ensures Sum(rows, PaidByFirst(payments, miner)) == TotalSent(payments, miner) <==> AllSafeFor(payments, miner)
  {
    if payments == [] {
      SumNothing(rows, PaidByFirst(payments, miner));
    } else {
      var n := |payments| - 1;
      BatchSums(rows, nextId, payments[..n], miner);
      BatchSum(rows, nextId, payments[n], miner);
      SumOfLast(rows, payments, miner);
      AllSafeButLast(payments, miner);
    }
  }

  lemma AllSafeButLast(payments: seq<Payment>, miner: Address)
    requires payments != []
    ensures var n := |payments| - 1;
            AllSafeFor(payments, miner) <==> AllSafeFor(payments[..n], miner) && SafeFor(payments[n], miner)
  {
    var n := |payments| - 1;
    assert forall k :: 0 <= k < n ==> payments[..n][k] == payments[k];
    if AllSafeFor(payments[..n], miner) && SafeFor(payments[n], miner) {
      forall k | 0 <= k < |payments| ensures SafeFor(payments[k], miner) {
        if k < n { assert SafeFor(payments[..n][k], miner); }
      }
    }
  }

  lemma PaidIsPaidByBatches(w: World, miner: Address)
    requires Inv(w) && !w.phase.Marking?
    ensures Sum(w.rows, PaidOf(miner)) == Sum(w.rows, PaidByFirst(w.payments, miner))
  {
    forall i | 0 <= i < |w.rows|
      ensures PaidOf(miner)(w.rows[i]) == PaidByFirst(w.payments, miner)(w.rows[i])
    {
      assert ValidRow(w.rows[i]);
      if w.rows[i].txid.Some? {
        var k :| 0 <= k < |w.payments| && w.payments[k].txid == w.rows[i].txid.value;
        assert w.rows[i].txid == Some(w.payments[k].txid);
      }
    }
    SumCongruent(w.rows, PaidOf(miner), w.rows, PaidByFirst(w.payments, miner));
  }

  /**
   * While no batch is being marked, a miner's paid total is at least the sum of all amounts ever sent to that
   * miner, and is that sum exactly when every batch's cutoff for the miner was safe.
   */
  lemma TotalPaidIsTotalSentIff(events: seq<Event>, miner: Address)
    requires !Run(INIT, events).phase.Marking?
    ensures var w := Run(INIT, events);
            && Sum(w.rows, PaidOf(miner)) >= TotalSent(w.payments, miner)
            && (Sum(w.rows, PaidOf(miner)) == TotalSent(w.payments, miner) <==> AllSafeFor(w.payments, miner))
  {
    var w := Run(INIT, events);
    ReachableInv(events);
    BatchSums(w.rows, w.nextId, w.payments, miner);
    PaidIsPaidByBatches(w, miner);
  }

  /** With credits in block order every cutoff was safe. */
  lemma TotalPaidIsTotalSent(events: seq<Event>, miner: Address)
    requires !Run(INIT, events).phase.Marking? && HeightsInOrder(Run(INIT, events).rows)
    ensures var w := Run(INIT, events);
            Sum(w.rows, PaidOf(miner)) == TotalSent(w.payments, miner)
  {
    var w := Run(INIT, events);
    ReachableInv(events);
    TotalPaidIsTotalSentIff(events, miner);
    forall k | 0 <= k < |w.payments| && miner in w.payments[k].cycle.cands ensures SafeFor(w.payments[k], miner) {
      assert PaymentOk(w.rows, w.payments[k]);
      OrderedHeightsMakeCutoffSafe(w.rows, w.nextId, w.payments[k], miner);
    }
  }

  function CreditedTo(miner: Address): Row -> bool {
    (r: Row) => r.miner == miner
  }

  /**
   * The balances shown to a miner, read while no batch is being marked: together they are everything ever
   * credited, and the paid one is what was sent exactly when every cutoff was safe.
   */
  method Balances(ledger: PayoutLedgerService, minerAddress: Address, ghost events: seq<Event>)
    returns (pendingSats: int, totalPaidSats: int)
    requires ledger.rows == Run(INIT, events).rows && !Run(INIT, events).phase.Marking?
    ensures pendingSats + totalPaidSats == Sum(ledger.rows, CreditedTo(minerAddress))
    ensures pendingSats >= 0 && totalPaidSats >= TotalSent(Run(INIT, events).payments, minerAddress)
    ensures totalPaidSats == TotalSent(Run(INIT, events).payments, minerAddress)
            <==> AllSafeFor(Run(INIT, events).payments, minerAddress)
  {
    ReachableInv(events);
    TotalPaidIsTotalSentIff(events, minerAddress);
    pendingSats := ledger.GetPendingTotal(minerAddress);
    totalPaidSats := ledger.GetTotalPaid(minerAddress);
    BalancesAddUp(ledger.rows, Run(INIT, events).nextId, minerAddress);
  }

  lemma BalancesAddUp(rows: seq<Row>, nextId: nat, miner: Address)
    requires ValidTable(rows, nextId)
    ensures Sum(rows, PendingOf(miner)) + Sum(rows, PaidOf(miner)) == Sum(rows, CreditedTo(miner))
    ensures Sum(rows, PendingOf(miner)) >= 0
  {
    SumSplit(rows, CreditedTo(miner), PendingOf(miner), PaidOf(miner));
    assert forall i :: 0 <= i < |rows| ==> ValidRow(rows[i]);
    SumPositive(rows, PendingOf(miner));
  }

  // ---------- conservation ----------

  predicate AllFinished(blocks: seq<BlockRun>) {
    forall b :: 0 <= b < |blocks| ==> blocks[b].finished
  }

  function OfStatus(s: Status): Row -> bool {
    (r: Row) => r.status == s
  }

  /**
   * Global conservation: when every started block is finished, all rewards ever processed equal the
   * PENDING, SENT and CONFIRMED rows plus the fee and dust totals, however proportions were rounded.
   */
  lemma NothingIsLost(events: seq<Event>)
    requires AllFinished(Run(INIT, events).blocks)
    ensures var w := Run(INIT, events);
            Sum(w.rows, OfStatus(PENDING)) + Sum(w.rows, OfStatus(SENT)) + Sum(w.rows, OfStatus(CONFIRMED))
            + w.fee + w.dust == Rewards(w.blocks)
  {
    var w := Run(INIT, events);
    ReachableInv(events);
    NothingOutstanding(w.blocks);
    var settled := (r: Row) => r.status != PENDING;
    SumSplit(w.rows, Any, OfStatus(PENDING), settled);
    SumSplit(w.rows, settled, OfStatus(SENT), OfStatus(CONFIRMED));
  }

  lemma {:induction false} NothingOutstanding(blocks: seq<BlockRun>)
    requires AllFinished(blocks)
    ensures Outstanding(blocks) == 0
  {
    if blocks != [] {
      var n := |blocks| - 1;
      assert forall b :: 0 <= b < n ==> blocks[..n][b] == blocks[b];
      NothingOutstanding(blocks[..n]);
    }
  }

  // ---------- no starvation ----------

  function MatureUpToHeight(tip: int, maturity: int): int {
    tip - maturity + 1
  }

  function Confirmed(miner: Address, tip: int, maturity: int): Row -> bool {
    (r: Row) => r.miner == miner && r.status == PENDING && tip - r.height + 1 >= maturity
  }

  /** A miner is sent the pending rows with at least `maturity` confirmations: no lep less, no lep more. */
  lemma RequestedIsConfirmed(c: Cycle, tip: int, maturity: int, miner: Address)
    requires c.mature == MatureUpToHeight(tip, maturity) && miner in c.cands
    ensures c.cands[miner].total == Sum(c.snap, Confirmed(miner, tip, maturity))
  {
    SnapshotSum(c.snap, c.mature, miner);
    SumCongruent(c.snap, MaturePendingOf(miner, c.mature), c.snap, Confirmed(miner, tip, maturity));
  }

  /**
   * The rule for one miner: paid exactly when the confirmed balance is there and reaches the miner's own
   * override, or the pool's threshold when there is none; and then the whole confirmed balance is sent.
   */
  predicate ChosenByRule(c: CycleData, tip: int, maturity: int, miner: Address) {
    var due := Sum(c.snap, Confirmed(miner, tip, maturity));
    && (miner in c.overrides ==> (miner in c.cands <==> due > 0 && due >= c.overrides[miner]))
    && (miner !in c.overrides ==> (miner in c.cands <==> due > 0 && due >= c.poolThreshold))
    && (miner in c.cands ==> c.cands[miner].total == due)
  }

  lemma CandidatesAreChosen(c: Cycle, nextId: nat, tip: int, maturity: int, miner: Address)
    requires ValidTable(c.snap, nextId) && c.mature == MatureUpToHeight(tip, maturity)
    ensures ChosenByRule(c, tip, maturity, miner)
  {
    var totals := MaturePendingTotals(c.snap, c.mature);
    var due := Sum(c.snap, Confirmed(miner, tip, maturity));
    SnapshotSum(c.snap, c.mature, miner);
    SumCongruent(c.snap, MaturePendingOf(miner, c.mature), c.snap, Confirmed(miner, tip, maturity));
    assert forall i :: 0 <= i < |c.snap| ==> ValidRow(c.snap[i]);
    SumPositive(c.snap, MaturePendingOf(miner, c.mature));
    if miner in totals {
      var i := SnapshotWitness(c.snap, c.mature, miner);
      assert MaturePendingOf(miner, c.mature)(c.snap[i]);
    }
  }

  /**
   * After a fully marked cycle, what is still pending of the mature balance the cycle saw is below the
   * miner's own override, or below the pool's threshold when there is none, for every miner.
   */
  lemma NoMinerIsLeftAboveThreshold(w: World, k: nat, miner: Address)
    requires Inv(w) && k < |w.payments|
    requires var c := w.payments[k].cycle; if miner in c.overrides then c.overrides[miner] > 0 else c.poolThreshold > 0
    ensures var c := w.payments[k].cycle;
            && |c.snap| <= |w.rows|
            && Sum(w.rows[..|c.snap|], MaturePendingOf(miner, c.mature))
               < if miner in c.overrides then c.overrides[miner] else c.poolThreshold
  {
    var p := w.payments[k];
    var c := p.cycle;
    assert PaymentOk(w.rows, p);
    var seen := w.rows[..|c.snap|];
    if miner in c.cands {
      forall i | 0 <= i < |seen| ensures !MaturePendingOf(miner, c.mature)(seen[i]) {
        if MaturePendingOf(miner, c.mature)(seen[i]) {
          assert SameCredit(c.snap[i], w.rows[i]);
          CountedRowsAreMarked(w, k, i);
        }
      }
      SumNothing(seen, MaturePendingOf(miner, c.mature));
    } else {
      SnapshotSum(c.snap, c.mature, miner);
      PendingShrinks(c.snap, seen, miner, c.mature);
    }
  }

  lemma {:induction false} PendingShrinks(snap: seq<Row>, rows: seq<Row>, miner: Address, mature: int)
    requires |rows| == |snap|
    requires forall i :: 0 <= i < |snap| ==>
               SameCredit(snap[i], rows[i]) && rows[i].amount > 0 && (rows[i].status == PENDING ==> snap[i].status == PENDING)
    ensures Sum(rows, MaturePendingOf(miner, mature)) <= Sum(snap, MaturePendingOf(miner, mature))
  {
    if rows != [] {
      var n := |rows| - 1;
      PendingShrinks(snap[..n], rows[..n], miner, mature);
    }
  }

  // ---------- the condition is needed ----------

  const FIRST := BlockRun(151, 5, 5, [Credit("miner", 5)], 0, false)
  const SECOND := BlockRun(150, 7, 7, [Credit("miner", 7)], 0, false)
  const ROW1 := Row(1, "miner", 151, 5, PENDING, None)
  const ROW2 := Row(2, "miner", 150, 7, PENDING, None)
  const CREDITED := World([ROW1, ROW2], 3, Idle, [],
                          [FIRST.(rest := [], credited := 5), SECOND.(rest := [], credited := 7)], 0, 0)

  const TWO_BLOCKS_OUT_OF_ORDER: seq<Event> := [
    BlockStarted(151, 5, 5, [Credit("miner", 5)]),
    BlockStarted(150, 7, 7, [Credit("miner", 7)]),
    Credited(0), Credited(1),
    CycleStarted(150, map[], 1), SendSucceeded("batch"), Marked("miner")]

  lemma BothStarted()
    ensures Run(INIT, TWO_BLOCKS_OUT_OF_ORDER[..2]) == INIT.(blocks := [FIRST, SECOND])
  {
    RunSnoc(TWO_BLOCKS_OUT_OF_ORDER, 0);
    assert Step(INIT, TWO_BLOCKS_OUT_OF_ORDER[0]) == INIT.(blocks := [FIRST]);
    RunSnoc(TWO_BLOCKS_OUT_OF_ORDER, 1);
    assert [FIRST] + [SECOND] == [FIRST, SECOND];
  }

  lemma BothCredited()
    ensures Run(INIT, TWO_BLOCKS_OUT_OF_ORDER[..4]) == CREDITED
  {
    BothStarted();
    RunSnoc(TWO_BLOCKS_OUT_OF_ORDER, 2);
    assert FIRST.rest[1..] == [] && SECOND.rest[1..] == [];
    var w2 := INIT.(blocks := [FIRST, SECOND]);
    var w3 := INIT.(rows := [ROW1], nextId := 2, blocks := [FIRST.(rest := [], credited := 5), SECOND]);
    assert Step(w2, Credited(0)) == w3;
    RunSnoc(TWO_BLOCKS_OUT_OF_ORDER, 3);
    assert Step(w3, Credited(1)) == CREDITED;
  }

  lemma OnlySecondIsMature()
    ensures MaturePendingTotals([ROW1, ROW2], 150) == map["miner" := Totals(7, 2)]
  {
    assert [ROW1, ROW2][..1] == [ROW1] && [ROW1][..0] == [];
    assert MaturePendingTotals([ROW1], 150) == map[];
  }

  lemma CycleStarts() returns (cycle: Cycle)
    ensures cycle == Cycle([ROW1, ROW2], 150, map[], 1, map["miner" := Totals(7, 2)])
    ensures Step(CREDITED, CycleStarted(150, map[], 1)) == CREDITED.(phase := Sending(cycle))
  {
    OnlySecondIsMature();
    cycle := Cycle([ROW1, ROW2], 150, map[], 1, map["miner" := Totals(7, 2)]);
    assert Selected(cycle.cands, map[], 1) == cycle.cands && "miner" in cycle.cands;
  }

  lemma CycleSends() returns (cycle: Cycle)
    ensures cycle == Cycle([ROW1, ROW2], 150, map[], 1, map["miner" := Totals(7, 2)])
    ensures Run(INIT, TWO_BLOCKS_OUT_OF_ORDER[..6]) == CREDITED.(phase := Marking(Payment("batch", cycle, {})))
  {
    BothCredited();
    cycle := CycleStarts();
    RunSnoc(TWO_BLOCKS_OUT_OF_ORDER, 4);
    RunSnoc(TWO_BLOCKS_OUT_OF_ORDER, 5);
  }

  lemma BothMarked()
    ensures var rows := [ROW1.(status := SENT, txid := Some("batch")), ROW2.(status := SENT, txid := Some("batch"))];
            && MarkSent([ROW1, ROW2], "miner", 2, "batch") == rows
            && Sum(rows, PaidBy("batch", "miner")) == 12
  {
    var rows := [ROW1.(status := SENT, txid := Some("batch")), ROW2.(status := SENT, txid := Some("batch"))];
    assert rows[..1][..0] == [];
    assert Sum(rows[..1], PaidBy("batch", "miner")) == 5;
  }

  /**
   * Two blocks credited out of height order: 7 is sent for the matured block, but the mark also takes
   * the immature block's row, so 12 counts as paid.
   */
  lemma OutOfOrderCreditsAreSweptAlong()
    ensures var w := Run(INIT, TWO_BLOCKS_OUT_OF_ORDER);
            && |w.payments| == 1
            && AmountSent(w.payments[0], "miner") == 7
            && Sum(w.rows, PaidBy("batch", "miner")) == 12
  {
    var cycle := CycleSends();
    RunSnoc(TWO_BLOCKS_OUT_OF_ORDER, 6);
    assert TWO_BLOCKS_OUT_OF_ORDER[..7] == TWO_BLOCKS_OUT_OF_ORDER;
    BothMarked();
  }

  lemma RunSnoc(events: seq<Event>, n: nat)
    requires n < |events|
    ensures Run(INIT, events[..n + 1]) == Step(Run(INIT, events[..n]), events[n])
  {
    assert events[..n + 1][..n] == events[..n];
  }
}
