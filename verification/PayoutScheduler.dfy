/**
 * The payout scheduler as it runs: between any two of its statements that wait, other code may write
 * credits to the ledger or confirm transactions.
 */
module PayoutScheduling {
  import opened Options
  import opened Ledger
  import opened PayoutRuns
  import opened PayoutGuarantees

  datatype Arrival = CreditArrives(miner: Address, amount: int, height: int) | ConfirmationArrives(txid: Txid)

  /** How a cycle ends: nothing due, dry run, balance unknown, wallet short, send failed, or a batch sent and marked. */
  datatype Outcome = Skipped | DryRun | Aborted | Deferred | Failed | Paid(txid: Txid)

  datatype Beside = Arrives(arrival: Arrival) | MarkArrives(miner: Address, maxRowId: nat, txid: Txid)

  function ConfirmedBy(events: seq<Beside>): set<Txid> {
    set i | 0 <= i < |events| && events[i].Arrives? && events[i].arrival.ConfirmationArrives? :: events[i].arrival.txid
  }

  function SentTxids(rows: seq<Row>): set<Txid> {
    set i | 0 <= i < |rows| && rows[i].status == SENT && rows[i].txid.Some? :: rows[i].txid.value
  }

  function EnoughOf(txids: set<Txid>, getConfirmations: Txid -> Option<int>, required: int): set<Txid> {
    set t | t in txids && EnoughConfirmations(getConfirmations(t), required)
  }

  /** What is confirmed now was confirmed before or carries one of these txids. */
  ghost predicate ConfirmedOnly(rows: seq<Row>, rows': seq<Row>, txids: set<Txid>) {
    forall i :: 0 <= i < |rows'| && rows'[i].status == CONFIRMED ==>
      (i < |rows| && rows[i].status == CONFIRMED) || (rows'[i].txid.Some? && rows'[i].txid.value in txids)
  }

  function CountedOf(miners: set<Address>, mature: int): Row -> bool {
    (r: Row) => r.miner in miners && IsMaturePending(r, mature)
  }

  lemma CountedOfOneMore(rows: seq<Row>, miners: set<Address>, miner: Address, mature: int)
    requires miner !in miners
    ensures Sum(rows, CountedOf(miners + {miner}, mature))
         == Sum(rows, CountedOf(miners, mature)) + Sum(rows, MaturePendingOf(miner, mature))
  {
    SumSplit(rows, CountedOf(miners + {miner}, mature), CountedOf(miners, mature), MaturePendingOf(miner, mature));
  }

  /**
   * What a batch has done to the table it started from: exactly the claimed rows carry its txid, every other
   * row's txid is the snapshot's, and rows credited since then are pending.
   */
  ghost predicate TakesOnlyClaimed(rows: seq<Row>, p: Payment) {
    && |p.cycle.snap| <= |rows|
    && forall i :: 0 <= i < |rows| ==>
         rows[i].txid == if i >= |p.cycle.snap| then None
                         else if Claims(p.cycle.cands, p.marked, p.cycle.snap[i]) then Some(p.txid)
                         else p.cycle.snap[i].txid
  }

  /** A batch being marked: its claimed rows carry its txid, and it has taken nothing else. */
  ghost predicate InFlight(rows: seq<Row>, p: Payment) {
    PaymentOk(rows, p) && StillPending(rows, p.cycle.snap, p.cycle.cands, p.marked) && TakesOnlyClaimed(rows, p)
  }

  ghost predicate AllForward(rows: seq<Row>, rows': seq<Row>) {
    |rows| <= |rows'| && forall i :: 0 <= i < |rows| ==> Forward(rows[i], rows'[i])
  }

  lemma AllForwardTransitive(a: seq<Row>, b: seq<Row>, c: seq<Row>)
    requires AllForward(a, b) && AllForward(b, c)
    ensures AllForward(a, c)
  {
    forall i | 0 <= i < |a| ensures Forward(a[i], c[i]) {
      assert Forward(a[i], b[i]) && Forward(b[i], c[i]);
    }
  }

  lemma AdvancesForward(rows: seq<Row>, rows': seq<Row>, nextId: nat)
    requires Advances(rows, rows') && ValidTable(rows', nextId)
    ensures AllForward(rows, rows')
  {
    assert forall i :: 0 <= i < |rows'| ==> ValidRow(rows'[i]);
  }

  lemma AdvanceTakesOnlyClaimed(rows: seq<Row>, rows': seq<Row>, p: Payment)
    requires Advances(rows, rows') && TakesOnlyClaimed(rows, p)
    ensures TakesOnlyClaimed(rows', p)
  {
  }

  lemma MarkTakesOnlyClaimed(rows: seq<Row>, nextId: nat, p: Payment, miner: Address)
    requires ValidTable(rows, nextId) && PaymentOk(rows, p) && miner in p.cycle.cands
    requires StillPending(rows, p.cycle.snap, p.cycle.cands, p.marked) && TakesOnlyClaimed(rows, p)
    ensures var rows' := MarkSent(rows, miner, p.cycle.cands[miner].maxRowId, p.txid);
            TakesOnlyClaimed(rows', p.(marked := p.marked + {miner})) && AllForward(rows, rows')
  {
    var rows' := MarkSent(rows, miner, p.cycle.cands[miner].maxRowId, p.txid);
    forall i | 0 <= i < |rows'|
      ensures rows'[i].txid == if i >= |p.cycle.snap| then None
                               else if Claims(p.cycle.cands, p.marked + {miner}, p.cycle.snap[i]) then Some(p.txid)
                               else p.cycle.snap[i].txid
      ensures Forward(rows[i], rows'[i])
    {
      assert ValidRow(rows[i]);
      MarkTakesClaimedRows(rows, nextId, p, miner, i);
    }
  }

  lemma AdvancesTransitive(a: seq<Row>, b: seq<Row>, c: seq<Row>)
    requires Advances(a, b) && Advances(b, c)
    ensures Advances(a, c)
  {
  }

  lemma ConfirmForward(rows: seq<Row>, rows': seq<Row>, nextId: nat, txid: Txid)
    requires ValidTable(rows, nextId) && (rows' == rows || rows' == Confirm(rows, txid))
    ensures AllForward(rows, rows')
  {
    assert forall i :: 0 <= i < |rows| ==> ValidRow(rows[i]);
  }

  lemma OneBeside(before: seq<Row>, after: seq<Row>, nextId: nat, events: seq<Beside>, i: nat)
    requires ValidTable(before, nextId) && i < |events|
    requires match events[i]
             case Arrives(CreditArrives(miner, amount, height)) =>
               exists id :: after == Inserted(before, id, miner, amount, height)
             case Arrives(ConfirmationArrives(txid)) => after == Confirm(before, txid)
             case MarkArrives(miner, maxRowId, txid) => after == MarkSent(before, miner, maxRowId, txid)
    ensures AllForward(before, after) && ConfirmedOnly(before, after, ConfirmedBy(events))
  {
    assert forall j :: 0 <= j < |before| ==> ValidRow(before[j]);
  }

  class PayoutScheduler {
    const payoutLedger: PayoutLedgerService
    const poolThreshold: int
    const maturity: int
    const confirmationsRequired: int
    const dryRun: bool

    constructor (ledger: PayoutLedgerService, poolThreshold: int, maturity: int, confirmations: int, dryRun: bool)
      ensures payoutLedger == ledger && this.poolThreshold == poolThreshold && this.maturity == maturity
      ensures confirmationsRequired == confirmations && this.dryRun == dryRun
    {
      payoutLedger, this.poolThreshold, this.maturity := ledger, poolThreshold, maturity;
      confirmationsRequired, this.dryRun := confirmations, dryRun;
    }

    /** What may happen while the scheduler waits. */
    method Await(arrivals: seq<Arrival>)
      requires payoutLedger.Valid()
      modifies payoutLedger
      ensures payoutLedger.Valid()
      ensures Advances(old(payoutLedger.rows), payoutLedger.rows)
    {
      for i := 0 to |arrivals|
        invariant payoutLedger.Valid()
        invariant Advances(old(payoutLedger.rows), payoutLedger.rows)
      {
        ghost var before := payoutLedger.rows;
        match arrivals[i] {
          case CreditArrives(miner, amount, height) =>
            InsertAdvances(payoutLedger.rows, payoutLedger.nextId, miner, amount, height);
            payoutLedger.Credit(miner, amount, height);
          case ConfirmationArrives(txid) => payoutLedger.MarkConfirmed(txid);
        }
        AdvancesTransitive(old(payoutLedger.rows), before, payoutLedger.rows);
      }
    }

    /** The sum of the candidates' totals. */
    method TotalRequested(candidates: Candidates, ghost cycle: Cycle) returns (total: int)
      requires candidates == cycle.cands
      ensures total == Sum(cycle.snap, CountedOf(cycle.cands.Keys, cycle.mature))
    {
      var todo, seen := candidates.Keys, {};
      total := 0;
      SumNothing(cycle.snap, CountedOf({}, cycle.mature));
      while todo != {}
        invariant todo !! seen && todo + seen == cycle.cands.Keys
        invariant total == Sum(cycle.snap, CountedOf(seen, cycle.mature))
        decreases |todo|
      {
        var m :| m in todo;
        SnapshotSum(cycle.snap, cycle.mature, m);
        CountedOfOneMore(cycle.snap, seen, m, cycle.mature);
        total := total + candidates[m].total;
        todo, seen := todo - {m}, seen + {m};
      }
      assert seen == cycle.cands.Keys;
    }

    /**
     * One payout cycle. The block height, the overrides, the spendable balance and the result of the
     * send come from outside; `arrivals` is what happens at each wait. `batch` records what the cycle
     * read and chose.
     */
    method RunPayoutCycle(tip: Option<int>, overrides: map<Address, int>, spendableSats: Option<int>,
                          sendResult: Option<Txid>, arrivals: nat -> seq<Arrival>)
      returns (outcome: Outcome, ghost batch: Payment)
      requires payoutLedger.Valid()
      requires sendResult.Some? ==> forall i :: 0 <= i < |payoutLedger.rows| ==> payoutLedger.rows[i].txid != sendResult
      modifies payoutLedger
      ensures payoutLedger.Valid()
      // whatever happens, the cycle is the one the source's rules select from the table it read
      ensures tip.Some? ==>
                && Advances(old(payoutLedger.rows), batch.cycle.snap)
                && batch.cycle.mature == MatureUpToHeight(tip.value, maturity)
                && batch.cycle.overrides == overrides && batch.cycle.poolThreshold == poolThreshold
                && forall m :: ChosenByRule(batch.cycle, tip.value, maturity, m)
      ensures var due := Sum(batch.cycle.snap, CountedOf(batch.cycle.cands.Keys, batch.cycle.mature));
              outcome == if tip.None? || batch.cycle.cands == map[] then Skipped
                         else if dryRun then DryRun
                         else if spendableSats.None? then Aborted
                         else if spendableSats.value < due then Deferred
                         else if sendResult.None? then Failed
                         else Paid(sendResult.value)
      // a cycle that does not pay takes no row; one that pays marks exactly what it claimed and nothing else
      ensures !outcome.Paid? ==> Advances(old(payoutLedger.rows), payoutLedger.rows)
      ensures outcome.Paid? ==>
                && batch.txid == outcome.txid && Settled(payoutLedger.rows, payoutLedger.nextId, batch)
                && InFlight(payoutLedger.rows, batch)
                && AllForward(old(payoutLedger.rows), payoutLedger.rows)
    {
      batch := Payment("", Cycle([], 0, map[], 0, map[]), {});
      Await(arrivals(0));
      if tip.None? {
        return Skipped, batch;
      }
      var matureUpToHeight := tip.value - maturity + 1;
      var allPending := payoutLedger.GetMaturePendingTotals(matureUpToHeight);
      ghost var snap := payoutLedger.rows;
      var candidates := Selected(allPending, overrides, poolThreshold);
      ghost var cycle: Cycle := Cycle(snap, matureUpToHeight, overrides, poolThreshold, candidates);
      batch := Payment("", cycle, {});
      forall m ensures ChosenByRule(cycle, tip.value, maturity, m) {
        CandidatesAreChosen(cycle, payoutLedger.nextId, tip.value, maturity, m);
      }
      Await(arrivals(1));
      AdvancesTransitive(old(payoutLedger.rows), snap, payoutLedger.rows);
      if candidates == map[] {
        return Skipped, batch;
      }
      if dryRun {
        return DryRun, batch;
      }
      var totalRequestedSats := TotalRequested(candidates, cycle);
      ghost var read := payoutLedger.rows;
      Await(arrivals(2));
      AdvancesTransitive(snap, read, payoutLedger.rows);
      AdvancesTransitive(old(payoutLedger.rows), snap, payoutLedger.rows);
      if spendableSats.None? {
        return Aborted, batch;
      }
      if spendableSats.value < totalRequestedSats {
        return Deferred, batch;
      }
      ghost var checked := payoutLedger.rows;
      Await(arrivals(3));
      AdvancesTransitive(snap, checked, payoutLedger.rows);
      AdvancesTransitive(old(payoutLedger.rows), snap, payoutLedger.rows);
      if sendResult.None? {
        return Failed, batch;
      }
      batch := Payment(sendResult.value, cycle, {});
      ghost var sent := payoutLedger.rows;
      NothingMarkedYet(old(payoutLedger.rows), sent, batch);
      AdvancesForward(old(payoutLedger.rows), sent, payoutLedger.nextId);
      batch := MarkCandidates(candidates, sendResult.value, arrivals, batch);
      AllForwardTransitive(old(payoutLedger.rows), sent, payoutLedger.rows);
      outcome := Paid(sendResult.value);
    }

    /** The loop after a successful send: one mark per candidate, with a wait around each. */
    method MarkCandidates(candidates: Candidates, txid: Txid, arrivals: nat -> seq<Arrival>, ghost start: Payment)
      returns (ghost batch: Payment)
      requires payoutLedger.Valid()
      requires start.txid == txid && start.marked == {} && start.cycle.cands == candidates
      requires InFlight(payoutLedger.rows, start)
      modifies payoutLedger
      ensures payoutLedger.Valid()
      ensures batch == start.(marked := candidates.Keys)
      ensures Settled(payoutLedger.rows, payoutLedger.nextId, batch) && InFlight(payoutLedger.rows, batch)
      ensures AllForward(old(payoutLedger.rows), payoutLedger.rows)
    {
      var todo, wait := candidates.Keys, 4;
      batch := start;
      AdvancesForward(payoutLedger.rows, payoutLedger.rows, payoutLedger.nextId);
      while todo != {}
        invariant payoutLedger.Valid()
        invariant batch == start.(marked := candidates.Keys - todo) && todo <= candidates.Keys
        invariant InFlight(payoutLedger.rows, batch)
        invariant AllForward(old(payoutLedger.rows), payoutLedger.rows)
        decreases |todo|
      {
        var m :| m in todo;
        ghost var before := payoutLedger.rows;
        MarkOne(m, candidates[m].maxRowId, txid, arrivals(wait), batch);
        AllForwardTransitive(old(payoutLedger.rows), before, payoutLedger.rows);
        assert batch.marked + {m} == candidates.Keys - (todo - {m});
        batch := batch.(marked := batch.marked + {m});
        todo, wait := todo - {m}, wait + 1;
      }
    }

    /** One mark and the wait after it. */
    method MarkOne(miner: Address, maxRowId: nat, txid: Txid, arrivals: seq<Arrival>, ghost batch: Payment)
      requires payoutLedger.Valid() && InFlight(payoutLedger.rows, batch)
      requires txid == batch.txid && miner in batch.cycle.cands && maxRowId == batch.cycle.cands[miner].maxRowId
      modifies payoutLedger
      ensures payoutLedger.Valid()
      ensures InFlight(payoutLedger.rows, batch.(marked := batch.marked + {miner}))
      ensures AllForward(old(payoutLedger.rows), payoutLedger.rows)
    {
      MarkKeepsOwnPayment(payoutLedger.rows, payoutLedger.nextId, batch, miner);
      MarkTakesOnlyClaimed(payoutLedger.rows, payoutLedger.nextId, batch, miner);
      payoutLedger.MarkSentUpTo(miner, maxRowId, txid);
      ghost var marked := payoutLedger.rows;
      ghost var batch' := batch.(marked := batch.marked + {miner});
      Await(arrivals);
      AdvanceKeepsPayment(marked, payoutLedger.rows, batch');
      AdvanceTakesOnlyClaimed(marked, payoutLedger.rows, batch');
      AdvancesForward(marked, payoutLedger.rows, payoutLedger.nextId);
      AllForwardTransitive(old(payoutLedger.rows), marked, payoutLedger.rows);
    }

    /** What may happen while sent batches are reconciled: a payout cycle may be running beside it. */
    method AwaitBeside(events: seq<Beside>)
      requires payoutLedger.Valid()
      modifies payoutLedger
      ensures payoutLedger.Valid()
      ensures AllForward(old(payoutLedger.rows), payoutLedger.rows)
      ensures ConfirmedOnly(old(payoutLedger.rows), payoutLedger.rows, ConfirmedBy(events))
    {
      AdvancesForward(payoutLedger.rows, payoutLedger.rows, payoutLedger.nextId);
      for i := 0 to |events|
        invariant payoutLedger.Valid()
        invariant AllForward(old(payoutLedger.rows), payoutLedger.rows)
        invariant ConfirmedOnly(old(payoutLedger.rows), payoutLedger.rows, ConfirmedBy(events))
      {
        ghost var before := payoutLedger.rows;
        match events[i] {
          case Arrives(CreditArrives(miner, amount, height)) =>
            payoutLedger.Credit(miner, amount, height);
            assert payoutLedger.rows == Inserted(before, payoutLedger.nextId - if amount <= 0 then 0 else 1, miner, amount, height);
          case Arrives(ConfirmationArrives(txid)) => payoutLedger.MarkConfirmed(txid);
          case MarkArrives(miner, maxRowId, txid) => payoutLedger.MarkSentUpTo(miner, maxRowId, txid);
        }
        OneBeside(before, payoutLedger.rows, payoutLedger.nextId, events, i);
        AllForwardTransitive(old(payoutLedger.rows), before, payoutLedger.rows);
      }
    }

    /**
     * Confirms every sent batch whose lookup succeeds with enough confirmations, with waits around each
     * lookup. `others` holds the txids that something else confirms meanwhile.
     */
    method ReconcileSentPayouts(getConfirmations: Txid -> Option<int>, beside: nat -> seq<Beside>, ghost others: set<Txid>)
      requires payoutLedger.Valid() && forall k :: ConfirmedBy(beside(k)) <= others
      modifies payoutLedger
      ensures payoutLedger.Valid()
      ensures ConfirmedAsFound(old(payoutLedger.rows), payoutLedger.rows, getConfirmations, confirmationsRequired, others)
    {
      ghost var start := payoutLedger.rows;
      AdvancesForward(start, start, payoutLedger.nextId);
      var txids := payoutLedger.GetDistinctSentTxids();
      var todo, wait := txids, 0;
      ghost var enough := EnoughOf(txids, getConfirmations, confirmationsRequired);
      while todo != {}
        invariant payoutLedger.Valid() && todo <= txids
        invariant Reconciled(start, payoutLedger.rows, todo, enough, others)
        decreases |todo|
      {
        var txid :| txid in todo;
        ghost var before := payoutLedger.rows;
        AwaitBeside(beside(wait));
        ghost var waited := payoutLedger.rows;
        if EnoughConfirmations(getConfirmations(txid), confirmationsRequired) {
          payoutLedger.MarkConfirmed(txid);
        }
        OneReconciled(start, before, waited, payoutLedger.rows, payoutLedger.nextId, todo, txid, enough, others);
        todo, wait := todo - {txid}, wait + 1;
      }
      assert txids == SentTxids(start);
      ReconciledIsAsFound(start, payoutLedger.rows, payoutLedger.nextId, getConfirmations, confirmationsRequired, others);
    }
  }

  /**
   * Every row that was SENT and whose lookup found enough confirmations is CONFIRMED; what else became so was
   * confirmed by others, or belongs to a batch that was SENT and had enough.
   */
  ghost predicate ConfirmedAsFound(start: seq<Row>, rows: seq<Row>, getConfirmations: Txid -> Option<int>, required: int,
                                   others: set<Txid>)
  {
    && AllForward(start, rows)
    && (forall i :: 0 <= i < |start| && start[i].status == SENT && start[i].txid.Some? ==>
          var c := getConfirmations(start[i].txid.value);
          c.Some? && c.value >= required ==> rows[i].status == CONFIRMED)
    && (forall i :: 0 <= i < |rows| && rows[i].status == CONFIRMED && !(i < |start| && start[i].status == CONFIRMED) ==>
          && rows[i].txid.Some?
          && (rows[i].txid.value in others
              || (var c := getConfirmations(rows[i].txid.value);
                  && c.Some? && c.value >= required
                  && exists j :: 0 <= j < |start| && start[j].status == SENT && start[j].txid == rows[i].txid)))
  }

  lemma ReconciledIsAsFound(start: seq<Row>, rows: seq<Row>, nextId: nat, getConfirmations: Txid -> Option<int>,
                            required: int, others: set<Txid>)
    requires ValidTable(rows, nextId)
    requires Reconciled(start, rows, {}, EnoughOf(SentTxids(start), getConfirmations, required), others)
    ensures ConfirmedAsFound(start, rows, getConfirmations, required, others)
  {
    forall i | 0 <= i < |start| && start[i].status == SENT && start[i].txid.Some?
      ensures start[i].txid.value in SentTxids(start)
    {
    }
    forall i | 0 <= i < |rows| && rows[i].status == CONFIRMED && !(i < |start| && start[i].status == CONFIRMED)
               && rows[i].txid.Some? && rows[i].txid.value in SentTxids(start)
      ensures exists j :: 0 <= j < |start| && start[j].status == SENT && start[j].txid == rows[i].txid
    {
      var j :| 0 <= j < |start| && start[j].status == SENT && start[j].txid.Some? && start[j].txid.value == rows[i].txid.value;
      assert start[j].txid == rows[i].txid;
    }
  }

  /** Of the sent batches with enough confirmations, those already looked up are confirmed, and nothing else is. */
  ghost predicate Reconciled(start: seq<Row>, rows: seq<Row>, todo: set<Txid>, enough: set<Txid>, others: set<Txid>) {
    && AllForward(start, rows)
    && ConfirmedOnly(start, rows, others + enough)
    && forall i :: 0 <= i < |start| && start[i].status == SENT && start[i].txid.Some? ==>
         (start[i].txid.value in enough - todo ==> rows[i].status == CONFIRMED)
  }

  lemma OneReconciled(start: seq<Row>, before: seq<Row>, waited: seq<Row>, rows: seq<Row>, nextId: nat, todo: set<Txid>,
                      txid: Txid, enough: set<Txid>, others: set<Txid>)
    requires ValidTable(waited, nextId) && Reconciled(start, before, todo, enough, others)
    requires AllForward(before, waited) && ConfirmedOnly(before, waited, others)
    requires rows == if txid in enough then Confirm(waited, txid) else waited
    ensures Reconciled(start, rows, todo - {txid}, enough, others)
  {
    ConfirmForward(waited, rows, nextId, txid);
    AllForwardTransitive(start, before, waited);
    AllForwardTransitive(start, waited, rows);
    forall i | 0 <= i < |start| && start[i].status == SENT && start[i].txid.Some?
               && start[i].txid.value in enough - (todo - {txid})
      ensures rows[i].status == CONFIRMED
    {
      assert Forward(start[i], waited[i]) && Forward(waited[i], rows[i]);
      if start[i].txid.value != txid {
        assert before[i].status == CONFIRMED && Forward(before[i], waited[i]);
      }
    }
    forall i | 0 <= i < |rows| && rows[i].status == CONFIRMED
      ensures (i < |start| && start[i].status == CONFIRMED) || (rows[i].txid.Some? && rows[i].txid.value in others + enough)
    {
      assert Forward(waited[i], rows[i]);
    }
  }

  /** A failed lookup counts as not confirmed. */
  predicate EnoughConfirmations(confirmations: Option<int>, required: int) {
    confirmations.Some? && confirmations.value >= required
  }

  lemma NothingMarkedYet(start: seq<Row>, rows: seq<Row>, batch: Payment)
    requires Advances(start, rows) && Advances(batch.cycle.snap, rows) && batch.marked == {}
    requires forall i :: 0 <= i < |start| ==> start[i].txid != Some(batch.txid)
    ensures InFlight(rows, batch)
  {
  }
}
