/**
 * The money pipeline as a step system: block credits, payout cycles and confirmations interleave
 * freely, except that payout cycles do not overlap and a successful send is followed by its marks.
 */
module PayoutRuns {
  import opened Options
  import opened Ledger

  datatype Credit = Credit(miner: Address, amount: int)

  /** A found block on its way into the books: the credits still to write and what was written so far. */
  datatype BlockRun = BlockRun(height: int, reward: int, distributable: int, rest: seq<Credit>, credited: int,
                               finished: bool)

  /** What a cycle requests: the table it read, the maturity height and thresholds, and the chosen candidates. */
  datatype CycleData = Cycle(snap: seq<Row>, mature: int, overrides: map<Address, int>, poolThreshold: int,
                             cands: Candidates)

  type Cycle = c: CycleData | FromSnapshot(c) witness Cycle([], 0, map[], 0, map[])

  /** A sent batch and the miners marked so far. */
  datatype Payment = Payment(txid: Txid, cycle: Cycle, marked: set<Address>)

  datatype Phase = Idle | Sending(cycle: Cycle) | Marking(batch: Payment)

  /** `payments` holds the fully marked batches; a batch being marked is part of the phase. */
  datatype World = World(rows: seq<Row>, nextId: nat, phase: Phase, payments: seq<Payment>, blocks: seq<BlockRun>,
                         fee: int, dust: int)

  datatype Event =
    | BlockStarted(height: int, reward: int, distributable: int, credits: seq<Credit>)
    | Credited(block: nat)
    | BlockFinished(block: nat)
    | CycleStarted(mature: int, overrides: map<Address, int>, poolThreshold: int)
    | SendFailed
    | SendSucceeded(txid: Txid)
    | Marked(miner: Address)
    | Confirmed(txid: Txid)

  const INIT := World([], 1, Idle, [], [], 0, 0)

  // ---------- steps ----------

  function Threshold(miner: Address, overrides: map<Address, int>, poolThreshold: int): int {
    if miner in overrides then overrides[miner] else poolThreshold
  }

  function Selected(totals: Candidates, overrides: map<Address, int>, poolThreshold: int): Candidates {
    map m | m in totals && totals[m].total >= Threshold(m, overrides, poolThreshold) :: totals[m]
  }

  predicate Complete(p: Payment) {
    p.marked == p.cycle.cands.Keys
  }

  /** Candidates are the mature totals that reach their miner's threshold. */
  predicate FromSnapshot(c: CycleData) {
    var totals := MaturePendingTotals(c.snap, c.mature);
    && (forall m :: m in c.cands ==>
          m in totals && c.cands[m] == totals[m] && totals[m].total >= Threshold(m, c.overrides, c.poolThreshold))
    && (forall m :: m in totals && m !in c.cands ==> totals[m].total < Threshold(m, c.overrides, c.poolThreshold))
  }

  function Txids(payments: seq<Payment>): set<Txid> {
    set k | 0 <= k < |payments| :: payments[k].txid
  }

  /** An event that is not enabled changes nothing. */
  function Step(w: World, e: Event): World {
    match e
    case BlockStarted(height, reward, distributable, credits) =>
      w.(blocks := w.blocks + [BlockRun(height, reward, distributable, credits, 0, false)])
    case Credited(b) =>
      if b < |w.blocks| && w.blocks[b].rest != [] && !w.blocks[b].finished then CreditStep(w, b) else w
    case BlockFinished(b) =>
      if b < |w.blocks| && w.blocks[b].rest == [] && !w.blocks[b].finished then FinishStep(w, b) else w
    case CycleStarted(mature, overrides, poolThreshold) =>
      var cands := Selected(MaturePendingTotals(w.rows, mature), overrides, poolThreshold);
      if w.phase.Idle? && cands != map[] then
        w.(phase := Sending(Cycle(w.rows, mature, overrides, poolThreshold, cands)))
      else w
    case SendFailed => if w.phase.Sending? then w.(phase := Idle) else w
    case SendSucceeded(txid) =>
      if w.phase.Sending? && txid !in Txids(w.payments) then
        w.(phase := Marking(Payment(txid, w.phase.cycle, {})))
      else w
    case Marked(miner) => if w.phase.Marking? && miner in w.phase.batch.cycle.cands then MarkStep(w, miner) else w
    case Confirmed(txid) => w.(rows := Confirm(w.rows, txid))
  }

  function CreditStep(w: World, b: nat): World
    requires b < |w.blocks| && w.blocks[b].rest != []
  {
    var block := w.blocks[b];
    var c := block.rest[0];
    w.(rows := Inserted(w.rows, w.nextId, c.miner, c.amount, block.height),
       nextId := w.nextId + if c.amount <= 0 then 0 else 1,
       blocks := w.blocks[b := block.(rest := block.rest[1..],
                                      credited := block.credited + if c.amount <= 0 then 0 else c.amount)])
  }

  function FinishStep(w: World, b: nat): World
    requires b < |w.blocks|
  {
    var block := w.blocks[b];
    w.(fee := w.fee + (block.reward - block.distributable),
       dust := w.dust + (block.distributable - block.credited),
       blocks := w.blocks[b := block.(finished := true)])
  }

  function MarkStep(w: World, miner: Address): World
    requires w.phase.Marking? && miner in w.phase.batch.cycle.cands
  {
    var p := w.phase.batch;
    var p' := p.(marked := p.marked + {miner});
    var rows := MarkSent(w.rows, miner, p.cycle.cands[miner].maxRowId, p.txid);
    if Complete(p') then w.(rows := rows, phase := Idle, payments := w.payments + [p'])
    else w.(rows := rows, phase := Marking(p'))
  }

  function Run(w: World, events: seq<Event>): World {
    if events == [] then w else Step(Run(w, events[..|events| - 1]), events[|events| - 1])
  }

  // ---------- invariants ----------

  predicate SameCredit(a: Row, b: Row) {
    a.id == b.id && a.miner == b.miner && a.height == b.height && a.amount == b.amount
  }

  ghost predicate Extends(rows: seq<Row>, snap: seq<Row>) {
    && |snap| <= |rows|
    && forall i :: 0 <= i < |snap| ==>
         SameCredit(snap[i], rows[i]) && (rows[i].status == PENDING ==> snap[i].status == PENDING)
  }

  /** The row was pending at the snapshot, its miner has been marked, and it is at or below the cutoff. */
  predicate Claims(cands: Candidates, marked: set<Address>, r: Row) {
    r.status == PENDING && r.miner in marked && r.miner in cands && r.id <= cands[r.miner].maxRowId
  }

  /** The rows that carry a batch's txid are exactly the rows it has claimed. */
  ghost predicate PaymentOk(rows: seq<Row>, p: Payment) {
    && Extends(rows, p.cycle.snap)
    && p.marked <= p.cycle.cands.Keys
    && forall i :: 0 <= i < |rows| ==>
         (rows[i].txid == Some(p.txid) <==> i < |p.cycle.snap| && Claims(p.cycle.cands, p.marked, p.cycle.snap[i]))
  }

  ghost predicate PaymentsOk(rows: seq<Row>, payments: seq<Payment>) {
    && (forall k :: 0 <= k < |payments| ==> PaymentOk(rows, payments[k]) && Complete(payments[k]))
    && (forall j, k :: 0 <= j < k < |payments| ==> payments[j].txid != payments[k].txid)
  }

  /** The current batch, if any. */
  ghost predicate PhaseOk(rows: seq<Row>, phase: Phase) {
    match phase
    case Idle => true
    case Sending(c) => Extends(rows, c.snap) && StillPending(rows, c.snap, map[], {})
    case Marking(p) => PaymentOk(rows, p) && StillPending(rows, p.cycle.snap, p.cycle.cands, p.marked)
  }

  function Current(phase: Phase): set<Txid> {
    if phase.Marking? then {phase.batch.txid} else {}
  }

  /** A txid on a row belongs to a batch, and the current batch's is its own. */
  ghost predicate TxidsKnown(w: World) {
    && Current(w.phase) !! Txids(w.payments)
    && forall i :: 0 <= i < |w.rows| && w.rows[i].txid.Some? ==>
         w.rows[i].txid.value in Txids(w.payments) + Current(w.phase)
  }

  /** Nothing but the current batch's own marks takes a row of the snapshot out of PENDING. */
  ghost predicate StillPending(rows: seq<Row>, snap: seq<Row>, cands: Candidates, marked: set<Address>) {
    forall i :: 0 <= i < |snap| && i < |rows| && snap[i].status == PENDING && !Claims(cands, marked, snap[i]) ==>
      rows[i].status == PENDING
  }

  function Rewards(blocks: seq<BlockRun>): int {
    if blocks == [] then 0 else Rewards(blocks[..|blocks| - 1]) + blocks[|blocks| - 1].reward
  }

  /** What a block has not yet put into the books. */
  function Owed(b: BlockRun): int {
    if b.finished then 0 else b.reward - b.credited
  }

  function Outstanding(blocks: seq<BlockRun>): int {
    if blocks == [] then 0 else Outstanding(blocks[..|blocks| - 1]) + Owed(blocks[|blocks| - 1])
  }

  ghost predicate BooksOk(w: World) {
    Sum(w.rows, Any) + w.fee + w.dust + Outstanding(w.blocks) == Rewards(w.blocks)
  }

  ghost predicate Inv(w: World) {
    && ValidTable(w.rows, w.nextId)
    && PaymentsOk(w.rows, w.payments)
    && PhaseOk(w.rows, w.phase)
    && TxidsKnown(w)
    && BooksOk(w)
  }

  // ---------- the invariant is kept ----------

  /** Appending unsent rows and confirming: no pending row is taken, no txid changes. */
  ghost predicate Advances(rows: seq<Row>, rows': seq<Row>) {
    && |rows| <= |rows'|
    && (forall i :: 0 <= i < |rows| ==>
          && SameCredit(rows[i], rows'[i]) && rows[i].txid == rows'[i].txid
          && (rows[i].status == PENDING <==> rows'[i].status == PENDING)
          && (rows[i].status == CONFIRMED ==> rows'[i].status == CONFIRMED))
    && (forall i :: |rows| <= i < |rows'| ==> rows'[i].txid == None)
  }

  lemma AdvanceKeepsPayment(rows: seq<Row>, rows': seq<Row>, p: Payment)
    requires PaymentOk(rows, p) && Advances(rows, rows')
    ensures PaymentOk(rows', p)
    ensures StillPending(rows, p.cycle.snap, p.cycle.cands, p.marked) ==>
              StillPending(rows', p.cycle.snap, p.cycle.cands, p.marked)
  {
  }

  lemma AdvanceKeepsBatches(w: World, w': World)
    requires PaymentsOk(w.rows, w.payments) && PhaseOk(w.rows, w.phase) && TxidsKnown(w) && Advances(w.rows, w'.rows)
    requires w'.payments == w.payments && w'.phase == w.phase
    ensures PaymentsOk(w'.rows, w'.payments) && PhaseOk(w'.rows, w'.phase) && TxidsKnown(w')
  {
    forall k | 0 <= k < |w.payments| ensures PaymentOk(w'.rows, w.payments[k]) {
      AdvanceKeepsPayment(w.rows, w'.rows, w.payments[k]);
    }
    if w.phase.Marking? {
      AdvanceKeepsPayment(w.rows, w'.rows, w.phase.batch);
    }
  }

  lemma {:induction false} SameSums(blocks: seq<BlockRun>, b: nat, block: BlockRun)
    requires b < |blocks| && block.reward == blocks[b].reward
    ensures Rewards(blocks[b := block]) == Rewards(blocks)
    ensures Outstanding(blocks[b := block]) == Outstanding(blocks) - Owed(blocks[b]) + Owed(block)
  {
    var n := |blocks| - 1;
    if b < n {
      assert blocks[b := block][..n] == blocks[..n][b := block];
      SameSums(blocks[..n], b, block);
    } else {
      assert blocks[b := block][..n] == blocks[..n];
    }
  }

  lemma InsertAdvances(rows: seq<Row>, nextId: nat, miner: Address, amount: int, height: int)
    requires ValidTable(rows, nextId)
    ensures ValidTable(Inserted(rows, nextId, miner, amount, height), nextId + if amount <= 0 then 0 else 1)
    ensures Advances(rows, Inserted(rows, nextId, miner, amount, height))
  {
  }

  lemma InsertedSum(rows: seq<Row>, nextId: nat, miner: Address, amount: int, height: int)
    ensures Sum(Inserted(rows, nextId, miner, amount, height), Any) == Sum(rows, Any) + if amount <= 0 then 0 else amount
  {
    SumAppend(rows, Row(nextId, miner, height, amount, PENDING, None), Any);
  }

  lemma CreditKeepsBooks(w: World, b: nat)
    requires BooksOk(w) && b < |w.blocks| && w.blocks[b].rest != [] && !w.blocks[b].finished
    ensures BooksOk(CreditStep(w, b))
  {
    var block := CreditStep(w, b).blocks[b];
    var c := w.blocks[b].rest[0];
    SameSums(w.blocks, b, block);
    InsertedSum(w.rows, w.nextId, c.miner, c.amount, w.blocks[b].height);
  }

  lemma CreditKeepsInv(w: World, b: nat)
    requires Inv(w) && b < |w.blocks| && w.blocks[b].rest != [] && !w.blocks[b].finished
    ensures Inv(CreditStep(w, b))
  {
    var c := w.blocks[b].rest[0];
    InsertAdvances(w.rows, w.nextId, c.miner, c.amount, w.blocks[b].height);
    AdvanceKeepsBatches(w, CreditStep(w, b));
    CreditKeepsBooks(w, b);
  }

  lemma ConfirmKeepsInv(w: World, txid: Txid)
    requires Inv(w)
    ensures Inv(w.(rows := Confirm(w.rows, txid)))
  {
    var w' := w.(rows := Confirm(w.rows, txid));
    AdvanceKeepsBatches(w, w');
    SumCongruent(w.rows, Any, w'.rows, Any);
  }

  lemma NewBatchOk(rows: seq<Row>, cycle: Cycle, txid: Txid)
    requires Extends(rows, cycle.snap) && StillPending(rows, cycle.snap, map[], {})
    requires forall i :: 0 <= i < |rows| ==> rows[i].txid != Some(txid)
    ensures PhaseOk(rows, Marking(Payment(txid, cycle, {})))
  {
  }

  lemma SendKeepsInv(w: World, txid: Txid)
    requires Inv(w) && w.phase.Sending? && txid !in Txids(w.payments)
    ensures Inv(Step(w, SendSucceeded(txid)))
  {
    forall i | 0 <= i < |w.rows| ensures w.rows[i].txid != Some(txid) {}
    NewBatchOk(w.rows, w.phase.cycle, txid);
  }

  /** A mark takes exactly the snapshot rows its miner's cutoff claims: later credits have higher ids. */
  lemma MarkTakesClaimedRows(rows: seq<Row>, nextId: nat, p: Payment, miner: Address, i: nat)
    requires ValidTable(rows, nextId) && PaymentOk(rows, p) && miner in p.cycle.cands && i < |rows|
    requires StillPending(rows, p.cycle.snap, p.cycle.cands, p.marked)
    ensures var r := rows[i];
            r.miner == miner && r.id <= p.cycle.cands[miner].maxRowId && r.status == PENDING <==>
              i < |p.cycle.snap| && p.cycle.snap[i].miner == miner
              && Claims(p.cycle.cands, p.marked + {miner}, p.cycle.snap[i])
              && !Claims(p.cycle.cands, p.marked, p.cycle.snap[i])
  {
    var j := SnapshotWitness(p.cycle.snap, p.cycle.mature, miner);
    assert SameCredit(p.cycle.snap[j], rows[j]);
    if i < |p.cycle.snap| && Claims(p.cycle.cands, p.marked, p.cycle.snap[i]) {
      assert rows[i].txid == Some(p.txid);
    }
  }

  lemma MarkKeepsOwnPayment(rows: seq<Row>, nextId: nat, p: Payment, miner: Address)
    requires ValidTable(rows, nextId) && PaymentOk(rows, p) && miner in p.cycle.cands
    requires StillPending(rows, p.cycle.snap, p.cycle.cands, p.marked)
    ensures var rows' := MarkSent(rows, miner, p.cycle.cands[miner].maxRowId, p.txid);
            && PaymentOk(rows', p.(marked := p.marked + {miner}))
            && StillPending(rows', p.cycle.snap, p.cycle.cands, p.marked + {miner})
  {
    var rows' := MarkSent(rows, miner, p.cycle.cands[miner].maxRowId, p.txid);
    forall i | 0 <= i < |rows'|
      ensures rows'[i].txid == Some(p.txid) <==>
              i < |p.cycle.snap| && Claims(p.cycle.cands, p.marked + {miner}, p.cycle.snap[i])
    {
      MarkTakesClaimedRows(rows, nextId, p, miner, i);
    }
    forall i | 0 <= i < |p.cycle.snap| && p.cycle.snap[i].status == PENDING
                && !Claims(p.cycle.cands, p.marked + {miner}, p.cycle.snap[i])
      ensures rows'[i].status == PENDING
    {
      MarkTakesClaimedRows(rows, nextId, p, miner, i);
      assert !Claims(p.cycle.cands, p.marked, p.cycle.snap[i]);
    }
  }

  lemma MarkKeepsOtherPayment(rows: seq<Row>, nextId: nat, miner: Address, cutoff: nat, txid: Txid, q: Payment)
    requires ValidTable(rows, nextId) && PaymentOk(rows, q) && q.txid != txid
    ensures PaymentOk(MarkSent(rows, miner, cutoff, txid), q)
  {
    var rows' := MarkSent(rows, miner, cutoff, txid);
    forall i | 0 <= i < |rows'| ensures rows'[i].txid == Some(q.txid) <==> rows[i].txid == Some(q.txid) {
      assert ValidRow(rows[i]);
    }
  }

  lemma MarkKeepsPayments(rows: seq<Row>, nextId: nat, payments: seq<Payment>, p: Payment, miner: Address)
    requires ValidTable(rows, nextId) && PaymentsOk(rows, payments) && p.txid !in Txids(payments)
    requires miner in p.cycle.cands
    ensures PaymentsOk(MarkSent(rows, miner, p.cycle.cands[miner].maxRowId, p.txid), payments)
  {
    forall k | 0 <= k < |payments|
      ensures PaymentOk(MarkSent(rows, miner, p.cycle.cands[miner].maxRowId, p.txid), payments[k])
    {
      assert payments[k].txid in Txids(payments);
      MarkKeepsOtherPayment(rows, nextId, miner, p.cycle.cands[miner].maxRowId, p.txid, payments[k]);
    }
  }

  lemma CompletedPaymentOk(rows: seq<Row>, payments: seq<Payment>, p: Payment)
    requires PaymentsOk(rows, payments) && PaymentOk(rows, p) && Complete(p) && p.txid !in Txids(payments)
    ensures PaymentsOk(rows, payments + [p]) && Txids(payments + [p]) == Txids(payments) + {p.txid}
  {
    var all := payments + [p];
    forall k | 0 <= k < |payments| ensures payments[k].txid in Txids(payments) && all[k] == payments[k] {}
    assert all[|payments|] == p;
    forall t | t in Txids(payments) ensures t in Txids(all) {
      var k :| 0 <= k < |payments| && payments[k].txid == t;
      assert all[k].txid == t;
    }
  }

  lemma MarkKeepsTable(rows: seq<Row>, nextId: nat, miner: Address, cutoff: nat, txid: Txid)
    requires ValidTable(rows, nextId)
    ensures ValidTable(MarkSent(rows, miner, cutoff, txid), nextId)
    ensures Sum(MarkSent(rows, miner, cutoff, txid), Any) == Sum(rows, Any)
  {
    SumCongruent(MarkSent(rows, miner, cutoff, txid), Any, rows, Any);
  }

  lemma MarkKeepsInv(w: World, miner: Address)
    requires Inv(w) && w.phase.Marking? && miner in w.phase.batch.cycle.cands
    ensures Inv(MarkStep(w, miner))
  {
    var p := w.phase.batch;
    MarkKeepsTable(w.rows, w.nextId, miner, p.cycle.cands[miner].maxRowId, p.txid);
    MarkKeepsPayments(w.rows, w.nextId, w.payments, p, miner);
    MarkKeepsOwnPayment(w.rows, w.nextId, p, miner);
    var p' := p.(marked := p.marked + {miner});
    if Complete(p') {
      CompletedPaymentOk(MarkStep(w, miner).rows, w.payments, p');
    }
  }

  lemma BlockStartKeepsInv(w: World, block: BlockRun)
    requires Inv(w) && block.credited == 0 && !block.finished
    ensures Inv(w.(blocks := w.blocks + [block]))
  {
    var w' := w.(blocks := w.blocks + [block]);
    AdvanceKeepsBatches(w, w');
    assert w'.blocks[..|w.blocks|] == w.blocks;
  }

  lemma FinishKeepsInv(w: World, b: nat)
    requires Inv(w) && b < |w.blocks| && w.blocks[b].rest == [] && !w.blocks[b].finished
    ensures Inv(FinishStep(w, b))
  {
    AdvanceKeepsBatches(w, FinishStep(w, b));
    SameSums(w.blocks, b, w.blocks[b].(finished := true));
  }

  lemma CycleStartKeepsInv(w: World, e: Event)
    requires Inv(w) && e.CycleStarted?
    ensures Inv(Step(w, e))
  {
    var w' := Step(w, e);
    if w'.phase != w.phase {
      assert Extends(w.rows, w.rows) && StillPending(w.rows, w.rows, map[], {});
    }
  }

  lemma StepKeepsInv(w: World, e: Event)
    requires Inv(w)
    ensures Inv(Step(w, e))
  {
    match e
    case BlockStarted(height, reward, distributable, credits) =>
      BlockStartKeepsInv(w, BlockRun(height, reward, distributable, credits, 0, false));
    case BlockFinished(b) =>
      if b < |w.blocks| && w.blocks[b].rest == [] && !w.blocks[b].finished { FinishKeepsInv(w, b); }
    case CycleStarted(_, _, _) => CycleStartKeepsInv(w, e);
    case Credited(b) =>
      if b < |w.blocks| && w.blocks[b].rest != [] && !w.blocks[b].finished { CreditKeepsInv(w, b); }
    case SendFailed =>
    case SendSucceeded(txid) =>
      if w.phase.Sending? && txid !in Txids(w.payments) { SendKeepsInv(w, txid); }
    case Marked(miner) =>
      if w.phase.Marking? && miner in w.phase.batch.cycle.cands { MarkKeepsInv(w, miner); }
    case Confirmed(txid) => ConfirmKeepsInv(w, txid);
  }

  lemma {:induction false} RunKeepsInv(w: World, events: seq<Event>)
    requires Inv(w)
    ensures Inv(Run(w, events))
  {
    if events != [] {
      RunKeepsInv(w, events[..|events| - 1]);
      StepKeepsInv(Run(w, events[..|events| - 1]), events[|events| - 1]);
    }
  }
}
