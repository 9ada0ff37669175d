/**
 * The payout ledger: one row per credit, moving PENDING to SENT to CONFIRMED, with the queries and
 * updates of the ledger service, and the pool's fee and dust account.
 */
module Ledger {
  import opened Options

  type Address = string
  type Txid = string

  datatype Status = PENDING | SENT | CONFIRMED

  datatype Row = Row(id: nat, miner: Address, height: int, amount: int, status: Status, txid: Option<Txid>)

  datatype Totals = Totals(total: int, maxRowId: nat)

  /** Payout candidates; the query groups by address, so there is one entry per miner. */
  type Candidates = map<Address, Totals>

  // ---------- the table ----------

  ghost predicate ValidRow(r: Row) {
    r.amount > 0 && (r.status == PENDING <==> r.txid == None)
  }

  /** Auto-incremented ids, positive amounts, and a txid exactly on the rows that are not PENDING. */
  ghost predicate ValidTable(rows: seq<Row>, nextId: nat) {
    && (forall i :: 0 <= i < |rows| ==> ValidRow(rows[i]) && rows[i].id < nextId)
    && (forall i, j :: 0 <= i < j < |rows| ==> rows[i].id < rows[j].id)
  }

  function Inserted(rows: seq<Row>, nextId: nat, miner: Address, amount: int, height: int): seq<Row> {
    if amount <= 0 then rows else rows + [Row(nextId, miner, height, amount, PENDING, None)]
  }

  function MarkSent(rows: seq<Row>, miner: Address, maxRowId: nat, txid: Txid): (marked: seq<Row>)
    ensures |marked| == |rows|
  {
    seq(|rows|, i requires 0 <= i < |rows| =>
      if rows[i].miner == miner && rows[i].id <= maxRowId && rows[i].status == PENDING
      then rows[i].(status := SENT, txid := Some(txid)) else rows[i])
  }

  function Confirm(rows: seq<Row>, txid: Txid): (marked: seq<Row>)
    ensures |marked| == |rows|
  {
    seq(|rows|, i requires 0 <= i < |rows| =>
      if rows[i].txid == Some(txid) && rows[i].status == SENT then rows[i].(status := CONFIRMED) else rows[i])
  }

  // ---------- sums ----------

  /** `SUM(amountSats)` over the rows that satisfy p. */
  function Sum(rows: seq<Row>, p: Row -> bool): int {
    if rows == [] then 0
    else Sum(rows[..|rows| - 1], p) + if p(rows[|rows| - 1]) then rows[|rows| - 1].amount else 0
  }

  predicate Any(r: Row) { true }

  lemma SumAppend(rows: seq<Row>, r: Row, p: Row -> bool)
    ensures Sum(rows + [r], p) == Sum(rows, p) + if p(r) then r.amount else 0
  {
    assert (rows + [r])[..|rows|] == rows;
  }

  /** Sums depend on nothing but which rows are selected and their amounts. */
  lemma {:induction false} SumCongruent(rows: seq<Row>, p: Row -> bool, rows': seq<Row>, q: Row -> bool)
    requires |rows| == |rows'|
    requires forall i :: 0 <= i < |rows| ==> rows[i].amount == rows'[i].amount && p(rows[i]) == q(rows'[i])
    ensures Sum(rows, p) == Sum(rows', q)
  {
    if rows != [] {
      var n := |rows| - 1;
      forall i | 0 <= i < n
        ensures rows[..n][i].amount == rows'[..n][i].amount && p(rows[..n][i]) == q(rows'[..n][i])
      {
        assert rows[..n][i] == rows[i] && rows'[..n][i] == rows'[i];
      }
      SumCongruent(rows[..n], p, rows'[..n], q);
    }
  }

  /** A selection that splits in two sums as its parts. */
  lemma {:induction false} SumSplit(rows: seq<Row>, p: Row -> bool, q: Row -> bool, r: Row -> bool)
    requires forall i :: 0 <= i < |rows| ==>
               !(q(rows[i]) && r(rows[i])) && (p(rows[i]) <==> q(rows[i]) || r(rows[i]))
    ensures Sum(rows, p) == Sum(rows, q) + Sum(rows, r)
  {
    if rows != [] {
      var n := |rows| - 1;
      forall i | 0 <= i < n
        ensures !(q(rows[..n][i]) && r(rows[..n][i])) && (p(rows[..n][i]) <==> q(rows[..n][i]) || r(rows[..n][i]))
      {
        assert rows[..n][i] == rows[i];
      }
      SumSplit(rows[..n], p, q, r);
    }
  }

  /** With positive amounts a sum is zero exactly when nothing is selected. */
  lemma {:induction false} SumPositive(rows: seq<Row>, p: Row -> bool)
    requires forall i :: 0 <= i < |rows| ==> rows[i].amount > 0
    ensures Sum(rows, p) >= 0
    ensures Sum(rows, p) == 0 <==> forall i :: 0 <= i < |rows| ==> !p(rows[i])
  {
    if rows != [] {
      var n := |rows| - 1;
      SumPositive(rows[..n], p);
      assert forall i :: 0 <= i < n ==> rows[..n][i] == rows[i];
      if forall i :: 0 <= i < |rows| ==> !p(rows[i]) {
        assert forall i :: 0 <= i < n ==> !p(rows[..n][i]);
      }
    }
  }

  lemma {:induction false} SumNothing(rows: seq<Row>, p: Row -> bool)
    requires forall i :: 0 <= i < |rows| ==> !p(rows[i])
    ensures Sum(rows, p) == 0
  {
    if rows != [] {
      var n := |rows| - 1;
      assert forall i :: 0 <= i < n ==> rows[..n][i] == rows[i];
      SumNothing(rows[..n], p);
    }
  }

  lemma {:induction false} SumConcat(rows: seq<Row>, more: seq<Row>, p: Row -> bool)
    ensures Sum(rows + more, p) == Sum(rows, p) + Sum(more, p)
  {
    if more == [] {
      assert rows + more == rows;
    } else {
      var n := |more| - 1;
      assert (rows + more)[..|rows| + n] == rows + more[..n];
      SumConcat(rows, more[..n], p);
    }
  }

  // ---------- the mature snapshot ----------

  predicate IsMaturePending(r: Row, mature: int) {
    r.status == PENDING && r.height <= mature
  }

  function MaturePendingOf(miner: Address, mature: int): Row -> bool {
    (r: Row) => r.miner == miner && IsMaturePending(r, mature)
  }

  /** Per miner: the sum and the highest id of the PENDING rows of matured blocks. */
  function MaturePendingTotals(rows: seq<Row>, mature: int): Candidates {
    if rows == [] then map[]
    else Grouped(MaturePendingTotals(rows[..|rows| - 1], mature), rows[|rows| - 1], mature)
  }

  function Grouped(totals: Candidates, r: Row, mature: int): Candidates {
    if !IsMaturePending(r, mature) then totals
    else if r.miner !in totals then totals[r.miner := Totals(r.amount, r.id)]
    else
      var t := totals[r.miner];
      totals[r.miner := Totals(t.total + r.amount, if t.maxRowId < r.id then r.id else t.maxRowId)]
  }

  lemma {:induction false} SnapshotSum(rows: seq<Row>, mature: int, miner: Address)
    ensures var totals := MaturePendingTotals(rows, mature);
            Sum(rows, MaturePendingOf(miner, mature)) == if miner in totals then totals[miner].total else 0
  {
    if rows != [] {
      SnapshotSum(rows[..|rows| - 1], mature, miner);
    }
  }

  /** Every counted row is at or below its miner's cutoff. */
  lemma {:induction false} SnapshotCutoff(rows: seq<Row>, mature: int, i: nat)
    requires i < |rows| && IsMaturePending(rows[i], mature)
    ensures var totals := MaturePendingTotals(rows, mature);
            rows[i].miner in totals && rows[i].id <= totals[rows[i].miner].maxRowId
  {
    var n := |rows| - 1;
    if i < n {
      assert rows[..n][i] == rows[i];
      SnapshotCutoff(rows[..n], mature, i);
    }
  }

  /** The cutoff is the id of a counted row. */
  lemma {:induction false} SnapshotWitness(rows: seq<Row>, mature: int, miner: Address) returns (i: nat)
    requires miner in MaturePendingTotals(rows, mature)
    ensures i < |rows| && rows[i].miner == miner && IsMaturePending(rows[i], mature)
    ensures rows[i].id == MaturePendingTotals(rows, mature)[miner].maxRowId
  {
    var n := |rows| - 1;
    var before := MaturePendingTotals(rows[..n], mature);
    var r := rows[n];
    if IsMaturePending(r, mature) && r.miner == miner && (miner !in before || before[miner].maxRowId < r.id) {
      i := n;
    } else {
      i := SnapshotWitness(rows[..n], mature, miner);
    }
  }

  /** The rows a cycle counts, in order. */
  function MaturePending(rows: seq<Row>, mature: int): seq<Row> {
    if rows == [] then []
    else
      var front, last := MaturePending(rows[..|rows| - 1], mature), rows[|rows| - 1];
      if IsMaturePending(last, mature) then front + [last] else front
  }

  lemma {:induction false} OthersDoNotMatter(rows: seq<Row>, mature: int)
    ensures MaturePendingTotals(MaturePending(rows, mature), mature) == MaturePendingTotals(rows, mature)
  {
    if rows != [] {
      var front, last := rows[..|rows| - 1], rows[|rows| - 1];
      OthersDoNotMatter(front, mature);
      var kept := MaturePending(front, mature);
      assert (kept + [last])[..|kept|] == kept;
    }
  }

  /**
   * Two tables with the same mature pending rows request the same, whatever immature, sent or confirmed
   * rows stand anywhere among them.
   */
  lemma FreshBlocksDoNotMatter(rows: seq<Row>, others: seq<Row>, mature: int)
    requires MaturePending(rows, mature) == MaturePending(others, mature)
    ensures MaturePendingTotals(rows, mature) == MaturePendingTotals(others, mature)
  {
    OthersDoNotMatter(rows, mature);
    OthersDoNotMatter(others, mature);
  }

  // ---------- the services ----------

  class PayoutLedgerService {
    var rows: seq<Row>
    var nextId: nat

    ghost predicate Valid()
      reads this
    {
      ValidTable(rows, nextId)
    }

    constructor ()
      ensures Valid() && rows == []
    {
      rows, nextId := [], 1;
    }

    method Credit(minerAddress: Address, amountSats: int, blockHeight: int)
      requires Valid()
      modifies this
      ensures Valid()
      ensures nextId == old(nextId) + if amountSats <= 0 then 0 else 1
      ensures amountSats <= 0 ==> rows == old(rows)
      ensures amountSats > 0 ==> rows == old(rows) + [Row(old(nextId), minerAddress, blockHeight, amountSats, PENDING, None)]
    {
      if amountSats <= 0 {
        return;
      }
      rows := rows + [Row(nextId, minerAddress, blockHeight, amountSats, PENDING, None)];
      nextId := nextId + 1;
    }

    method GetMaturePendingTotals(matureUpToHeight: int) returns (totals: Candidates)
      ensures totals == MaturePendingTotals(rows, matureUpToHeight)
    {
      totals := MaturePendingTotals(rows, matureUpToHeight);
    }

    /** Re-checks the miner, the cutoff and the status, but not the height. */
    method MarkSentUpTo(minerAddress: Address, maxRowId: nat, txid: Txid)
      requires Valid()
      modifies this`rows
      ensures Valid()
      ensures rows == MarkSent(old(rows), minerAddress, maxRowId, txid)
      ensures |rows| == |old(rows)| && forall i :: 0 <= i < |rows| ==>
                var r := old(rows)[i];
                rows[i] == if r.miner == minerAddress && r.id <= maxRowId && r.status == PENDING
                           then r.(status := SENT, txid := Some(txid)) else r
    {
      rows := MarkSent(rows, minerAddress, maxRowId, txid);
    }

    method GetDistinctSentTxids() returns (txids: set<Txid>)
      ensures forall t :: t in txids <==>
                exists i :: 0 <= i < |rows| && rows[i].status == SENT && rows[i].txid == Some(t)
    {
      txids := set i | 0 <= i < |rows| && rows[i].status == SENT && rows[i].txid.Some? :: rows[i].txid.value;
    }

    method MarkConfirmed(txid: Txid)
      requires Valid()
      modifies this`rows
      ensures Valid()
      ensures rows == Confirm(old(rows), txid)
      ensures |rows| == |old(rows)| && forall i :: 0 <= i < |rows| ==>
                var r := old(rows)[i];
                rows[i] == if r.txid == Some(txid) && r.status == SENT then r.(status := CONFIRMED) else r
    {
      rows := Confirm(rows, txid);
    }

    method GetPendingTotal(minerAddress: Address) returns (total: int)
      ensures total == Sum(rows, PendingOf(minerAddress))
    {
      total := Sum(rows, PendingOf(minerAddress));
    }

    method GetTotalPaid(minerAddress: Address) returns (total: int)
      ensures total == Sum(rows, PaidOf(minerAddress))
    {
      total := Sum(rows, PaidOf(minerAddress));
    }
  }

  function PendingOf(miner: Address): Row -> bool {
    (r: Row) => r.miner == miner && r.status == PENDING
  }

  function PaidOf(miner: Address): Row -> bool {
    (r: Row) => r.miner == miner && r.status != PENDING
  }

  class PoolAccountingService {
    /** The singleton row, absent until the first block. */
    var row: Option<(int, int)>

    constructor ()
      ensures row == None
    {
      row := None;
    }

    function TotalFeeSats(): int
      reads this
    {
      if row.Some? then row.value.0 else 0
    }

    function TotalDustSats(): int
      reads this
    {
      if row.Some? then row.value.1 else 0
    }

    method AddFeeAndDust(feeSats: int, dustSats: int)
      modifies this
      ensures row.Some?
      ensures TotalFeeSats() == old(TotalFeeSats()) + feeSats
      ensures TotalDustSats() == old(TotalDustSats()) + dustSats
    {
      if row.None? {
        row := Some((0, 0));
      }
      row := Some((row.value.0 + feeSats, row.value.1 + dustSats));
    }
  }
}
