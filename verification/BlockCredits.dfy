/** Crediting a block in the step system writes the books exactly as the reward calculator does. */
module BlockCredits {
  import opened Ledger
  import opened PayoutRuns
  import opened Options
  import RewardSplit

  /** The credits a block has still to write, from the k-th miner on. */
  function Owing(order: seq<Address>, totals: map<Address, int>, k: nat): seq<PayoutRuns.Credit>
    requires k <= |order| && forall m :: m in order ==> m in totals
  {
    seq(|order| - k, i requires 0 <= i < |order| - k => PayoutRuns.Credit(order[k + i], totals[order[k + i]]))
  }

  function Times(n: nat, e: Event): seq<Event> {
    seq(n, _ => e)
  }

  /** The world after the first n credits of block b. */
  function Written(w: World, b: nat, order: seq<Address>, totals: map<Address, int>, n: nat): World
    requires b < |w.blocks| && n <= |order| && forall m :: m in order ==> m in totals
  {
    var block := w.blocks[b];
    var rows := RewardSplit.Credits(order[..n], totals, w.nextId, block.height);
    w.(rows := w.rows + rows, nextId := w.nextId + |rows|,
       blocks := w.blocks[b := block.(rest := Owing(order, totals, n), credited := Sum(rows, Any))])
  }

  lemma OneMoreCredit(rows: seq<Row>, nextId: nat, order: seq<Address>, totals: map<Address, int>, n: nat, height: int)
    requires n < |order| && forall m :: m in order ==> m in totals
    ensures var front := RewardSplit.Credits(order[..n], totals, nextId, height);
            var more := RewardSplit.Credits(order[..n + 1], totals, nextId, height);
            var amount := totals[order[n]];
            && Inserted(rows + front, nextId + |front|, order[n], amount, height) == rows + more
            && |more| == |front| + (if amount <= 0 then 0 else 1)
            && Sum(more, Any) == Sum(front, Any) + if amount <= 0 then 0 else amount
  {
    assert order[..n + 1][..n] == order[..n];
    var front := RewardSplit.Credits(order[..n], totals, nextId, height);
    SumAppend(front, Row(nextId + |front|, order[n], height, totals[order[n]], PENDING, None), Any);
  }

  lemma OneMoreWritten(w: World, b: nat, order: seq<Address>, totals: map<Address, int>, n: nat)
    requires b < |w.blocks| && n < |order| && (forall m :: m in order ==> m in totals) && !w.blocks[b].finished
    ensures Step(Written(w, b, order, totals, n), Credited(b)) == Written(w, b, order, totals, n + 1)
  {
    var before, after := Written(w, b, order, totals, n), Written(w, b, order, totals, n + 1);
    OneMoreCredit(w.rows, w.nextId, order, totals, n, w.blocks[b].height);
    assert Owing(order, totals, n)[1..] == Owing(order, totals, n + 1);
    var rest := before.blocks[b].rest;
    assert rest[0] == PayoutRuns.Credit(order[n], totals[order[n]]);
    var next := CreditStep(before, b);
    assert next.rows == after.rows && next.nextId == after.nextId;
    assert next.blocks[b] == after.blocks[b];
    assert next.blocks == after.blocks;
  }

  /** After a prefix that leads to w1, n credits of its block. */
  lemma {:induction false} CreditsAreWritten(w: World, prefix: seq<Event>, w1: World, b: nat, order: seq<Address>,
                                             totals: map<Address, int>, n: nat)
    requires w1 == Run(w, prefix) && b < |w1.blocks| && n <= |order| && forall m :: m in order ==> m in totals
    requires !w1.blocks[b].finished && w1.blocks[b].rest == Owing(order, totals, 0) && w1.blocks[b].credited == 0
    ensures Run(w, prefix + Times(n, Credited(b))) == Written(w1, b, order, totals, n)
  {
    if n == 0 {
      NothingWritten(w1, b, order, totals);
      assert prefix + Times(0, Credited(b)) == prefix;
    } else {
      CreditsAreWritten(w, prefix, w1, b, order, totals, n - 1);
      OneMoreEvent(w, prefix + Times(n - 1, Credited(b)), w1, b, order, totals, n - 1);
      OneMoreTime(prefix, n - 1, Credited(b));
    }
  }

  lemma OneMoreTime(prefix: seq<Event>, n: nat, e: Event)
    ensures (prefix + Times(n, e)) + [e] == prefix + Times(n + 1, e)
  {
  }

  lemma NothingWritten(w: World, b: nat, order: seq<Address>, totals: map<Address, int>)
    requires b < |w.blocks| && (forall m :: m in order ==> m in totals)
    requires w.blocks[b].rest == Owing(order, totals, 0) && w.blocks[b].credited == 0
    ensures Written(w, b, order, totals, 0) == w
  {
    assert w.blocks[b := w.blocks[b]] == w.blocks && w.rows + [] == w.rows;
  }

  lemma OneMoreEvent(w: World, events: seq<Event>, w1: World, b: nat, order: seq<Address>, totals: map<Address, int>, n: nat)
    requires b < |w1.blocks| && n < |order| && (forall m :: m in order ==> m in totals) && !w1.blocks[b].finished
    requires Run(w, events) == Written(w1, b, order, totals, n)
    ensures Run(w, events + [Credited(b)]) == Written(w1, b, order, totals, n + 1)
  {
    RunSnoc(w, events, Credited(b));
    OneMoreWritten(w1, b, order, totals, n);
  }

  lemma RunSnoc(w: World, events: seq<Event>, e: Event)
    ensures Run(w, events + [e]) == Step(Run(w, events), e)
  {
    assert (events + [e])[..|events|] == events;
  }

  /**
   * Started, credited and finished with nothing in between, a block adds to rows, fee and dust just
   * what the reward calculator adds for the same per-miner totals.
   */
  lemma BlockRunIsOneBooking(w: World, height: int, reward: int, distributable: int, order: seq<Address>,
                             totals: map<Address, int>)
    requires forall m :: m in order ==> m in totals
    ensures var b := |w.blocks|;
            var events := [BlockStarted(height, reward, distributable, Owing(order, totals, 0))]
                          + Times(|order|, Credited(b)) + [BlockFinished(b)];
            var credits := RewardSplit.Credits(order, totals, w.nextId, height);
            var w' := Run(w, events);
            && w'.rows == w.rows + credits && w'.nextId == w.nextId + |credits|
            && w'.fee == w.fee + reward - distributable
            && w'.dust == w.dust + distributable - Sum(credits, Any)
            && w'.phase == w.phase && w'.payments == w.payments
  {
    var b := |w.blocks|;
    var start := BlockStarted(height, reward, distributable, Owing(order, totals, 0));
    var w1 := Step(w, start);
    var middle := [start] + Times(|order|, Credited(b));
    RunSnoc(w, [], start);
    assert [] + [start] == [start];
    CreditsAreWritten(w, [start], w1, b, order, totals, |order|);
    assert order[..|order|] == order;
    RunSnoc(w, middle, BlockFinished(b));
  }

  ghost predicate SameBooks(w: World, books: RewardSplit.Books) {
    w.rows == books.rows && w.nextId == books.nextId && w.fee == books.fee && w.dust == books.dust
  }

  /** The reward calculator's call, followed in the step system: it is one block run, for the totals it wrote. */
  method ProcessBlockFound(calculator: RewardSplit.RewardCalculatorService, blockHeight: int, blockRewardSats: int, now: int,
                           ghost w: World) returns (ghost events: seq<Event>)
    requires calculator.Valid() && SameBooks(w, calculator.AllBooks())
    modifies calculator.payoutLedger, calculator.poolAccounting
    ensures calculator.Valid()
    ensures SameBooks(Run(w, events), calculator.AllBooks())
    ensures Run(w, events).phase == w.phase && Run(w, events).payments == w.payments
  {
    ghost var counted, order, totals := calculator.ProcessBlockFound(blockHeight, blockRewardSats, now);
    ghost var kept := RewardSplit.NotFee(counted, blockRewardSats, calculator.Distributable(blockRewardSats));
    BlockRunIsOneBooking(w, blockHeight, blockRewardSats, kept, order, totals);
    events := [BlockStarted(blockHeight, blockRewardSats, kept, Owing(order, totals, 0))]
              + Times(|order|, Credited(|w.blocks|)) + [BlockFinished(|w.blocks|)];
  }
}
