/**
 * The share log behind the payout window. Old shares are pruned; the log that would exist without
 * pruning is kept beside it as a ghost.
 */
module ShareLog {
  import opened Options

  const PRUNE_SAFETY_MARGIN_MINUTES := 60
  const MINUTE_MS := 60 * 1000

  datatype Share = Share(minerAddress: string, difficulty: real, timestamp: int, blockHeightAtSubmission: int)

  /** `pruned` and `complete` are the two logs; `horizon` is the highest cutoff used so far. */
  datatype Logs = Logs(pruned: seq<Share>, complete: seq<Share>, horizon: Option<int>, clock: int)

  datatype Event = Recorded(now: int, minerAddress: string, difficulty: real, blockHeight: int)
                 | Pruned(now: int, windowMinutes: int)

  /** The shares from a moment on, in log order. */
  function Since(log: seq<Share>, start: int): seq<Share> {
    if log == [] then []
    else
      var front := Since(log[..|log| - 1], start);
      if log[|log| - 1].timestamp >= start then front + [log[|log| - 1]] else front
  }

  function Cutoff(now: int, windowMinutes: int): int {
    now - windowMinutes * MINUTE_MS - PRUNE_SAFETY_MARGIN_MINUTES * MINUTE_MS
  }

  function WindowStart(now: int, windowMinutes: int): int {
    now - windowMinutes * MINUTE_MS
  }

  function Max(horizon: Option<int>, cutoff: int): int {
    if horizon.Some? && horizon.value > cutoff then horizon.value else cutoff
  }

  function Step(s: Logs, e: Event): Logs {
    match e
    case Recorded(now, minerAddress, difficulty, blockHeight) =>
      var share := Share(minerAddress, difficulty, now, blockHeight);
      Logs(s.pruned + [share], s.complete + [share], s.horizon, now)
    case Pruned(now, windowMinutes) =>
      var cutoff := Cutoff(now, windowMinutes);
      Logs(Since(s.pruned, cutoff), s.complete, Some(Max(s.horizon, cutoff)), now)
  }

  function Run(events: seq<Event>, start: int): Logs {
    if events == [] then Logs([], [], None, start) else Step(Run(events[..|events| - 1], start), events[|events| - 1])
  }

  /** The clock never goes back, and a window is a positive number of minutes. */
  predicate Orderly(events: seq<Event>, start: int) {
    events == [] ||
    var last := events[|events| - 1];
    && Orderly(events[..|events| - 1], start)
    && Run(events[..|events| - 1], start).clock <= last.now
    && (last.Pruned? ==> last.windowMinutes > 0)
  }

  // ---------- the invariant ----------

  function Kept(complete: seq<Share>, horizon: Option<int>): seq<Share> {
    if horizon.None? then complete else Since(complete, horizon.value)
  }

  /** The pruned log is the complete one from the horizon on, and the horizon is in the past. */
  ghost predicate Inv(s: Logs) {
    s.pruned == Kept(s.complete, s.horizon) && (s.horizon.Some? ==> s.horizon.value <= s.clock)
  }

  lemma {:induction false} SinceSince(log: seq<Share>, a: int, b: int)
    ensures Since(Since(log, a), b) == Since(log, if a < b then b else a)
  {
    if log != [] {
      var n := |log| - 1;
      SinceSince(log[..n], a, b);
      var front := Since(log[..n], a);
      if log[n].timestamp >= a {
        assert (front + [log[n]])[..|front|] == front;
      }
    }
  }

  lemma StepKeepsInv(s: Logs, e: Event)
    requires Inv(s) && s.clock <= e.now && (e.Pruned? ==> e.windowMinutes > 0)
    ensures Inv(Step(s, e))
  {
    match e
    case Recorded(now, m, d, h) =>
      var share := Share(m, d, now, h);
      assert (s.complete + [share])[..|s.complete|] == s.complete;
    case Pruned(now, windowMinutes) =>
      if s.horizon.Some? { SinceSince(s.complete, s.horizon.value, Cutoff(now, windowMinutes)); }
  }

  lemma {:induction false} RunKeepsInv(events: seq<Event>, start: int)
    requires Orderly(events, start)
    ensures Inv(Run(events, start))
  {
    if events != [] {
      RunKeepsInv(events[..|events| - 1], start);
      StepKeepsInv(Run(events[..|events| - 1], start), events[|events| - 1]);
    }
  }

  // ---------- pruning is invisible ----------

  /** The query keeps every share from the start on, as often as it was logged, and nothing else. */
  lemma {:induction false} SinceExactly(log: seq<Share>, start: int, s: Share)
    ensures multiset(Since(log, start))[s] == if s.timestamp >= start then multiset(log)[s] else 0
  {
    if log != [] {
      var n := |log| - 1;
      SinceExactly(log[..n], start, s);
      assert log == log[..n] + [log[n]];
    }
  }

  predicate NoneBetween(log: seq<Share>, a: int, b: int) {
    forall i :: 0 <= i < |log| && log[i].timestamp >= a ==> log[i].timestamp >= b
  }

  lemma {:induction false} SinceSameIff(log: seq<Share>, a: int, b: int)
    requires a <= b
    ensures |Since(log, b)| <= |Since(log, a)|
    ensures Since(log, b) == Since(log, a) <==> NoneBetween(log, a, b)
  {
    if log != [] {
      var n := |log| - 1;
      SinceSameIff(log[..n], a, b);
      assert NoneBetween(log, a, b) <==> NoneBetween(log[..n], a, b) && (log[n].timestamp >= a ==> log[n].timestamp >= b) by {
        assert forall i :: 0 <= i < n ==> log[..n][i] == log[i];
      }
      var older, newer := Since(log[..n], a), Since(log[..n], b);
      assert (older + [log[n]])[..|older|] == older && (newer + [log[n]])[..|newer|] == newer;
    }
  }

  /** A query sees the pruned log as the complete one exactly when no complete share lies between its start and the horizon. */
  lemma QueryUnchangedIff(events: seq<Event>, start: int, from: int)
    requires Orderly(events, start)
    ensures var s := Run(events, start);
            Since(s.pruned, from) == Since(s.complete, from) <==>
              s.horizon.None? || NoneBetween(s.complete, from, s.horizon.value)
  {
    var s := Run(events, start);
    RunKeepsInv(events, start);
    if s.horizon.Some? {
      SinceSince(s.complete, s.horizon.value, from);
      if from <= s.horizon.value { SinceSameIff(s.complete, from, s.horizon.value); }
    }
  }

  lemma {:induction false} HorizonBehindWindow(events: seq<Event>, start: int, now: int, windowMinutes: int)
    requires Orderly(events, start) && Run(events, start).clock <= now
    requires forall k :: 0 <= k < |events| && events[k].Pruned? ==>
               windowMinutes <= events[k].windowMinutes + PRUNE_SAFETY_MARGIN_MINUTES
    ensures var s := Run(events, start);
            s.horizon.Some? ==> s.horizon.value <= WindowStart(now, windowMinutes)
  {
    if events != [] {
      var n := |events| - 1;
      forall k | 0 <= k < n && events[..n][k].Pruned?
        ensures windowMinutes <= events[..n][k].windowMinutes + PRUNE_SAFETY_MARGIN_MINUTES
      {
        assert events[..n][k] == events[k];
      }
      HorizonBehindWindow(events[..n], start, now, windowMinutes);
    }
  }

  /**
   * Over every run with a non-decreasing clock, the window query gives what the never-pruned log would
   * give, even with a window up to 60 minutes wider than those used for pruning.
   */
  lemma PruningIsInvisible(events: seq<Event>, start: int, now: int, windowMinutes: int)
    requires Orderly(events, start) && Run(events, start).clock <= now
    requires forall k :: 0 <= k < |events| && events[k].Pruned? ==> windowMinutes <= events[k].windowMinutes + 60
    ensures var s := Run(events, start);
            Since(s.pruned, now - windowMinutes * 60000) == Since(s.complete, now - windowMinutes * 60000)
  {
    HorizonBehindWindow(events, start, now, windowMinutes);
    QueryUnchangedIff(events, start, WindowStart(now, windowMinutes));
  }

  // ---------- the service ----------

  class PplnsShareLogService {
    var log: seq<Share>
    ghost var complete: seq<Share>
    ghost var horizon: Option<int>
    ghost var clock: int

    ghost function State(): Logs
      reads this
    {
      Logs(log, complete, horizon, clock)
    }

    constructor (now: int)
      ensures State() == Run([], now)
    {
      log, complete, horizon, clock := [], [], None, now;
    }

    method Record(now: int, minerAddress: string, difficulty: real, blockHeight: int)
      modifies this
      ensures State() == Step(old(State()), Recorded(now, minerAddress, difficulty, blockHeight))
      ensures log == old(log) + [Share(minerAddress, difficulty, now, blockHeight)]
    {
      var share := Share(minerAddress, difficulty, now, blockHeight);
      log := log + [share];
      complete, clock := complete + [share], now;
    }

    /** The hourly sweep: a share goes exactly when it is older than the window and sixty minutes more. */
    method Sweep(now: int, windowMinutes: int)
      modifies this
      ensures State() == Step(old(State()), Pruned(now, windowMinutes))
      ensures forall s: Share :: multiset(log)[s] == if now - s.timestamp > windowMinutes * 60000 + 3600000 then 0
                                              else multiset(old(log))[s]
    {
      forall s: Share ensures multiset(Since(log, Cutoff(now, windowMinutes)))[s]
                    == if now - s.timestamp > windowMinutes * 60000 + 3600000 then 0 else multiset(log)[s]
      {
        SinceExactly(log, Cutoff(now, windowMinutes), s);
      }
      var cutoffMs := now - windowMinutes * 60 * 1000 - PRUNE_SAFETY_MARGIN_MINUTES * 60 * 1000;
      PruneOlderThan(cutoffMs);
      horizon, clock := Some(Max(horizon, cutoffMs)), now;
    }

    method PruneOlderThan(cutoffMs: int)
      modifies this`log
      ensures log == Since(old(log), cutoffMs)
    {
      log := Since(log, cutoffMs);
    }

    /** With the log's invariant and a start not before the horizon, what the never-pruned log would give. */
    method GetSharesInWindow(windowStartMs: int) returns (shares: seq<Share>)
      ensures shares == Since(log, windowStartMs)
      ensures Inv(State()) && (horizon.None? || horizon.value <= windowStartMs) ==> shares == Since(complete, windowStartMs)
    {
      if horizon.Some? { SinceSince(complete, horizon.value, windowStartMs); }
      shares := Since(log, windowStartMs);
    }
  }
}
