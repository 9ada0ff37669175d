/**
 * A session's share accounting in ten-minute slots, the cache of recent submissions, and the
 * difficulty suggestion drawn from it. Calls on one session are sequential.
 */
module ClientStatistics {
  import opened Options
  import opened Vardiff
  import opened LargeTargets

  const CACHE_SIZE := 30
  const SLOT_MS := 1000 * 60 * 10
  const SAVE_INTERVAL_MS := 60 * 1000

  /** One row of the statistics table of this session. */
  datatype StatRow = StatRow(time: int, shares: real, acceptedCount: nat)

  datatype Stats = Stats(shares: real, acceptedCount: nat, cache: seq<Submission>, slot: Option<int>, lastSave: int,
                         rows: seq<StatRow>)

  /** An accepted share: the clock when it is counted, its difficulty, and the clock after a write. */
  datatype Accepted = Accepted(now: int, difficulty: real, savedAt: int)

  function Slot(now: int): int {
    now / SLOT_MS * SLOT_MS
  }

  function Cached(cache: seq<Submission>, now: int, difficulty: real): seq<Submission> {
    (if |cache| > CACHE_SIZE then cache[1..] else cache) + [Submission(now, difficulty)]
  }

  function Updated(rows: seq<StatRow>, time: int, shares: real, acceptedCount: nat): (updated: seq<StatRow>)
    ensures |updated| == |rows|
  {
    seq(|rows|, i requires 0 <= i < |rows| => if rows[i].time == time then StatRow(time, shares, acceptedCount) else rows[i])
  }

  function Added(s: Stats, e: Accepted): Stats {
    var cache := Cached(s.cache, e.now, e.difficulty);
    var slot := Slot(e.now);
    if s.slot.None? then
      var shares, count := s.shares + e.difficulty, s.acceptedCount + 1;
      Stats(shares, count, cache, Some(slot), e.savedAt, s.rows + [StatRow(slot, shares, count)])
    else if s.slot.value != slot then
      Stats(e.difficulty, 1, cache, Some(slot), e.savedAt,
            Updated(s.rows, s.slot.value, s.shares, s.acceptedCount) + [StatRow(slot, e.difficulty, 1)])
    else
      var shares, count := s.shares + e.difficulty, s.acceptedCount + 1;
      if e.now - SAVE_INTERVAL_MS > s.lastSave then
        Stats(shares, count, cache, s.slot, e.savedAt, Updated(s.rows, slot, shares, count))
      else Stats(shares, count, cache, s.slot, s.lastSave, s.rows)
  }

  const NO_STATS := Stats(0.0, 0, [], None, 0, [])

  function Run(events: seq<Accepted>): Stats {
    if events == [] then NO_STATS else Added(Run(events[..|events| - 1]), events[|events| - 1])
  }

  // ---------- the exact totals ----------

  function SlotShares(events: seq<Accepted>, slot: int): real {
    if events == [] then 0.0
    else
      var last := events[|events| - 1];
      SlotShares(events[..|events| - 1], slot) + if Slot(last.now) == slot then last.difficulty else 0.0
  }

  function SlotCount(events: seq<Accepted>, slot: int): nat {
    if events == [] then 0
    else SlotCount(events[..|events| - 1], slot) + if Slot(events[|events| - 1].now) == slot then 1 else 0
  }

  function Submissions(events: seq<Accepted>): seq<Submission> {
    seq(|events|, i requires 0 <= i < |events| => Submission(events[i].now, events[i].difficulty))
  }

  ghost predicate Orderly(events: seq<Accepted>) {
    && (forall i :: 0 <= i < |events| ==> events[i].difficulty >= 0.0)
    && (forall i, j :: 0 <= i < j < |events| ==> events[i].now <= events[j].now)
  }

  ghost predicate RowExact(events: seq<Accepted>, r: StatRow) {
    r.shares == SlotShares(events, r.time) && r.acceptedCount == SlotCount(events, r.time)
  }

  /** One row per used slot in order; closed rows exact; the open slot exact in memory and never ahead in its row. */
  ghost predicate SlotsOk(events: seq<Accepted>, s: Stats)
    requires events != []
  {
    var n := |s.rows| - 1;
    && n >= 0 && s.slot == Some(s.rows[n].time) && s.slot == Some(Slot(events[|events| - 1].now))
    && (forall i, j :: 0 <= i < j < |s.rows| ==> s.rows[i].time < s.rows[j].time)
    && (forall i :: 0 <= i < n ==> RowExact(events, s.rows[i]))
    && s.shares == SlotShares(events, s.slot.value) && s.acceptedCount == SlotCount(events, s.slot.value)
    && s.rows[n].shares <= s.shares && s.rows[n].acceptedCount <= s.acceptedCount
  }

  function UsedSlots(events: seq<Accepted>): set<int> {
    if events == [] then {} else UsedSlots(events[..|events| - 1]) + {Slot(events[|events| - 1].now)}
  }

  function RowTimes(rows: seq<StatRow>): set<int> {
    if rows == [] then {} else RowTimes(rows[..|rows| - 1]) + {rows[|rows| - 1].time}
  }

  lemma SlotMonotone(a: int, b: int)
    requires a <= b
    ensures Slot(a) <= Slot(b)
  {
  }

  /** A slot later than every event so far is still empty. */
  lemma {:induction false} LaterSlotEmpty(events: seq<Accepted>, slot: int)
    requires forall i :: 0 <= i < |events| ==> Slot(events[i].now) != slot
    ensures SlotShares(events, slot) == 0.0 && SlotCount(events, slot) == 0
  {
    if events != [] { LaterSlotEmpty(events[..|events| - 1], slot); }
  }

  lemma NewSlotIsLater(events: seq<Accepted>)
    requires |events| >= 2 && Orderly(events)
    requires Slot(events[|events| - 1].now) != Slot(events[|events| - 2].now)
    ensures forall i :: 0 <= i < |events| - 1 ==> Slot(events[i].now) < Slot(events[|events| - 1].now)
  {
    var last := |events| - 1;
    forall i | 0 <= i < last ensures Slot(events[i].now) < Slot(events[last].now) {
      SlotMonotone(events[last - 1].now, events[last].now);
      if i < last - 1 { SlotMonotone(events[i].now, events[last - 1].now); }
    }
  }

  lemma AddKeepsSlots(events: seq<Accepted>, s: Stats)
    requires events != [] && Orderly(events)
    requires var before := events[..|events| - 1];
             if before == [] then s == NO_STATS else SlotsOk(before, s)
    ensures SlotsOk(events, Added(s, events[|events| - 1]))
  {
    var last := |events| - 1;
    var before, e := events[..last], events[last];
    var s' := Added(s, e);
    var slot := Slot(e.now);
    if before == [] {
      assert SlotShares(before, slot) == 0.0 && SlotCount(before, slot) == 0;
    } else {
      assert before[last - 1] == events[last - 1];
      if s.slot.value != slot {
        NewSlotIsLater(events);
        LaterSlotEmpty(before, slot);
        forall i | 0 <= i < |s.rows| ensures RowExact(events, s'.rows[i]) && s'.rows[i].time == s.rows[i].time < slot {
          assert s.rows[i].time <= s.slot.value < slot;
        }
      } else {
        forall i | 0 <= i < |s.rows| - 1 ensures s'.rows[i] == s.rows[i] && RowExact(events, s.rows[i]) {
          assert s.rows[i].time < s.slot.value && RowExact(before, s.rows[i]);
        }
      }
    }
  }

  lemma {:induction false} SlotAccounting(events: seq<Accepted>)
    requires Orderly(events) && events != []
    ensures SlotsOk(events, Run(events))
  {
    var before := events[..|events| - 1];
    if before != [] { SlotAccounting(before); }
    AddKeepsSlots(events, Run(before));
  }

  lemma {:induction false} UpdateKeepsTimes(rows: seq<StatRow>, time: int, shares: real, acceptedCount: nat)
    ensures RowTimes(Updated(rows, time, shares, acceptedCount)) == RowTimes(rows)
  {
    if rows != [] {
      var n := |rows| - 1;
      UpdateKeepsTimes(rows[..n], time, shares, acceptedCount);
      assert Updated(rows, time, shares, acceptedCount)[..n] == Updated(rows[..n], time, shares, acceptedCount);
    }
  }

  lemma RowTimesAppend(rows: seq<StatRow>, r: StatRow)
    ensures RowTimes(rows + [r]) == RowTimes(rows) + {r.time}
  {
    assert (rows + [r])[..|rows|] == rows;
  }

  lemma AddAddsSlot(s: Stats, e: Accepted)
    requires s.slot.Some? ==> s.slot.value in RowTimes(s.rows)
    ensures RowTimes(Added(s, e).rows) == RowTimes(s.rows) + {Slot(e.now)}
  {
    var s' := Added(s, e);
    var r := StatRow(Slot(e.now), e.difficulty, 1);
    if s.slot.None? {
      RowTimesAppend(s.rows, StatRow(Slot(e.now), s.shares + e.difficulty, s.acceptedCount + 1));
    } else if s.slot.value != Slot(e.now) {
      UpdateKeepsTimes(s.rows, s.slot.value, s.shares, s.acceptedCount);
      RowTimesAppend(Updated(s.rows, s.slot.value, s.shares, s.acceptedCount), r);
    } else {
      UpdateKeepsTimes(s.rows, Slot(e.now), s.shares + e.difficulty, s.acceptedCount + 1);
    }
  }

  /** The slots that have a row are exactly the slots in which a share was accepted. */
  lemma {:induction false} UsedSlotsHaveRows(events: seq<Accepted>)
    ensures RowTimes(Run(events).rows) == UsedSlots(events)
    ensures Run(events).slot == if events == [] then None else Some(Slot(events[|events| - 1].now))
  {
    if events != [] {
      UsedSlotsHaveRows(events[..|events| - 1]);
      AddAddsSlot(Run(events[..|events| - 1]), events[|events| - 1]);
    }
  }

  /** A slot is a stretch of ten minutes that starts at a multiple of ten minutes. */
  lemma SlotIs(now: int)
    ensures Slot(now) <= now < Slot(now) + 600000 && Slot(now) % 600000 == 0
  {
  }

  /**
   * A share writes the open slot's row when it is the first of its slot or comes more than a minute after the
   * last write; then the row is exact. Otherwise the rows stay as they are.
   */
  lemma RowsAreWritten(events: seq<Accepted>)
    requires Orderly(events) && events != []
    ensures var before, after, e := Run(events[..|events| - 1]), Run(events), events[|events| - 1];
            if before.slot != Some(Slot(e.now)) || e.now - before.lastSave > 60000 then
              && after.rows != [] && after.lastSave == e.savedAt
              && after.rows[|after.rows| - 1] == StatRow(Slot(e.now), after.shares, after.acceptedCount)
            else after.rows == before.rows && after.lastSave == before.lastSave
  {
    SlotAccounting(events);
    if |events| > 1 { SlotAccounting(events[..|events| - 1]); }
  }

  function Newest(all: seq<Submission>, n: nat): seq<Submission> {
    if |all| <= n then all else all[|all| - n..]
  }

  /** The cache is always the newest 31 submissions, in order. */
  lemma {:induction false} CacheIsNewest(events: seq<Accepted>)
    ensures Run(events).cache == Newest(Submissions(events), 31)
  {
    if events != [] {
      var front, e := events[..|events| - 1], events[|events| - 1];
      CacheIsNewest(front);
      CachedNewest(Submissions(front), e);
      assert Submissions(events) == Submissions(front) + [Submission(e.now, e.difficulty)];
      assert Run(events).cache == Cached(Run(front).cache, e.now, e.difficulty);
    }
  }

  lemma CachedNewest(all: seq<Submission>, e: Accepted)
    ensures Cached(Newest(all, CACHE_SIZE + 1), e.now, e.difficulty)
         == Newest(all + [Submission(e.now, e.difficulty)], CACHE_SIZE + 1)
  {
  }

  // ---------- the object ----------

  class StratumV1ClientStatistics {
    var shares: real
    var acceptedCount: nat
    const submissionCacheStart: int
    var submissionCache: seq<Submission>
    var currentTimeSlot: Option<int>
    var lastSave: int
    /** The database rows of this session. */
    var rows: seq<StatRow>

    function State(): Stats
      reads this
    {
      Stats(shares, acceptedCount, submissionCache, currentTimeSlot, lastSave, rows)
    }

    constructor (now: int)
      ensures State() == NO_STATS && submissionCacheStart == now
    {
      shares, acceptedCount, submissionCacheStart, submissionCache := 0.0, 0, now, [];
      currentTimeSlot, lastSave, rows := None, 0, [];
    }

    method AddShares(now: int, submissionDifficulty: real, savedAt: int)
      modifies this
      ensures State() == Added(old(State()), Accepted(now, submissionDifficulty, savedAt))
    {
      var timeSlot := now / SLOT_MS * SLOT_MS;
      if |submissionCache| > CACHE_SIZE {
        submissionCache := submissionCache[1..];
      }
      submissionCache := submissionCache + [Submission(now, submissionDifficulty)];
      if currentTimeSlot.None? {
        currentTimeSlot := Some(timeSlot);
        shares, acceptedCount := shares + submissionDifficulty, acceptedCount + 1;
        Insert(timeSlot);
        lastSave := savedAt;
      } else if currentTimeSlot.value != timeSlot {
        Update(currentTimeSlot.value);
        currentTimeSlot := Some(timeSlot);
        shares, acceptedCount := submissionDifficulty, 1;
        Insert(timeSlot);
        lastSave := savedAt;
      } else if now - SAVE_INTERVAL_MS > lastSave {
        shares, acceptedCount := shares + submissionDifficulty, acceptedCount + 1;
        Update(timeSlot);
        lastSave := savedAt;
      } else {
        shares, acceptedCount := shares + submissionDifficulty, acceptedCount + 1;
      }
    }

    method Insert(time: int)
      modifies this`rows
      ensures rows == old(rows) + [StatRow(time, shares, acceptedCount)]
    {
      rows := rows + [StatRow(time, shares, acceptedCount)];
    }

    method Update(time: int)
      modifies this`rows
      ensures rows == Updated(old(rows), time, shares, acceptedCount)
    {
      rows := Updated(rows, time, shares, acceptedCount);
    }

    /** The suggestion, on a call stack with room for `depth` nested calls. */
    method GetSuggestedDifficulty(now: int, clientDifficulty: real, depth: nat) returns (suggestion: Call)
      requires forall i :: 0 <= i < |submissionCache| ==> submissionCache[i].difficulty >= 0.0
      ensures suggestion ==
              if |submissionCache| < 5 then
                if (now - submissionCacheStart) as real / 1000.0 > 60.0 then NearestPower(Finite(clientDifficulty / 6.0), depth)
                else Returned(None)
              else Suggestion(submissionCache, clientDifficulty, depth)
    {
      if |submissionCache| < 5 {
        if (now - submissionCacheStart) as real / 1000.0 > 60.0 {
          return NearestPower(Finite(clientDifficulty / 6.0), depth);
        }
        return Returned(None);
      }
      var sum := 0.0;
      for i := 0 to |submissionCache|
        invariant sum == SumDifficulty(submissionCache[..i])
      {
        assert submissionCache[..i + 1][..i] == submissionCache[..i];
        sum := sum + submissionCache[i].difficulty;
      }
      assert submissionCache[..|submissionCache|] == submissionCache;
      suggestion := Suggest(sum, clientDifficulty, depth);
    }

    /** The part after the sum. */
    method Suggest(sum: real, clientDifficulty: real, depth: nat) returns (suggestion: Call)
      requires submissionCache != [] && sum == SumDifficulty(submissionCache)
      ensures suggestion == Suggestion(submissionCache, clientDifficulty, depth)
    {
      var diffSeconds := SpanSeconds(submissionCache);
      if diffSeconds == 0.0 && sum == 0.0 {
        return Returned(None);
      }
      var targetDifficulty :=
        if diffSeconds == 0.0 then Infinity else Finite(sum / diffSeconds * TARGET_SUBMISSION_PER_SECOND);
      if OffTarget(clientDifficulty, targetDifficulty) {
        return NearestPower(targetDifficulty, depth);
      }
      suggestion := Returned(None);
    }
  }
}
