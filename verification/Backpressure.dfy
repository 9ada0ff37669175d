/** Pausing and resuming the Stratum listeners under load, with hysteresis. */
module Backpressure {

  datatype Listener = Listener(port: int, listening: bool, paused: bool)

  datatype Limits = Limits(overloadP95Ms: int, overloadRssMb: int, resumeP95Ms: int, resumeRssMb: int, healthyChecks: nat)

  datatype Sample = Sample(eventLoopP95Ms: int, rssMb: int)

  datatype Monitor = Monitor(listeners: seq<Listener>, healthyChecks: nat)

  datatype Event = Started(port: int) | Checked(sample: Sample)

  predicate Overloaded(s: Sample, limits: Limits) {
    s.eventLoopP95Ms >= limits.overloadP95Ms || s.rssMb >= limits.overloadRssMb
  }

  predicate Healthy(s: Sample, limits: Limits) {
    s.eventLoopP95Ms <= limits.resumeP95Ms && s.rssMb <= limits.resumeRssMb
  }

  predicate AnyPaused(listeners: seq<Listener>) {
    exists i :: 0 <= i < |listeners| && listeners[i].paused
  }

  function Paused(l: Listener): Listener {
    if l.paused || !l.listening then l else l.(listening := false, paused := true)
  }

  function Resumed(l: Listener): Listener {
    if !l.paused || l.listening then l else l.(listening := true, paused := false)
  }

  function EachPaused(listeners: seq<Listener>): seq<Listener> {
    seq(|listeners|, i requires 0 <= i < |listeners| => Paused(listeners[i]))
  }

  function EachResumed(listeners: seq<Listener>): seq<Listener> {
    seq(|listeners|, i requires 0 <= i < |listeners| => Resumed(listeners[i]))
  }

  function AfterCheck(m: Monitor, s: Sample, limits: Limits): Monitor {
    var paused := AnyPaused(m.listeners);
    if Overloaded(s, limits) then Monitor(if paused then m.listeners else EachPaused(m.listeners), 0)
    else if !paused then m
    else if !Healthy(s, limits) then m.(healthyChecks := 0)
    else if m.healthyChecks + 1 >= limits.healthyChecks then Monitor(EachResumed(m.listeners), 0)
    else m.(healthyChecks := m.healthyChecks + 1)
  }

  function Step(m: Monitor, e: Event, limits: Limits): Monitor {
    match e
    case Started(port) => m.(listeners := m.listeners + [Listener(port, true, false)])
    case Checked(sample) => AfterCheck(m, sample, limits)
  }

  function Run(events: seq<Event>, limits: Limits): Monitor {
    if events == [] then Monitor([], 0) else Step(Run(events[..|events| - 1], limits), events[|events| - 1], limits)
  }

  /** How many checks in a row, up to now, were healthy and not overloaded. */
  function HealthyStreak(events: seq<Event>, limits: Limits): nat {
    if events == [] then 0
    else
      var before := HealthyStreak(events[..|events| - 1], limits);
      match events[|events| - 1]
      case Started(_) => before
      case Checked(sample) => if Overloaded(sample, limits) || !Healthy(sample, limits) then 0 else before + 1
  }

  /** Paused means not listening; the counter never runs ahead of the healthy streak and rests at 0 while nothing is paused. */
  ghost predicate Inv(m: Monitor, streak: nat) {
    && (forall i :: 0 <= i < |m.listeners| ==> m.listeners[i].paused == !m.listeners[i].listening)
    && m.healthyChecks <= streak
    && (!AnyPaused(m.listeners) ==> m.healthyChecks == 0)
  }

  lemma {:induction false} RunKeepsInv(events: seq<Event>, limits: Limits)
    ensures Inv(Run(events, limits), HealthyStreak(events, limits))
  {
    if events != [] {
      var before := Run(events[..|events| - 1], limits);
      RunKeepsInv(events[..|events| - 1], limits);
      var e := events[|events| - 1];
      if e.Started? {
        var m := Step(before, e, limits);
        assert forall i :: 0 <= i < |before.listeners| ==> m.listeners[i] == before.listeners[i];
      }
    }
  }

  /** A started listener is paused exactly when it has no server. */
  lemma PausedIffNotListening(events: seq<Event>, limits: Limits, i: nat)
    requires i < |Run(events, limits).listeners|
    ensures var l := Run(events, limits).listeners[i]; l.paused <==> !l.listening
  {
    RunKeepsInv(events, limits);
  }

  predicate Pauses(m: Monitor, m': Monitor) {
    exists i :: 0 <= i < |m.listeners| && i < |m'.listeners| && !m.listeners[i].paused && m'.listeners[i].paused
  }

  predicate Resumes(m: Monitor, m': Monitor) {
    exists i :: 0 <= i < |m.listeners| && i < |m'.listeners| && m.listeners[i].paused && !m'.listeners[i].paused
  }

  /** No check does both. */
  lemma NeverBoth(m: Monitor, s: Sample, limits: Limits)
    ensures !(Pauses(m, AfterCheck(m, s, limits)) && Resumes(m, AfterCheck(m, s, limits)))
  {
    assert forall l: Listener :: l.paused ==> Paused(l).paused;
    assert forall l: Listener :: !l.paused ==> !Resumed(l).paused;
  }

  /** A resume is the last of at least N healthy, non-overloaded checks in a row; a pause restarts the count. */
  lemma ResumeNeedsHealthyStreak(events: seq<Event>, limits: Limits)
    requires events != []
    requires Resumes(Run(events[..|events| - 1], limits), Run(events, limits))
    ensures HealthyStreak(events, limits) >= limits.healthyChecks
  {
    RunKeepsInv(events[..|events| - 1], limits);
    var before, e := Run(events[..|events| - 1], limits), events[|events| - 1];
    assert forall l: Listener :: l.paused ==> Paused(l).paused;
  }

  function CheckCount(events: seq<Event>): nat {
    if events == [] then 0
    else CheckCount(events[..|events| - 1]) + if events[|events| - 1].Checked? then 1 else 0
  }

  /** Each of the checks that make up a streak was within the resume limits and under the overload ones. */
  lemma {:induction false} StreakIsHealthy(events: seq<Event>, limits: Limits, i: nat)
    requires i < |events| && events[i].Checked? && CheckCount(events[i..]) <= HealthyStreak(events, limits)
    ensures var s := events[i].sample;
            && s.eventLoopP95Ms <= limits.resumeP95Ms && s.rssMb <= limits.resumeRssMb
            && s.eventLoopP95Ms < limits.overloadP95Ms && s.rssMb < limits.overloadRssMb
  {
    var n := |events| - 1;
    var tail := events[i..];
    assert tail[|tail| - 1] == events[n] && tail[..|tail| - 1] == events[..n][i..];
    if i < n {
      assert events[..n][i] == events[i];
      AtLeastOneCheck(events[..n][i..]);
      StreakIsHealthy(events[..n], limits, i);
    } else {
      assert tail[..0] == [];
    }
  }

  lemma {:induction false} AtLeastOneCheck(events: seq<Event>)
    requires events != [] && events[0].Checked?
    ensures CheckCount(events) >= 1
  {
    if |events| > 1 { AtLeastOneCheck(events[..|events| - 1]); }
  }

  /** When a listener resumes, each of the last N checks was within the resume limits and under the overload ones. */
  lemma ResumeMeansHealthyChecks(events: seq<Event>, limits: Limits, i: nat)
    requires events != []
    requires Resumes(Run(events[..|events| - 1], limits), Run(events, limits))
    requires i < |events| && events[i].Checked? && CheckCount(events[i..]) <= limits.healthyChecks
    ensures var s := events[i].sample;
            && s.eventLoopP95Ms <= limits.resumeP95Ms && s.rssMb <= limits.resumeRssMb
            && s.eventLoopP95Ms < limits.overloadP95Ms && s.rssMb < limits.overloadRssMb
  {
    ResumeNeedsHealthyStreak(events, limits);
    StreakIsHealthy(events, limits, i);
  }

  lemma PauseEndsStreak(events: seq<Event>, limits: Limits)
    requires events != []
    requires Pauses(Run(events[..|events| - 1], limits), Run(events, limits))
    ensures HealthyStreak(events, limits) == 0
  {
    assert forall l: Listener :: !l.paused ==> !Resumed(l).paused;
  }

  /** n healthy checks in a row. */
  function Checks(m: Monitor, samples: seq<Sample>, limits: Limits): Monitor {
    if samples == [] then m else AfterCheck(Checks(m, samples[..|samples| - 1], limits), samples[|samples| - 1], limits)
  }

  /** From a paused state, healthy checks resume every listener as soon as the count is full, and not before. */
  lemma {:induction false} HealthyChecksResume(m: Monitor, samples: seq<Sample>, limits: Limits)
    requires AnyPaused(m.listeners) && m.healthyChecks + |samples| <= limits.healthyChecks && samples != []
    requires forall i :: 0 <= i < |m.listeners| ==> m.listeners[i].paused == !m.listeners[i].listening
    requires forall k :: 0 <= k < |samples| ==>
               && samples[k].eventLoopP95Ms <= limits.resumeP95Ms && samples[k].rssMb <= limits.resumeRssMb
               && samples[k].eventLoopP95Ms < limits.overloadP95Ms && samples[k].rssMb < limits.overloadRssMb
    ensures var m' := Checks(m, samples, limits);
            if m.healthyChecks + |samples| < limits.healthyChecks then
              m' == m.(healthyChecks := m.healthyChecks + |samples|)
            else
              && m'.healthyChecks == 0 && |m'.listeners| == |m.listeners|
              && forall i :: 0 <= i < |m'.listeners| ==> m'.listeners[i] == m.listeners[i].(listening := true, paused := false)
  {
    var n := |samples| - 1;
    if n > 0 {
      HealthyChecksResume(m, samples[..n], limits);
    }
    assert Checks(m, samples[..n], limits) == m.(healthyChecks := m.healthyChecks + n);
  }

  predicate AllPaused(listeners: seq<Listener>) {
    forall i :: 0 <= i < |listeners| ==> listeners[i].paused
  }

  lemma OverloadedCheck(m: Monitor, s: Sample, limits: Limits)
    requires Overloaded(s, limits)
    requires forall i :: 0 <= i < |m.listeners| ==> m.listeners[i].paused == !m.listeners[i].listening
    ensures var m' := AfterCheck(m, s, limits);
            && (forall i :: 0 <= i < |m'.listeners| ==> m'.listeners[i].paused == !m'.listeners[i].listening)
            && (AnyPaused(m.listeners) ==> m'.listeners == m.listeners)
            && (!AnyPaused(m.listeners) ==> AllPaused(m'.listeners))
  {
    if !AnyPaused(m.listeners) {
      assert forall i :: 0 <= i < |m.listeners| ==> Paused(m.listeners[i]).paused;
    }
  }

  /**
   * However many overloaded checks follow each other, they leave every listener paused exactly when the
   * first of them found none paused or all of them.
   */
  lemma {:induction false} OverloadPausesAllIff(m: Monitor, samples: seq<Sample>, limits: Limits)
    requires samples != [] && forall k :: 0 <= k < |samples| ==> Overloaded(samples[k], limits)
    requires forall i :: 0 <= i < |m.listeners| ==> m.listeners[i].paused == !m.listeners[i].listening
    ensures var after := Checks(m, samples, limits).listeners;
            && (forall i :: 0 <= i < |after| ==> after[i].paused == !after[i].listening)
            && (AllPaused(after) <==> !AnyPaused(m.listeners) || AllPaused(m.listeners))
  {
    var n := |samples| - 1;
    if n == 0 {
      assert Checks(m, samples[..0], limits) == m;
      OverloadedCheck(m, samples[0], limits);
    } else {
      OverloadPausesAllIff(m, samples[..n], limits);
      OverloadedCheck(Checks(m, samples[..n], limits), samples[n], limits);
    }
  }

  function Starts(events: seq<Event>): nat {
    if events == [] then 0
    else Starts(events[..|events| - 1]) + if events[|events| - 1].Started? then 1 else 0
  }

  lemma {:induction false} ListenersAreStarts(events: seq<Event>, limits: Limits)
    ensures |Run(events, limits).listeners| == Starts(events)
  {
    if events != [] { ListenersAreStarts(events[..|events| - 1], limits); }
  }

  /** Between the k-th event and the end no healthy streak was long enough to resume. */
  ghost predicate NoLongStreak(events: seq<Event>, k: nat, limits: Limits) {
    forall j :: k <= j <= |events| ==> HealthyStreak(events[..j], limits) < limits.healthyChecks
  }

  lemma NoLongStreakBefore(events: seq<Event>, k: nat, limits: Limits)
    requires k < |events| && NoLongStreak(events, k, limits)
    ensures NoLongStreak(events[..|events| - 1], k, limits) && HealthyStreak(events, limits) < limits.healthyChecks
  {
    var front := events[..|events| - 1];
    forall j {:trigger front[..j]} | k <= j <= |front| ensures HealthyStreak(front[..j], limits) < limits.healthyChecks {
      assert front[..j] == events[..j];
    }
    assert events[..|events|] == events;
  }

  lemma CheckStaysPaused(m: Monitor, s: Sample, limits: Limits, streak: nat)
    requires AllPaused(m.listeners) && m.healthyChecks <= streak
    requires !Overloaded(s, limits) && Healthy(s, limits) ==> streak + 1 < limits.healthyChecks
    ensures AllPaused(AfterCheck(m, s, limits).listeners)
  {
  }

  /**
   * The pool starts one listener. From an overloaded check after its start on, it accepts nobody until N
   * healthy, non-overloaded checks in a row have passed, in any run.
   */
  lemma OverloadStopsAccepting(events: seq<Event>, k: nat, limits: Limits)
    requires Starts(events) <= 1 && k < |events| && Starts(events[..k]) == Starts(events)
    requires events[k].Checked? && NoLongStreak(events, k + 1, limits)
    requires events[k].sample.eventLoopP95Ms >= limits.overloadP95Ms || events[k].sample.rssMb >= limits.overloadRssMb
    ensures var listeners := Run(events, limits).listeners;
            forall i :: 0 <= i < |listeners| ==> listeners[i].paused && !listeners[i].listening
  {
    OverloadPausesAll(events, k, limits);
    RunKeepsInv(events, limits);
  }

  lemma {:induction false} OverloadPausesAll(events: seq<Event>, k: nat, limits: Limits)
    requires Starts(events) <= 1 && k < |events| && Starts(events[..k]) == Starts(events)
    requires events[k].Checked? && Overloaded(events[k].sample, limits) && NoLongStreak(events, k + 1, limits)
    ensures AllPaused(Run(events, limits).listeners)
  {
    var n := |events| - 1;
    var before := Run(events[..n], limits);
    RunKeepsInv(events[..n], limits);
    if k == n {
      ListenersAreStarts(events[..n], limits);
      OverloadedCheck(before, events[n].sample, limits);
    } else {
      assert events[..n][..k] == events[..k] && events[..n][k] == events[k];
      StartsMonotone(events[..n], k);
      NoLongStreakBefore(events, k + 1, limits);
      OverloadPausesAll(events[..n], k, limits);
      CheckStaysPaused(before, events[n].sample, limits, HealthyStreak(events[..n], limits));
    }
  }

  lemma {:induction false} StartsMonotone(events: seq<Event>, k: nat)
    requires k <= |events|
    ensures Starts(events[..k]) <= Starts(events)
  {
    if k == |events| {
      assert events[..k] == events;
    } else {
      StartsMonotone(events[..|events| - 1], k);
      assert events[..|events| - 1][..k] == events[..k];
    }
  }

  /** With a second listener, started during a pause, this would fail: it goes on accepting through any overload. */
  lemma SecondListenerWouldGoOn(samples: seq<Sample>, limits: Limits)
    requires samples != [] && forall k :: 0 <= k < |samples| ==> Overloaded(samples[k], limits)
    ensures var paused := Run([Started(1), Checked(samples[0]), Started(2)], limits);
            var after := Checks(paused, samples, limits).listeners;
            after == [Listener(1, false, true), Listener(2, true, false)]
  {
    var first := Listener(1, true, false);
    RunSnoc([], Started(1), limits);
    RunSnoc([Started(1)], Checked(samples[0]), limits);
    RunSnoc([Started(1), Checked(samples[0])], Started(2), limits);
    assert [] + [Started(1)] == [Started(1)] && Run([Started(1)], limits).listeners == [first];
    assert [Started(1)] + [Checked(samples[0])] == [Started(1), Checked(samples[0])];
    assert [Started(1), Checked(samples[0])] + [Started(2)] == [Started(1), Checked(samples[0]), Started(2)];
    assert !AnyPaused([first]) && EachPaused([first]) == [Listener(1, false, true)];
    var mixed := Run([Started(1), Checked(samples[0]), Started(2)], limits);
    assert mixed.listeners == [Listener(1, false, true), Listener(2, true, false)];
    assert mixed.listeners[0].paused;
    MixedStays(mixed, samples, limits);
  }

  lemma RunSnoc(events: seq<Event>, e: Event, limits: Limits)
    ensures Run(events + [e], limits) == Step(Run(events, limits), e, limits)
  {
    assert (events + [e])[..|events|] == events;
  }

  lemma {:induction false} MixedStays(m: Monitor, samples: seq<Sample>, limits: Limits)
    requires AnyPaused(m.listeners) && forall k :: 0 <= k < |samples| ==> Overloaded(samples[k], limits)
    ensures Checks(m, samples, limits).listeners == m.listeners
  {
    if samples != [] { MixedStays(m, samples[..|samples| - 1], limits); }
  }

  // ---------- the service ----------

  class ListenerState {
    const port: int
    var listening: bool
    var paused: bool

    function View(): Listener
      reads this
    {
      Listener(port, listening, paused)
    }

    constructor (port: int)
      ensures View() == Listener(port, false, false)
    {
      this.port, listening, paused := port, false, false;
    }
  }

  class StratumV1Service {
    var listeners: seq<ListenerState>
    var healthyBackpressureChecks: nat
    const limits: Limits

    ghost predicate Valid()
      reads this
    {
      forall i, j :: 0 <= i < j < |listeners| ==> listeners[i] != listeners[j]
    }

    function Views(): (v: seq<Listener>)
      reads this`listeners, listeners
      ensures |v| == |listeners|
    {
      var all := listeners;
      seq(|all|, i requires 0 <= i < |all| reads all => all[i].View())
    }

    function State(): Monitor
      reads this, listeners
    {
      Monitor(Views(), healthyBackpressureChecks)
    }

    constructor (limits: Limits)
      ensures Valid() && State() == Monitor([], 0) && this.limits == limits
    {
      this.limits := limits;
      listeners, healthyBackpressureChecks := [], 0;
    }

    method StartSocketServer(port: int)
      requires Valid()
      modifies this`listeners
      ensures Valid()
      ensures State() == Step(old(State()), Started(port), limits)
    {
      ghost var before := Views();
      var listener := new ListenerState(port);
      Listen(listener);
      listeners := listeners + [listener];
      assert Views() == before + [listener.View()];
    }

    method Listen(listener: ListenerState)
      modifies listener
      ensures listener.View() == if old(listener.listening) then old(listener.View())
                                 else old(listener.View()).(listening := true, paused := false)
    {
      if listener.listening {
        return;
      }
      listener.listening := true;
      listener.paused := false;
    }

    method PauseAccepting()
      requires Valid()
      modifies listeners
      ensures Views() == EachPaused(old(Views()))
    {
      for k := 0 to |listeners|
        invariant forall i :: 0 <= i < k ==> listeners[i].View() == Paused(old(listeners[i].View()))
        invariant forall i :: k <= i < |listeners| ==> listeners[i].View() == old(listeners[i].View())
      {
        var listener := listeners[k];
        if !listener.paused && listener.listening {
          listener.listening := false;
          listener.paused := true;
        }
      }
    }

    method ResumeAccepting()
      requires Valid()
      modifies listeners
      ensures Views() == EachResumed(old(Views()))
    {
      for k := 0 to |listeners|
        invariant forall i :: 0 <= i < k ==> listeners[i].View() == Resumed(old(listeners[i].View()))
        invariant forall i :: k <= i < |listeners| ==> listeners[i].View() == old(listeners[i].View())
      {
        var listener := listeners[k];
        if listener.paused && !listener.listening {
          Listen(listener);
        }
      }
    }

    method SomePaused() returns (paused: bool)
      ensures paused == AnyPaused(Views())
    {
      paused := false;
      for k := 0 to |listeners|
        invariant paused <==> exists i :: 0 <= i < k && listeners[i].paused
      {
        if listeners[k].paused {
          paused := true;
        }
      }
      assert forall i :: 0 <= i < |listeners| ==> Views()[i] == listeners[i].View();
    }

    method CheckBackpressure(sample: Sample)
      requires Valid()
      modifies this`healthyBackpressureChecks, listeners
      ensures Valid()
      ensures State() == AfterCheck(old(State()), sample, limits)
      // overloaded: at or above either limit; what is neither overloaded nor within both resume limits restarts the count
      ensures sample.eventLoopP95Ms >= limits.overloadP95Ms || sample.rssMb >= limits.overloadRssMb ==>
                && healthyBackpressureChecks == 0
                && (!AnyPaused(old(Views())) ==>
                      forall i :: 0 <= i < |Views()| ==> !Views()[i].listening)
      ensures sample.eventLoopP95Ms < limits.overloadP95Ms && sample.rssMb < limits.overloadRssMb
              && (sample.eventLoopP95Ms > limits.resumeP95Ms || sample.rssMb > limits.resumeRssMb) ==>
                Views() == old(Views()) && (AnyPaused(old(Views())) ==> healthyBackpressureChecks == 0)
    {
      var overloaded := sample.eventLoopP95Ms >= limits.overloadP95Ms || sample.rssMb >= limits.overloadRssMb;
      var paused := SomePaused();
      if overloaded {
        healthyBackpressureChecks := 0;
        if !paused {
          PauseAccepting();
        }
        return;
      }
      if !paused {
        return;
      }
      var healthy := sample.eventLoopP95Ms <= limits.resumeP95Ms && sample.rssMb <= limits.resumeRssMb;
      if !healthy {
        healthyBackpressureChecks := 0;
        return;
      }
      healthyBackpressureChecks := healthyBackpressureChecks + 1;
      if healthyBackpressureChecks >= limits.healthyChecks {
        ResumeAccepting();
        healthyBackpressureChecks := 0;
      }
    }
  }
}
