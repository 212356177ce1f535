/** The containment state machine of rm/policymanager/policies/secstate.cpp: it escalates at
    once, recovers one level after a dwell, and leaves quarantine only when cleared. The severity
    index (SAI) and its thresholds are reals. */
module ContainmentState {

  datatype SecState = OBSERVE | THROTTLE | RESTRICT | QUARANTINE {
    function Rank(): (r: nat)
      ensures r <= 3
    {
      match this
      case OBSERVE => 0
      case THROTTLE => 1
      case RESTRICT => 2
      case QUARANTINE => 3
    }

    // static_cast<SecState>(state - 1)
    function Lower(): (s: SecState)
      requires this != OBSERVE
      ensures s.Rank() == Rank() - 1
    {
      match this
      case THROTTLE => OBSERVE
      case RESTRICT => THROTTLE
      case QUARANTINE => RESTRICT
    }
  }

  datatype Thresholds = Thresholds(t1: real, t2: real, t3: real, dwellN: int)

  datatype Tracker = Tracker(state: SecState, belowCount: int)

  const FRESH := Tracker(OBSERVE, 0)

  function Target(sai: real, th: Thresholds, off: real): SecState {
    if sai >= th.t3 + off then QUARANTINE
    else if sai >= th.t2 + off then RESTRICT
    else if sai >= th.t1 + off then THROTTLE
    else OBSERVE
  }

  function Next(t: Tracker, target: SecState, dwellN: int): Tracker {
    if t.state == QUARANTINE then t
    else if target.Rank() > t.state.Rank() then Tracker(target, 0)
    else if target.Rank() < t.state.Rank() then
      if t.belowCount + 1 >= dwellN then Tracker(t.state.Lower(), 0)
      else t.(belowCount := t.belowCount + 1)
    else t.(belowCount := 0)
  }

  // The object of the source
  class StateTracker {
    var state: SecState
    var belowCount: int

    ghost function View(): Tracker
      reads this
    {
      Tracker(state, belowCount)
    }

    constructor ()
      ensures View() == FRESH
    {
      state := OBSERVE;
      belowCount := 0;
    }

    method Step(sai: real, th: Thresholds, tolOffset: real) returns (r: SecState)
      modifies this
      ensures View() == Next(old(View()), Target(sai, th, tolOffset), th.dwellN)
      ensures r == state
    {
      if state == QUARANTINE {
        return state;
      }
      var tgt := Target(sai, th, tolOffset);
      if tgt.Rank() > state.Rank() {
        state := tgt;
        belowCount := 0;
      } else if tgt.Rank() < state.Rank() {
        belowCount := belowCount + 1;
        if belowCount >= th.dwellN {
          state := state.Lower();
          belowCount := 0;
        }
      } else {
        belowCount := 0;
      }
      return state;
    }

    method Clear()
      modifies this
      ensures View() == FRESH
    {
      state := OBSERVE;
      belowCount := 0;
    }
  }

  // ---------- runs ----------

  // A sample carries the thresholds and the tolerance offset in force when it arrives
  datatype TrackerEvent = Sample(sai: real, th: Thresholds, off: real) | Clear

  function Apply(t: Tracker, e: TrackerEvent): Tracker {
    match e
    case Sample(sai, th, off) => Next(t, Target(sai, th, off), th.dwellN)
    case Clear => FRESH
  }

  function Run(t: Tracker, events: seq<TrackerEvent>): Tracker {
    if events == [] then t else Apply(Run(t, events[..|events| - 1]), events[|events| - 1])
  }

  // Counts are never negative, and are zero where nothing can be below or nothing moves
  ghost predicate Legit(t: Tracker) {
    && 0 <= t.belowCount
    && (t.state == OBSERVE || t.state == QUARANTINE ==> t.belowCount == 0)
  }

  lemma {:induction false} RunsAreLegit(t: Tracker, events: seq<TrackerEvent>)
    requires Legit(t)
    ensures Legit(Run(t, events))
  {
    if events != [] { RunsAreLegit(t, events[..|events| - 1]); }
  }

  // ---------- one sample ----------

  // The SAI reaches the cut-off of a level
  predicate Reaches(e: TrackerEvent, level: nat)
    requires e.Sample? && 1 <= level <= 3
  {
    e.sai >= e.off + (if level == 1 then e.th.t1 else if level == 2 then e.th.t2 else e.th.t3)
  }

  // What a sample does at the end of any run: the state is at once at least every level whose cut-off it reaches; it
  // never rises past them, and a rise starts the count anew; it falls by one level at most, only if the sample reaches
  // neither the level it leaves nor one above, and then exactly if it is the dwellN-th of that kind
  lemma SampleIsJudged(t: Tracker, events: seq<TrackerEvent>, e: TrackerEvent)
    requires e.Sample?
    ensures var before, after := Run(t, events), Run(t, events + [e]);
            && (forall level: nat :: 1 <= level <= 3 && Reaches(e, level) ==> after.state.Rank() >= level)
            && (after.state.Rank() > before.state.Rank() ==>
                  && after.belowCount == 0 && Reaches(e, after.state.Rank())
                  && forall level: nat :: after.state.Rank() < level <= 3 ==> !Reaches(e, level))
            && (after.state.Rank() < before.state.Rank() ==>
                  && after.belowCount == 0 && after.state.Rank() == before.state.Rank() - 1
                  && before.state != QUARANTINE
                  && forall level: nat :: before.state.Rank() <= level <= 3 ==> !Reaches(e, level))
            && (before.state != OBSERVE && before.state != QUARANTINE
                && (forall level: nat :: before.state.Rank() <= level <= 3 ==> !Reaches(e, level)) ==>
                  (after.state.Rank() < before.state.Rank() <==> before.belowCount + 1 >= e.th.dwellN))
  {
    assert (events + [e])[..|events|] == events;
    assert Reaches(e, 1) <==> e.sai >= e.th.t1 + e.off;
    assert Reaches(e, 2) <==> e.sai >= e.th.t2 + e.off;
    assert Reaches(e, 3) <==> e.sai >= e.th.t3 + e.off;
  }

  // ---------- two traces ----------

  // a is at most as severe as b: a lower state, or the same one with at least as long a dwell
  ghost predicate AtMost(a: Tracker, b: Tracker) {
    a.state.Rank() < b.state.Rank() || (a.state == b.state && a.belowCount >= b.belowCount)
  }

  // Event for event, b sees at least a's SAI against thresholds and an offset that are at most
  // a's, and must dwell at least as long; both are cleared together
  ghost predicate Milder(a: TrackerEvent, b: TrackerEvent) {
    || (a.Clear? && b.Clear?)
    || (&& a.Sample? && b.Sample? && a.sai <= b.sai && a.off >= b.off && a.th.dwellN <= b.th.dwellN
        && a.th.t1 >= b.th.t1 && a.th.t2 >= b.th.t2 && a.th.t3 >= b.th.t3)
  }

  lemma TargetMonotone(a: TrackerEvent, b: TrackerEvent)
    requires a.Sample? && b.Sample? && Milder(a, b)
    ensures Target(a.sai, a.th, a.off).Rank() <= Target(b.sai, b.th, b.off).Rank()
  {
  }

  lemma ApplyMonotone(s: Tracker, t: Tracker, a: TrackerEvent, b: TrackerEvent)
    requires Legit(s) && Legit(t) && AtMost(s, t) && Milder(a, b)
    ensures AtMost(Apply(s, a), Apply(t, b))
  {
    if a.Sample? { TargetMonotone(a, b); }
  }

  // A pointwise milder trace is contained at most as severely after every prefix
  lemma {:induction false} TwoTraceMonotone(s: Tracker, t: Tracker, a: seq<TrackerEvent>, b: seq<TrackerEvent>, k: nat)
    requires Legit(s) && Legit(t) && AtMost(s, t) && |a| == |b|
    requires forall i :: 0 <= i < |a| ==> Milder(a[i], b[i])
    requires k <= |a|
    ensures AtMost(Run(s, a[..k]), Run(t, b[..k]))
    ensures Run(s, a[..k]).state.Rank() <= Run(t, b[..k]).state.Rank()
  {
    if k > 0 {
      TwoTraceMonotone(s, t, a, b, k - 1);
      RunsAreLegit(s, a[..k - 1]);
      RunsAreLegit(t, b[..k - 1]);
      assert a[..k][..k - 1] == a[..k - 1] && b[..k][..k - 1] == b[..k - 1];
      ApplyMonotone(Run(s, a[..k - 1]), Run(t, b[..k - 1]), a[k - 1], b[k - 1]);
    }
  }

  // ---------- dwell ----------

  // Event i found the tracker in state s and aimed below it
  ghost predicate BelowAt(t: Tracker, events: seq<TrackerEvent>, i: nat, s: SecState)
    requires i < |events|
  {
    && Run(t, events[..i]).state == s
    && events[i].Sample?
    && Target(events[i].sai, events[i].th, events[i].off).Rank() < s.Rank()
  }

  // The counter records the most recent events: that many of them in a row aimed below the
  // present state, which none of them changed
  lemma {:induction false} CounterIsHistory(t: Tracker, events: seq<TrackerEvent>, i: nat)
    requires Legit(t) && t.belowCount == 0
    requires |events| - Run(t, events).belowCount <= i < |events|
    ensures BelowAt(t, events, i, Run(t, events).state)
  {
    var n := |events| - 1;
    RunsAreLegit(t, events[..n]);
    var before := Run(t, events[..n]);
    if i < n {
      CounterIsHistory(t, events[..n], i);
      assert events[..n][..i] == events[..i];
    }
  }

  // Outside quarantine it is exactly their number: the event before them did not
  lemma {:induction false} CounterIsExact(t: Tracker, events: seq<TrackerEvent>)
    requires Legit(t) && t.belowCount == 0
    ensures var r := Run(t, events);
            && 0 <= r.belowCount <= |events|
            && (forall i :: |events| - r.belowCount <= i < |events| ==> BelowAt(t, events, i, r.state))
            && (r.state != QUARANTINE && r.belowCount < |events| ==>
                  !BelowAt(t, events, |events| - 1 - r.belowCount, r.state))
  {
    var r := Run(t, events);
    RunsAreLegit(t, events);
    CounterFits(t, events);
    forall i | |events| - r.belowCount <= i < |events| ensures BelowAt(t, events, i, r.state) {
      CounterIsHistory(t, events, i);
    }
    if r.state != QUARANTINE && r.belowCount < |events| { CounterStarts(t, events); }
  }

  lemma {:induction false} CounterStarts(t: Tracker, events: seq<TrackerEvent>)
    requires Legit(t) && t.belowCount == 0
    requires Run(t, events).state != QUARANTINE && 0 <= Run(t, events).belowCount < |events|
    ensures var r := Run(t, events);
            !BelowAt(t, events, |events| - 1 - r.belowCount, r.state)
  {
    hide Apply, Target;
    var r, n := Run(t, events), |events| - 1;
    RunsAreLegit(t, events[..n]);
    CounterStep(Run(t, events[..n]), events[n]);
    if r.belowCount > 0 {
      CounterStarts(t, events[..n]);
      assert events[..n][..n - r.belowCount] == events[..n - r.belowCount];
    }
  }

  // A counter that is not zero has been raised by one in a state that stands; one that is zero has not
  lemma CounterStep(t: Tracker, e: TrackerEvent)
    requires Legit(t)
    ensures var r := Apply(t, e);
            if r.belowCount > 0 then r == t.(belowCount := t.belowCount + 1)
            else r.state == t.state && e.Sample? && t.state != QUARANTINE ==>
                   Target(e.sai, e.th, e.off).Rank() >= t.state.Rank()
  {
  }

  // In quarantine nothing is counted
  lemma QuarantineCountsNothing(hot: TrackerEvent, cool: TrackerEvent)
    requires hot.Sample? && Target(hot.sai, hot.th, hot.off) == QUARANTINE
    requires cool.Sample? && Target(cool.sai, cool.th, cool.off) != QUARANTINE
    ensures Run(FRESH, [hot, cool]) == Tracker(QUARANTINE, 0) && BelowAt(FRESH, [hot, cool], 1, QUARANTINE)
  {
    assert [hot, cool][..1] == [hot] && [hot][..0] == [];
    assert Run(FRESH, [hot]) == Apply(Run(FRESH, []), hot);
  }

  lemma {:induction false} CounterFits(t: Tracker, events: seq<TrackerEvent>)
    requires Legit(t) && t.belowCount == 0
    ensures Run(t, events).belowCount <= |events|
  {
    if events != [] { CounterFits(t, events[..|events| - 1]); }
  }

  // A state drops, other than by a clear, only with the dwellN-th of dwellN consecutive samples
  // that all aimed below it while it stood
  lemma DropNeedsDwell(t: Tracker, events: seq<TrackerEvent>, e: TrackerEvent, i: nat)
    requires Legit(t) && t.belowCount == 0 && e.Sample?
    requires Apply(Run(t, events), e).state.Rank() < Run(t, events).state.Rank()
    ensures var all := events + [e];
            && |all| >= e.th.dwellN
            && (|all| - e.th.dwellN <= i < |all| ==> BelowAt(t, all, i, Run(t, events).state))
  {
    var all := events + [e];
    CounterFits(t, events);
    RunsAreLegit(t, events);
    assert all[..|events|] == events;
    if |all| - e.th.dwellN <= i < |events| {
      CounterIsHistory(t, events, i);
      assert all[..i] == events[..i];
    }
  }

  function Dwell(th: Thresholds): (n: int)
    ensures n >= 1
  {
    if th.dwellN > 1 then th.dwellN else 1
  }

  // A sample below every threshold in force
  ghost predicate AllClear(e: TrackerEvent, th: Thresholds) {
    e.Sample? && e.th == th && Target(e.sai, e.th, e.off) == OBSERVE
  }

  // How many all-clear samples are still needed
  function Remaining(t: Tracker, th: Thresholds): int {
    t.state.Rank() * Dwell(th) - t.belowCount
  }

  lemma {:induction false} ClearSamplesCountDown(t: Tracker, th: Thresholds, events: seq<TrackerEvent>)
    requires Legit(t) && t.state != QUARANTINE && t.belowCount < Dwell(th)
    requires forall i :: 0 <= i < |events| ==> AllClear(events[i], th)
    ensures var r := Run(t, events);
            && Legit(r) && r.state != QUARANTINE && r.belowCount < Dwell(th)
            && Remaining(r, th) == if Remaining(t, th) > |events| then Remaining(t, th) - |events| else 0
    decreases |events|
  {
    if events != [] {
      var n := |events| - 1;
      ClearSamplesCountDown(t, th, events[..n]);
      ClearSampleCountsDown(Run(t, events[..n]), th, events[n]);
    }
  }

  lemma ClearSampleCountsDown(t: Tracker, th: Thresholds, e: TrackerEvent)
    requires Legit(t) && t.state != QUARANTINE && t.belowCount < Dwell(th) && AllClear(e, th)
    ensures var r := Apply(t, e);
            && Legit(r) && r.state != QUARANTINE && r.belowCount < Dwell(th)
            && Remaining(r, th) == if Remaining(t, th) > 0 then Remaining(t, th) - 1 else 0
  {
    if t.state == OBSERVE {
      assert Remaining(t, th) == 0;
    } else {
      DropArithmetic(t.state.Rank(), Dwell(th));
    }
  }

  lemma DropArithmetic(rank: nat, dwell: int)
    requires rank >= 1
    ensures rank * dwell - (dwell - 1) - 1 == (rank - 1) * dwell
  {
  }

  // From a non-quarantine state s with counter c, the tracker is back in OBSERVE after n
  // consecutive all-clear samples if and only if n >= s * dwell - c
  lemma RecoveryTakesExactly(t: Tracker, th: Thresholds, events: seq<TrackerEvent>)
    requires Legit(t) && t.state != QUARANTINE && t.belowCount < Dwell(th)
    requires forall i :: 0 <= i < |events| ==> AllClear(events[i], th)
    ensures Run(t, events).state == OBSERVE <==> |events| >= t.state.Rank() * Dwell(th) - t.belowCount
  {
    ClearSamplesCountDown(t, th, events);
    var r := Run(t, events);
    RemainingZeroIsObserve(r, th);
  }

  lemma RemainingZeroIsObserve(t: Tracker, th: Thresholds)
    requires Legit(t) && t.belowCount < Dwell(th)
    ensures Remaining(t, th) <= 0 <==> t.state == OBSERVE
  {
    if t.state != OBSERVE { assert t.state.Rank() * Dwell(th) >= Dwell(th); }
  }

  // Quarantine is left by a clear and by nothing else
  lemma {:induction false} QuarantineIsSticky(t: Tracker, events: seq<TrackerEvent>)
    requires t.state == QUARANTINE
    ensures (forall i :: 0 <= i < |events| ==> !events[i].Clear?) ==> Run(t, events) == t
    ensures Run(t, events).state != QUARANTINE ==> exists i :: 0 <= i < |events| && events[i].Clear?
  {
    if events != [] {
      var n := |events| - 1;
      QuarantineIsSticky(t, events[..n]);
      if i :| 0 <= i < n && events[..n][i].Clear? { assert events[i].Clear?; }
      if forall i :: 0 <= i < |events| ==> !events[i].Clear? {
        assert forall i :: 0 <= i < n ==> !events[..n][i].Clear?;
      }
    }
  }
}
