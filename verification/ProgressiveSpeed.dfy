/** How fast feedback moves an app under PuProgressivePolicy
    (rm/policymanager/policies/puprogressivepolicy.cpp): a band grows and shrinks by a factor, so a
    few feedbacks for each PU are enough, where steps of a percent would take a hundred. */
module ProgressiveSpeed {
  import opened PuSearch
  import opened PuRemoval
  import opened Allocation
  import opened ProgressiveModel
  import opened ProgressiveRuns

  // ---------- up ----------

  // How often a band of 7 or more is to be raised until it reaches one full PU
  function ToFirstPU(b: int): (n: nat)
    ensures n <= 23
  {
    if b >= 100 then 0 else if b >= 94 then 1 else if b >= 82 then 2 else if b >= 72 then 3
    else if b >= 63 then 4 else if b >= 55 then 5 else if b >= 48 then 6 else if b >= 42 then 7
    else if b >= 37 then 8 else if b >= 33 then 9 else if b >= 29 then 10 else if b >= 26 then 11
    else if b >= 23 then 12 else if b >= 20 then 13 else if b >= 18 then 14 else if b >= 16 then 15
    else if b >= 14 then 16 else if b >= 13 then 17 else if b >= 12 then 18 else if b >= 11 then 19
    else if b >= 10 then 20 else if b >= 9 then 21 else if b >= 8 then 22 else 23
  }

  // From 100 on a band grows by at least 14 percent, and six times that doubles it
  function ToCap(b: int, cap: int): (n: nat)
    ensures n <= 6
  {
    if b >= cap then 0
    else if 114 * b >= 100 * cap then 1
    else if 12996 * b >= 10000 * cap then 2
    else if 1481544 * b >= 1000000 * cap then 3
    else if 168896016 * b >= 100000000 * cap then 4
    else if 19254145824 * b >= 10000000000 * cap then 5
    else 6
  }

  // What an app with band b on n of N PUs needs at most
  function UpLeft(b: int, n: nat, N: nat): nat
    requires 1 <= n <= N
  {
    if b < 100 then ToFirstPU(b) + 6 * (N - 1) else ToCap(b, n * 100) + 6 * (N - n)
  }

  lemma RaisedOnFirst(b: int, b': int)
    requires 7 <= b < 100 && RaisedTo(b, b', 100)
    ensures b <= b' <= 100 && ToFirstPU(b') < ToFirstPU(b)
  {
  }

  lemma RaisedToCap(b: int, b': int, cap: int)
    requires 100 <= b < cap <= 2 * b && RaisedTo(b, b', cap)
    ensures b <= b' <= cap && ToCap(b', cap) < ToCap(b, cap)
  {
    if b' != cap {
      assert 100 * b' >= 114 * b;
    }
  }

  lemma RaisedWithOneMore(n: nat, b': int)
    requires n >= 1 && RaisedTo(n * 100, b', (n + 1) * 100)
    ensures n * 100 <= b' <= (n + 1) * 100 && ToCap(b', (n + 1) * 100) <= 5
  {
    if b' != (n + 1) * 100 {
      assert b' >= 114 * n;
    }
  }

  lemma LowFeedbackCounts(pl: Platform, s: State, pid: int, value: int)
    requires pl.Valid() && Invariant(pl, s) && Roomy(s, 0) && pid in s.apps && value < 80
    requires 7 <= Band(s, pid) < 100 * pl.numPUs && |s.apps[pid].pus| <= pl.numPUs
    ensures var t := Step(pl, s, Feedback(pid, value));
            && pid in t.apps && Coupled(t.apps[pid]) && 1 <= |t.apps[pid].pus| <= pl.numPUs
            && UpLeft(Band(t, pid), |t.apps[pid].pus|, pl.numPUs) < UpLeft(Band(s, pid), |s.apps[pid].pus|, pl.numPUs)
  {
    hide NewPU, RaisedTo, ToFirstPU, ToCap, Step, GoodOutcome;
    var app := s.apps[pid];
    var n, b := |app.pus|, app.cpuMax.value;
    var r := NewPU(pl, s.counts, s.loads, app.pus);
    FeedbackDoes(pl, s, pid, value);
    GrowthPossible(pl, s, pid);
    var app' := Step(pl, s, Feedback(pid, value)).apps[pid];
    assert n != 0;
    if b < n * 100 {
      LowStays(n, b, app'.cpuMax.value, pl.numPUs);
    } else {
      SizeAfterAdding(app.pus, r);
      LowGrows(n, app'.cpuMax.value, pl.numPUs);
    }
  }

  lemma LowStays(n: nat, b: int, b': int, N: nat)
    requires 1 <= n <= N && (n - 1) * 100 <= b < n * 100 && b >= 7 && RaisedTo(b, b', n * 100)
    ensures (n - 1) * 100 <= b' <= n * 100 && UpLeft(b', n, N) < UpLeft(b, n, N)
  {
    hide RaisedTo, ToFirstPU, ToCap;
    if b < 100 {
      assert n == 1;
      RaisedOnFirst(b, b');
      FirstAndCap(b');
    } else {
      RaisedToCap(b, b', n * 100);
    }
  }

  lemma FirstAndCap(b: int)
    ensures b >= 100 ==> ToCap(b, 100) == 0 && ToFirstPU(b) == 0
    ensures b < 100 ==> ToFirstPU(b) > 0
  {
  }

  lemma LowGrows(n: nat, b': int, N: nat)
    requires 1 <= n < N && RaisedTo(n * 100, b', (n + 1) * 100)
    ensures n * 100 <= b' <= (n + 1) * 100 && UpLeft(b', n + 1, N) < UpLeft(n * 100, n, N)
  {
    hide RaisedTo, ToFirstPU;
    RaisedWithOneMore(n, b');
  }

  // Among any events about other apps, each below-limit feedback takes one off what is left
  lemma {:induction false} ClimbCounts(pl: Platform, s: State, pid: int, events: seq<Event>, room: nat)
    requires pl.Valid() && Invariant(pl, s) && AcceptableRun(pl.numPUs, events)
    requires pid in s.apps && ClimbRun(events, pid) && Roomy(s, |events| + room) && Band(s, pid) >= 7
    ensures |s.apps[pid].pus| <= pl.numPUs && |s.apps[pid].pus| >= 1
    ensures var t := Run(pl, s, events);
            && pid in t.apps && Coupled(t.apps[pid]) && 1 <= |t.apps[pid].pus| <= pl.numPUs
            && (Band(t, pid) == 100 * pl.numPUs
                || UpLeft(Band(t, pid), |t.apps[pid].pus|, pl.numPUs) + FeedbackCount(events, pid)
                   <= UpLeft(Band(s, pid), |s.apps[pid].pus|, pl.numPUs))
    decreases |events|
  {
    hide UpLeft, Step, FeedbackStep;
    FullShare(pl, s.apps[pid]);
    assert |s.apps[pid].pus| != 0;
    if events != [] {
      var n := |events| - 1;
      var e := events[n];
      Climb(pl, s, pid, events[..n], room + 1);
      ClimbCounts(pl, s, pid, events[..n], room + 1);
      var t := Run(pl, s, events[..n]);
      if e.Feedback? && e.pid == pid {
        FeedbackIsStep(pl, t, pid, e.value);
        assert Roomy(t, 0);
        FullShare(pl, t.apps[pid]);
        BelowLimitRaises(pl, t, pid, e.value);
        if Band(t, pid) < 100 * pl.numPUs {
          LowFeedbackCounts(pl, t, pid, e.value);
        } else {
          StaysFull(pl, t, pid, e);
        }
      } else {
        OtherEventsLeaveAppAlone(pl, t, e, pid);
      }
    }
  }

  lemma FeedbackIsStep(pl: Platform, s: State, pid: int, value: int)
    requires pl.Valid() && Placed(pl, s)
    ensures Step(pl, s, Feedback(pid, value)) == FeedbackStep(pl, s, pid, value)
  {
  }

  lemma StaysFull(pl: Platform, s: State, pid: int, e: Event)
    requires pl.Valid() && Invariant(pl, s) && Roomy(s, 0) && e.Feedback? && e.pid == pid && e.value < LOWER_LIMIT
    requires pid in s.apps && Band(s, pid) == 100 * pl.numPUs
    ensures var t := Step(pl, s, e);
            && pid in t.apps && Coupled(t.apps[pid]) && 1 <= |t.apps[pid].pus| <= pl.numPUs
            && Band(t, pid) == 100 * pl.numPUs
  {
    hide FeedbackOutcome;
    StepKeepsInvariant(pl, s, e);
    FeedbackIsStep(pl, s, pid, e.value);
    BelowLimitRaises(pl, s, pid, e.value);
    FullShare(pl, Step(pl, s, e).apps[pid]);
    assert |Step(pl, s, e).apps[pid].pus| != 0;
  }

  lemma ClimbReachesAll(pl: Platform, s: State, pid: int, events: seq<Event>)
    requires pl.Valid() && Invariant(pl, s) && AcceptableRun(pl.numPUs, events)
    requires pid in s.apps && ClimbRun(events, pid) && Roomy(s, |events|) && Band(s, pid) >= 7
    requires FeedbackCount(events, pid) >= 23 + 6 * (pl.numPUs - 1)
    ensures var t := Run(pl, s, events);
            pid in t.apps && Coupled(t.apps[pid]) && Band(t, pid) == 100 * pl.numPUs
  {
    hide UpLeft, Invariant, Run, Roomy, ClimbRun, FeedbackCount, PuSearch.Platform.Valid;
    ClimbCounts(pl, s, pid, events, 0);
    AppsAreCoupled(pl, s);
    var t := Run(pl, s, events);
    UpLeftFacts(Band(s, pid), |s.apps[pid].pus|, pl.numPUs);
    UpLeftFacts(Band(t, pid), |t.apps[pid].pus|, pl.numPUs);
  }

  // 23 below-limit feedbacks, and 6 for each PU after the first, give an app all N PUs at 100*N from any band of
  // at least 7, and from no smaller one
  lemma ClimbIsFast(pl: Platform, s: State, pid: int, events: seq<Event>)
    requires pl.Valid() && Invariant(pl, s) && AcceptableRun(pl.numPUs, events)
    requires pid in s.apps && ClimbRun(events, pid) && Roomy(s, |events|)
    requires FeedbackCount(events, pid) >= 23 + 6 * (pl.numPUs - 1)
    ensures var t := Run(pl, s, events);
            && pid in t.apps
            && ((t.apps[pid].pus == pl.PuSet() && t.apps[pid].cpuMax == Num(100 * pl.numPUs)) <==> Band(s, pid) >= 7)
  {
    hide Invariant, Run, Roomy, ClimbRun, FeedbackCount, PuSearch.Platform.Valid;
    var t := Run(pl, s, events);
    Climb(pl, s, pid, events, 0);
    AppsAreCoupled(pl, s);
    AppsAreCoupled(pl, t);
    FullShare(pl, t.apps[pid]);
    if Band(s, pid) >= 7 { ClimbReachesAll(pl, s, pid, events); }
  }

  lemma UpLeftFacts(b: int, n: nat, N: nat)
    requires 1 <= n <= N && (n - 1) * 100 <= b <= n * 100
    ensures UpLeft(b, n, N) <= 23 + 6 * (N - 1)
    ensures UpLeft(b, n, N) == 0 ==> b == 100 * N
  {
  }

  lemma AppsAreCoupled(pl: Platform, s: State)
    requires pl.Valid() && Invariant(pl, s)
    ensures pl.numPUs > 0
    ensures forall pid :: pid in s.apps ==> s.apps[pid].pus <= pl.PuSet() && Coupled(s.apps[pid])
  {
  }

  // ---------- down ----------

  // How often a band on one PU is to be lowered until it is 0
  function ToNothing(b: int): (n: nat)
    ensures n <= 20
  {
    if b <= 5 then (if b <= 0 then 0 else b)
    else if b <= 7 then 6 else if b <= 9 then 7 else if b <= 11 then 8 else if b <= 14 then 9
    else if b <= 17 then 10 else if b <= 21 then 11 else if b <= 25 then 12 else if b <= 30 then 13
    else if b <= 36 then 14 else if b <= 43 then 15 else if b <= 51 then 16 else if b <= 61 then 17
    else if b <= 72 then 18 else if b <= 85 then 19 else 20
  }

  // On more PUs five times are enough to take a PU's worth
  function ToBottom(b: int, bottom: int): (n: nat)
    ensures n <= 5
  {
    if b <= bottom then 0
    else if 85 * b <= 100 * bottom then 1
    else if 7225 * b <= 10000 * bottom then 2
    else if 614125 * b <= 1000000 * bottom then 3
    else if 52200625 * b <= 100000000 * bottom then 4
    else 5
  }

  function DownLeft(b: int, n: nat): nat
    requires n >= 1
  {
    if n == 1 then ToNothing(b) else ToBottom(b, (n - 1) * 100) + 20 + 5 * (n - 2)
  }

  lemma LoweredOnFirst(b: int, b': int)
    requires 0 < b <= 100 && LoweredTo(b, b', 0)
    ensures 0 <= b' < b && ToNothing(b') < ToNothing(b)
    ensures b == 100 ==> b' == 85
  {
  }

  lemma LoweredToBottom(b: int, b': int, bottom: int)
    requires 0 < bottom < b <= 2 * bottom && LoweredTo(b, b', bottom)
    ensures bottom <= b' <= b && ToBottom(b', bottom) < ToBottom(b, bottom)
  {
  }

  lemma LoweredWithOneLess(n: nat, b': int)
    requires n >= 3 && LoweredTo((n - 1) * 100, b', (n - 2) * 100)
    ensures (n - 2) * 100 <= b' <= (n - 1) * 100 && ToBottom(b', (n - 2) * 100) <= 4
  {
  }

  lemma HighFeedbackCounts(pl: Platform, s: State, pid: int, value: int)
    requires pl.Valid() && Invariant(pl, s) && pid in s.apps && value > 120 && Band(s, pid) > 0
    ensures |s.apps[pid].pus| >= 1
    ensures var t := Step(pl, s, Feedback(pid, value));
            && pid in t.apps && Coupled(t.apps[pid]) && |t.apps[pid].pus| >= 1
            && DownLeft(Band(t, pid), |t.apps[pid].pus|) < DownLeft(Band(s, pid), |s.apps[pid].pus|)
  {
    hide WorstPU, HighEffect, DownLeft, Step;
    var app := s.apps[pid];
    var r := WorstPU(pl, app.pus);
    var t := Step(pl, s, Feedback(pid, value));
    FeedbackDoes(pl, s, pid, value);
    WorstPUSpec(pl, app.pus);
    HighEffectCounts(app, s.counts, value, r, t.apps[pid], t.counts);
  }

  lemma HighEffectCounts(app: App, counts: seq<int>, value: int, r: int, app': App, counts': seq<int>)
    requires Coupled(app) && app.cpuMax.value > 0 && HighEffect(app, counts, value, r, app', counts')
    requires (r == -1 || r in app.pus) && (r == -1 <==> |app.pus| == 1)
    ensures Coupled(app') && |app.pus| >= 1 && |app'.pus| >= 1
    ensures DownLeft(app'.cpuMax.value, |app'.pus|) < DownLeft(app.cpuMax.value, |app.pus|)
  {
    hide LoweredTo, DownLeft;
    var n, b := |app.pus|, app.cpuMax.value;
    assert n != 0;
    if b > (n - 1) * 100 {
      HighStays(n, b, app'.cpuMax.value);
    } else {
      SizeAfterTaking(app.pus, r);
      HighShrinks(n, app'.cpuMax.value);
    }
  }

  lemma HighStays(n: nat, b: int, b': int)
    requires n >= 1 && (n - 1) * 100 < b <= n * 100 && LoweredTo(b, b', (n - 1) * 100)
    ensures (n - 1) * 100 <= b' <= n * 100 && DownLeft(b', n) < DownLeft(b, n)
  {
    hide LoweredTo, ToNothing, ToBottom;
    if n == 1 { LoweredOnFirst(b, b'); } else { LoweredToBottom(b, b', (n - 1) * 100); }
  }

  lemma HighShrinks(n: nat, b': int)
    requires n >= 2 && LoweredTo((n - 1) * 100, b', (n - 2) * 100)
    ensures (n - 2) * 100 <= b' <= (n - 1) * 100 && DownLeft(b', n - 1) < DownLeft((n - 1) * 100, n)
  {
    if n == 2 {
      LoweredOnFirst(100, b');
    } else {
      LoweredWithOneLess(n, b');
    }
  }

  lemma {:induction false} DescentCounts(pl: Platform, s: State, pid: int, events: seq<Event>)
    requires pl.Valid() && Invariant(pl, s) && AcceptableRun(pl.numPUs, events)
    requires pid in s.apps && DescentRun(events, pid)
    ensures |s.apps[pid].pus| >= 1
    ensures var t := Run(pl, s, events);
            && pid in t.apps && Coupled(t.apps[pid]) && |t.apps[pid].pus| >= 1
            && (Band(t, pid) == 0
                || DownLeft(Band(t, pid), |t.apps[pid].pus|) + FeedbackCount(events, pid)
                   <= DownLeft(Band(s, pid), |s.apps[pid].pus|))
    decreases |events|
  {
    hide DownLeft, Step, FeedbackStep;
    assert |s.apps[pid].pus| != 0;
    if events != [] {
      var n := |events| - 1;
      var e := events[n];
      DescentCounts(pl, s, pid, events[..n]);
      var t := Run(pl, s, events[..n]);
      if e.Feedback? && e.pid == pid {
        FeedbackIsStep(pl, t, pid, e.value);
        AboveLimitLowers(pl, t, pid, e.value);
        assert |Step(pl, t, e).apps[pid].pus| != 0;
        if Band(t, pid) > 0 { HighFeedbackCounts(pl, t, pid, e.value); }
      } else {
        OtherEventsLeaveAppAlone(pl, t, e, pid);
      }
    }
  }

  // 20 above-limit feedbacks, and 5 for each PU after the first, leave any app one PU and a band of 0
  lemma DescentIsFast(pl: Platform, s: State, pid: int, events: seq<Event>)
    requires pl.Valid() && Invariant(pl, s) && AcceptableRun(pl.numPUs, events)
    requires pid in s.apps && DescentRun(events, pid)
    requires FeedbackCount(events, pid) >= 20 + 5 * (pl.numPUs - 1)
    ensures var t := Run(pl, s, events);
            pid in t.apps && |t.apps[pid].pus| == 1 && t.apps[pid].cpuMax == Num(0)
  {
    hide DownLeft, Invariant, Run, DescentRun, PuSearch.Platform.Valid;
    var t := Run(pl, s, events);
    AppsAreCoupled(pl, s);
    DescentCounts(pl, s, pid, events);
    FullShare(pl, s.apps[pid]);
    DownLeftFacts(Band(s, pid), |s.apps[pid].pus|, pl.numPUs);
    DownLeftFacts(Band(t, pid), |t.apps[pid].pus|, |t.apps[pid].pus|);
  }

  lemma DownLeftFacts(b: int, n: nat, N: nat)
    requires 1 <= n <= N && (n - 1) * 100 <= b <= n * 100
    ensures DownLeft(b, n) <= 20 + 5 * (N - 1)
    ensures b == 0 ==> n == 1
    ensures DownLeft(b, n) == 0 ==> b == 0
  {
  }
}
