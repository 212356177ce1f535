/** Properties of whole runs of PuProgressivePolicy: the PU counts are conserved exactly as long
    as no managed pid is added again, and feedback drives an app to its largest or smallest
    share within a bound read off its band - unless the band has fallen to 6 or less. */
module ProgressiveRuns {
  import opened CpusetVector
  import opened PuSearch
  import opened PuRemoval
  import opened Allocation
  import opened ProgressiveModel

  ghost function FromStart(pl: Platform, events: seq<Event>): (t: State)
    requires pl.Valid() && AcceptableRun(pl.numPUs, events)
    ensures Invariant(pl, t)
  {
    InitiallyPlaced(pl);
    Run(pl, InitialState(pl.numPUs), events)
  }

  // ---------- conservation ----------

  // The states after each prefix of the run
  ghost function Trace(pl: Platform, events: seq<Event>): (r: seq<State>)
    requires pl.Valid() && AcceptableRun(pl.numPUs, events)
    ensures |r| == |events| + 1
  {
    seq(|events| + 1, k requires 0 <= k <= |events| => FromStart(pl, events[..k]))
  }

  lemma TraceIsAccounted(pl: Platform, events: seq<Event>, k: nat)
    requires pl.Valid() && AcceptableRun(pl.numPUs, events) && k < |events|
    ensures AccountedStep(Trace(pl, events)[k], events[k], Trace(pl, events)[k + 1])
  {
    var s := FromStart(pl, events[..k]);
    assert events[..k + 1][..k] == events[..k];
    StepKeepsInvariant(pl, s, events[k]);
    assert Accounted(s, events[k], Step(pl, s, events[k]), LowerUsage(s.counts, s.loads));
  }

  // After every run, each count equals the number of managed apps on that PU if and only if
  // no Add in the run named a pid that was managed at that moment
  lemma Conservation(pl: Platform, events: seq<Event>)
    requires pl.Valid() && AcceptableRun(pl.numPUs, events)
    ensures Conserved(FromStart(pl, events)) <==> !SomeReadd(Trace(pl, events), events, |events|)
  {
    var states := Trace(pl, events);
    InitiallyPlaced(pl);
    forall k | 0 <= k < |events| ensures AccountedStep(states[k], events[k], states[k + 1]) {
      TraceIsAccounted(pl, events, k);
    }
    assert events[..|events|] == events;
    TraceConserves(states, events, |events|);
  }

  // In every reachable state, re-adds or not, a managed app is counted on each of its PUs, so
  // the clamp of removeApp never acts and no count is negative
  lemma ClampNeverActs(pl: Platform, events: seq<Event>, pid: int)
    requires pl.Valid() && AcceptableRun(pl.numPUs, events)
    ensures var s := FromStart(pl, events);
            && (forall p :: 0 <= p < pl.numPUs ==> s.counts[p] >= 0)
            && (pid in s.apps ==> forall p :: p in s.apps[pid].pus ==>
                  0 <= p < pl.numPUs && Release(s, pid).counts[p] == s.counts[p] - 1 >= 0)
  {
    var s := FromStart(pl, events);
    ReleaseKeepsPlacement(pl, s, pid);
    forall p | 0 <= p < pl.numPUs ensures s.counts[p] >= 0 {
      assert Surplus(s, p) >= 0;
    }
  }

  // In every reachable state each managed app holds n >= 1 PUs of the platform and a band
  // between (n-1)*100 and n*100
  lemma BandFollowsPUs(pl: Platform, events: seq<Event>, pid: int)
    requires pl.Valid() && AcceptableRun(pl.numPUs, events)
    requires pid in FromStart(pl, events).apps
    ensures var app := FromStart(pl, events).apps[pid];
            && 1 <= |app.pus| <= pl.numPUs && app.cpuMax.Num?
            && (|app.pus| - 1) * 100 <= app.cpuMax.value <= |app.pus| * 100
  {
    var app := FromStart(pl, events).apps[pid];
    assert Coupled(app);
    SubsetOfBelow(app.pus, pl.numPUs);
    assert |app.pus| != 0;
  }

  // Loads are those of the last monitor event; a timer event changes nothing
  lemma {:induction false} LoadsAreLast(pl: Platform, events: seq<Event>)
    requires pl.Valid() && AcceptableRun(pl.numPUs, events)
    ensures FromStart(pl, events).loads == LastLoads(events)
    ensures events != [] && events[|events| - 1].Timer? ==>
              FromStart(pl, events) == FromStart(pl, events[..|events| - 1])
  {
    hide LowerUsage, FeedbackOutcome;
    if events != [] { LoadsAreLast(pl, events[..|events| - 1]); }
  }

  // ---------- progress ----------

  // No counter or load reaches INT_MAX, now or after `room` more events
  ghost predicate Roomy(s: State, room: nat) {
    && (forall p :: 0 <= p < |s.counts| ==> Surplus(s, p) + |s.apps| + room < INT_MAX)
    && (forall p :: 0 <= p < |s.loads| ==> s.loads[p] < INT_MAX)
  }

  lemma OwnersAtMostAll(apps: map<int, App>, p: int)
    ensures Owners(apps, p) <= |apps|
  {
    SubsetSize(OwnerSet(apps, p), apps.Keys);
    assert |apps.Keys| == |apps|;
  }

  lemma {:induction false} SubsetSize(a: set<int>, b: set<int>)
    requires a <= b
    ensures |a| <= |b|
  {
    if a != {} {
      var x := Pick(a);
      SubsetSize(a - {x}, b - {x});
    }
  }

  ghost function Band(s: State, pid: int): int
    requires pid in s.apps && Coupled(s.apps[pid])
  {
    s.apps[pid].cpuMax.value
  }

  // An app finds a PU to grow to exactly as long as it does not hold all of them
  lemma GrowthPossible(pl: Platform, s: State, pid: int)
    requires pl.Valid() && Invariant(pl, s) && Roomy(s, 0) && pid in s.apps
    ensures NewPU(pl, s.counts, s.loads, s.apps[pid].pus) != -1 <==> |s.apps[pid].pus| < pl.numPUs
  {
    var used := s.apps[pid].pus;
    NewPUAmongCandidates(pl, s.counts, s.loads, used);
    SubsetOfBelow(used, pl.numPUs);
    BelowSize(pl.numPUs);
    var cands := Candidates(pl, s.counts, used);
    if cands != {} { SomeRankIsLow(pl, s, Nearest(pl, used, cands)); }
  }

  lemma SomeRankIsLow(pl: Platform, s: State, nearest: set<int>)
    requires pl.Valid() && Invariant(pl, s) && Roomy(s, 0) && nearest != {} && nearest <= pl.PuSet()
    ensures exists p :: p in nearest && Rank(s.counts, s.loads)[p] < INT_MAX
  {
    var p := Pick(nearest);
    assert p in pl.PuSet();
    assert Surplus(s, p) >= 0;
    OwnersAtMostAll(s.apps, p);
  }

  lemma {:induction false} BelowSize(n: nat)
    ensures |Below(n)| == n
  {
    if n > 0 { BelowSize(n - 1); }
  }

  lemma FullShare(pl: Platform, app: App)
    requires Coupled(app) && app.pus <= pl.PuSet()
    ensures app.cpuMax.value <= 100 * pl.numPUs && |app.pus| <= pl.numPUs
    ensures |app.pus| < pl.numPUs ==> app.cpuMax.value < 100 * pl.numPUs
    ensures app.cpuMax.value == 100 * pl.numPUs ==> app.pus == pl.PuSet()
  {
    SubsetOfBelow(app.pus, pl.numPUs);
  }

  lemma LowOutcomeBand(app: App, counts: seq<int>, value: int, newPU: int)
    requires Coupled(app)
    requires newPU == -1 || (0 <= newPU < |counts| && newPU !in app.pus)
    ensures var o := LowOutcome(app, counts, value, newPU);
            var band := app.cpuMax.value;
            && o.app.cpuMax.Num?
            && (band < 7 ==> o == Outcome(app, counts))
            && (band < |app.pus| * 100 || newPU != -1 ==>
                  (o.app.cpuMax.value > band <==> band >= 7) && o.app.cpuMax.value >= band)
            && (band == |app.pus| * 100 && newPU == -1 ==> o.app.cpuMax.value == band)
  {
    IncreaseFacts(app.cpuMax.value, |app.pus|);
    if newPU != -1 { SizeAfterAdding(app.pus, newPU); }
  }

  lemma HighOutcomeBand(app: App, counts: seq<int>, value: int, remPU: int)
    requires Coupled(app)
    requires remPU == -1 || (0 <= remPU < |counts| && remPU in app.pus)
    requires remPU == -1 <==> |app.pus| == 1
    ensures var o := HighOutcome(app, counts, value, remPU);
            var band := app.cpuMax.value;
            && o.app.cpuMax.Num?
            && (band > 0 ==> o.app.cpuMax.value < band)
            && (band == 0 ==> o.app.cpuMax.value == 0 && o.counts == counts)
  {
    DecreaseFacts(app.cpuMax.value, |app.pus|);
    if remPU != -1 { SizeAfterTaking(app.pus, remPU); }
  }

  // A below-limit feedback raises the band if and only if the band is at least 7 and not yet
  // all of every PU; a band of 6 or less is truncated back to itself and nothing changes
  lemma BelowLimitRaises(pl: Platform, s: State, pid: int, value: int)
    requires pl.Valid() && Invariant(pl, s) && Roomy(s, 0) && pid in s.apps && value < LOWER_LIMIT
    ensures var t := FeedbackStep(pl, s, pid, value);
            && pid in t.apps && Coupled(t.apps[pid])
            && Band(t, pid) >= Band(s, pid)
            && (Band(t, pid) > Band(s, pid) <==> 7 <= Band(s, pid) < 100 * pl.numPUs)
            && (Band(s, pid) < 7 ==> t == s)
  {
    var app := s.apps[pid];
    OutcomeIsGood(pl, app, s.counts, s.loads, value);
    FullShare(pl, app);
    GrowthPossible(pl, s, pid);
    LowOutcomeBand(app, s.counts, value, NewPU(pl, s.counts, s.loads, app.pus));
    assert s.apps[pid := app] == s.apps;
  }

  // An above-limit feedback lowers the band if and only if it is not zero
  lemma AboveLimitLowers(pl: Platform, s: State, pid: int, value: int)
    requires pl.Valid() && Invariant(pl, s) && pid in s.apps && value > UPPER_LIMIT
    ensures var t := FeedbackStep(pl, s, pid, value);
            && pid in t.apps && Coupled(t.apps[pid])
            && (Band(s, pid) > 0 ==> Band(t, pid) < Band(s, pid))
            && (Band(s, pid) == 0 ==> Band(t, pid) == 0 && t.counts == s.counts)
            && Band(t, pid) >= 0
  {
    var app := s.apps[pid];
    OutcomeIsGood(pl, app, s.counts, s.loads, value);
    WorstPUSpec(pl, app.pus);
    HighOutcomeBand(app, s.counts, value, WorstPU(pl, app.pus));
  }

  // ---------- progress over runs, whatever other events are interleaved ----------

  // The app stays managed, loads are ints below INT_MAX, and all feedback about the app is low
  ghost predicate ClimbEvent(e: Event, pid: int) {
    match e
    case Remove(q) => q != pid
    case Feedback(q, value) => q == pid ==> value < LOWER_LIMIT
    case Monitor(loads) => forall p :: 0 <= p < |loads| ==> loads[p] < INT_MAX
    case _ => true
  }

  // The app stays managed and all feedback about it is high
  ghost predicate DescentEvent(e: Event, pid: int) {
    match e
    case Remove(q) => q != pid
    case Feedback(q, value) => q == pid ==> value > UPPER_LIMIT
    case _ => true
  }

  ghost predicate ClimbRun(events: seq<Event>, pid: int) {
    forall k :: 0 <= k < |events| ==> ClimbEvent(events[k], pid)
  }

  ghost predicate DescentRun(events: seq<Event>, pid: int) {
    forall k :: 0 <= k < |events| ==> DescentEvent(events[k], pid)
  }

  function FeedbackCount(events: seq<Event>, pid: int): nat {
    if events == [] then 0
    else var n := |events| - 1;
         FeedbackCount(events[..n], pid) + (if events[n].Feedback? && events[n].pid == pid then 1 else 0)
  }

  lemma OtherEventsLeaveAppAlone(pl: Platform, s: State, e: Event, pid: int)
    requires pl.Valid() && Invariant(pl, s) && Acceptable(pl.numPUs, e) && pid in s.apps
    requires (e.Remove? || e.Feedback?) ==> e.pid != pid
    ensures pid in Step(pl, s, e).apps && Step(pl, s, e).apps[pid] == s.apps[pid]
  {
  }

  lemma AppsGrowByOne(pl: Platform, s: State, e: Event)
    requires pl.Valid() && Invariant(pl, s) && Acceptable(pl.numPUs, e)
    ensures |Step(pl, s, e).apps| <= |s.apps| + (if e.Add? && !Readds(s, e) then 1 else 0)
  {
    var before, after := s.apps.Keys, Step(pl, s, e).apps.Keys;
    assert after <= before + (if e.Add? then {e.pid} else {});
    SubsetSize(after, before + (if e.Add? && !Readds(s, e) then {e.pid} else {}));
    assert |before| == |s.apps| && |after| == |Step(pl, s, e).apps|;
  }

  lemma RoomShrinksByOne(pl: Platform, s: State, e: Event, room: nat)
    requires pl.Valid() && Invariant(pl, s) && Acceptable(pl.numPUs, e) && Roomy(s, room + 1)
    requires e.Monitor? ==> forall p :: 0 <= p < |e.loads| ==> e.loads[p] < INT_MAX
    ensures Roomy(Step(pl, s, e), room)
  {
    StepKeepsInvariant(pl, s, e);
    AppsGrowByOne(pl, s, e);
  }

  // Reachable states have room: from the start on each event uses one unit at most
  lemma {:induction false} ReachableIsRoomy(pl: Platform, events: seq<Event>, room: nat)
    requires pl.Valid() && AcceptableRun(pl.numPUs, events)
    requires forall k :: 0 <= k < |events| && events[k].Monitor? ==>
               forall p :: 0 <= p < |events[k].loads| ==> events[k].loads[p] < INT_MAX
    requires |events| + room < INT_MAX
    ensures Invariant(pl, FromStart(pl, events)) && Roomy(FromStart(pl, events), room)
  {
    if events != [] {
      var n := |events| - 1;
      ReachableIsRoomy(pl, events[..n], room + 1);
      StepKeepsInvariant(pl, FromStart(pl, events[..n]), events[n]);
      RoomShrinksByOne(pl, FromStart(pl, events[..n]), events[n], room);
    }
  }

  lemma {:induction false} Climb(pl: Platform, s: State, pid: int, events: seq<Event>, room: nat)
    requires pl.Valid() && Invariant(pl, s) && AcceptableRun(pl.numPUs, events)
    requires pid in s.apps && ClimbRun(events, pid) && Roomy(s, |events| + room)
    ensures var t := Run(pl, s, events);
            && pid in t.apps && Coupled(t.apps[pid]) && Roomy(t, room)
            && (Band(s, pid) >= 7 ==>
                  && Band(t, pid) >= 7
                  && (Band(t, pid) >= Band(s, pid) + FeedbackCount(events, pid) || Band(t, pid) == 100 * pl.numPUs))
            && (Band(s, pid) < 7 ==> t.apps[pid] == s.apps[pid])
    decreases |events|
  {
    if events != [] {
      var n := |events| - 1;
      var e := events[n];
      Climb(pl, s, pid, events[..n], room + 1);
      var t := Run(pl, s, events[..n]);
      RoomShrinksByOne(pl, t, e, room);
      if e.Feedback? && e.pid == pid {
        assert Roomy(t, 0);
        BelowLimitRaises(pl, t, pid, e.value);
        FullShare(pl, t.apps[pid]);
        OutcomeIsGood(pl, t.apps[pid], t.counts, t.loads, e.value);
        FullShare(pl, Step(pl, t, e).apps[pid]);
      } else {
        OtherEventsLeaveAppAlone(pl, t, e, pid);
      }
    }
  }

  // Once an app has received 100*N - band below-limit feedbacks, interleaved with any events
  // about other apps, it holds all N PUs at 100*N if and only if its band was at least 7
  lemma EnoughLowFeedbackGivesEverything(pl: Platform, s: State, pid: int, events: seq<Event>)
    requires pl.Valid() && Invariant(pl, s) && AcceptableRun(pl.numPUs, events)
    requires pid in s.apps && ClimbRun(events, pid) && Roomy(s, |events|)
    requires FeedbackCount(events, pid) >= 100 * pl.numPUs - Band(s, pid)
    ensures var t := Run(pl, s, events);
            && pid in t.apps
            && ((t.apps[pid].pus == pl.PuSet() && t.apps[pid].cpuMax == Num(100 * pl.numPUs)) <==> Band(s, pid) >= 7)
  {
    Climb(pl, s, pid, events, 0);
    FullShare(pl, Run(pl, s, events).apps[pid]);
  }

  // In particular from every reachable state: any history with loads below INT_MAX, then that feedback
  lemma ReachableAppsClimb(pl: Platform, history: seq<Event>, pid: int, events: seq<Event>)
    requires pl.Valid() && AcceptableRun(pl.numPUs, history) && AcceptableRun(pl.numPUs, events)
    requires forall k :: 0 <= k < |history| && history[k].Monitor? ==>
               forall p :: 0 <= p < |history[k].loads| ==> history[k].loads[p] < INT_MAX
    requires |history| + |events| < INT_MAX
    requires pid in FromStart(pl, history).apps && ClimbRun(events, pid)
    requires FeedbackCount(events, pid) >= 100 * pl.numPUs - Band(FromStart(pl, history), pid)
    ensures var s := FromStart(pl, history);
            var t := Run(pl, s, events);
            && pid in t.apps
            && ((t.apps[pid].pus == pl.PuSet() && t.apps[pid].cpuMax == Num(100 * pl.numPUs)) <==> Band(s, pid) >= 7)
  {
    ReachableIsRoomy(pl, history, |events|);
    EnoughLowFeedbackGivesEverything(pl, FromStart(pl, history), pid, events);
  }

  lemma {:induction false} Descend(pl: Platform, s: State, pid: int, events: seq<Event>)
    requires pl.Valid() && Invariant(pl, s) && AcceptableRun(pl.numPUs, events)
    requires pid in s.apps && DescentRun(events, pid)
    ensures var t := Run(pl, s, events);
            && pid in t.apps && Coupled(t.apps[pid])
            && (Band(t, pid) <= Band(s, pid) - FeedbackCount(events, pid) || Band(t, pid) == 0)
    decreases |events|
  {
    if events != [] {
      var n := |events| - 1;
      var e := events[n];
      Descend(pl, s, pid, events[..n]);
      var t := Run(pl, s, events[..n]);
      if e.Feedback? && e.pid == pid {
        AboveLimitLowers(pl, t, pid, e.value);
      } else {
        OtherEventsLeaveAppAlone(pl, t, e, pid);
      }
    }
  }

  // As many above-limit feedbacks as the band has percent leave the app one PU and a band of 0
  lemma EnoughHighFeedbackTakesEverything(pl: Platform, s: State, pid: int, events: seq<Event>)
    requires pl.Valid() && Invariant(pl, s) && AcceptableRun(pl.numPUs, events)
    requires pid in s.apps && DescentRun(events, pid)
    requires FeedbackCount(events, pid) >= Band(s, pid)
    ensures var t := Run(pl, s, events);
            pid in t.apps && |t.apps[pid].pus| == 1 && t.apps[pid].cpuMax == Num(0)
  {
    Descend(pl, s, pid, events);
    assert |Run(pl, s, events).apps[pid].pus| != 0;
  }

  // From there no amount of below-limit feedback brings anything back
  lemma {:induction false} TakenIsNeverGivenBack(pl: Platform, s: State, pid: int, down: seq<Event>, up: seq<Event>)
    requires pl.Valid() && Invariant(pl, s)
    requires AcceptableRun(pl.numPUs, down) && AcceptableRun(pl.numPUs, up)
    requires pid in s.apps && DescentRun(down, pid) && FeedbackCount(down, pid) >= Band(s, pid)
    requires ClimbRun(up, pid) && Roomy(Run(pl, s, down), |up|)
    ensures var t := Run(pl, Run(pl, s, down), up);
            pid in t.apps && t.apps[pid].cpuMax == Num(0)
  {
    EnoughHighFeedbackTakesEverything(pl, s, pid, down);
    Climb(pl, Run(pl, s, down), pid, up, 0);
  }
}
