/** The effect of each event on the state of MinCoresPolicy
    (rm/policymanager/policies/mincorespolicy.cpp), and what holds of every run. It places apps
    like PuProgressivePolicy, but a low feedback only adds PUs and a high one only cuts the band. */
module MinCoresModel {
  import opened PuSearch
  import opened Allocation

  const LOWER_LIMIT := 90
  const UPPER_LIMIT := 110
  const CUT_PERCENTAGE := 15

  // hasLastPlatformLoad_: some monitor event has arrived
  datatype MinCoresState = MinCoresState(base: State, monitored: bool)

  // getLowerUsagePU(): a monitor event without PU loads makes it answer PU 0
  function InitialPU(counts: seq<int>, loads: seq<int>, monitored: bool): (r: nat)
    requires Loads(|counts|, loads) && counts != []
    ensures r < |counts|
  {
    if monitored && loads == [] then 0 else LowerUsage(counts, loads)
  }

  // decreaseCPUBandwidth: a "max" band counts as one full PU
  function Cut(cpuMax: NumericValue): NumericValue {
    var band := if cpuMax.Max? then 100 else cpuMax.value;
    Num(band - band * CUT_PERCENTAGE / 100)
  }

  // What a feedback leaves of the app and of the PU counts; newPU is the PU to grant, -1 is none
  datatype Outcome = Outcome(app: App, counts: seq<int>)

  function Granted(app: App, counts: seq<int>, value: int, newPU: int): Outcome
    requires newPU == -1 || 0 <= newPU < |counts|
  {
    if newPU == -1 then Outcome(app.(lastFeedback := value), counts)
    else Outcome(App(app.pus + {newPU}, app.cpuMax, value), Bump(counts, newPU, 1))
  }

  ghost function FeedbackOutcome(pl: Platform, app: App, counts: seq<int>, loads: seq<int>, value: int): Outcome
    requires |counts| == pl.numPUs && Loads(pl.numPUs, loads)
  {
    if value < LOWER_LIMIT then
      var newPU := NewPU(pl, counts, loads, app.pus);
      Granted(app, counts, value, newPU)
    else if value > UPPER_LIMIT then Outcome(App(app.pus, Cut(app.cpuMax), value), counts)
    else Outcome(app.(lastFeedback := value), counts)
  }

  ghost function FeedbackStep(pl: Platform, s: State, pid: int, value: int): State
    requires Placed(pl, s)
  {
    if pid !in s.apps then s
    else
      var o := FeedbackOutcome(pl, s.apps[pid], s.counts, s.loads, value);
      State(o.counts, s.loads, s.apps[pid := o.app])
  }

  // addApp leaves cpu.max alone; the cache later picks up what the file holds
  ghost function Step(pl: Platform, m: MinCoresState, e: Event): MinCoresState
    requires pl.Valid() && Placed(pl, m.base)
  {
    var s := m.base;
    match e
    case Add(pid, cgroupMax) => m.(base := Admit(s, pid, InitialPU(s.counts, s.loads, m.monitored), cgroupMax))
    case Remove(pid) => m.(base := Release(s, pid))
    case Feedback(pid, value) => m.(base := FeedbackStep(pl, s, pid, value))
    case Monitor(loads) => MinCoresState(s.(loads := loads), true)
    case Timer => m
  }

  // ---------- what every event keeps ----------

  lemma OutcomeFollows(pl: Platform, app: App, counts: seq<int>, loads: seq<int>, value: int)
    requires pl.Valid() && |counts| == pl.numPUs && Loads(pl.numPUs, loads) && app.pus <= pl.PuSet()
    ensures var o := FeedbackOutcome(pl, app, counts, loads, value);
            && app.pus <= o.app.pus <= pl.PuSet() && |o.counts| == |counts|
            && forall p :: 0 <= p < |counts| ==>
                 o.counts[p] == counts[p] + (if p in o.app.pus then 1 else 0) - (if p in app.pus then 1 else 0)
  {
  }

  lemma StepKeepsPlacement(pl: Platform, m: MinCoresState, e: Event)
    requires pl.Valid() && Placed(pl, m.base) && Acceptable(pl.numPUs, e)
    ensures Placed(pl, Step(pl, m, e).base)
    ensures Accounted(m.base, e, Step(pl, m, e).base, InitialPU(m.base.counts, m.base.loads, m.monitored))
  {
    var s := m.base;
    match e
    case Add(pid, cgroupMax) =>
      AdmitKeepsPlacement(pl, s, pid, InitialPU(s.counts, s.loads, m.monitored), cgroupMax);
    case Remove(pid) =>
      ReleaseKeepsPlacement(pl, s, pid);
    case Feedback(pid, value) =>
      if pid in s.apps {
        OutcomeFollows(pl, s.apps[pid], s.counts, s.loads, value);
        var o := FeedbackOutcome(pl, s.apps[pid], s.counts, s.loads, value);
        FollowKeepsPlacement(pl, s, pid, o.app, o.counts);
      }
    case Monitor(loads) =>
      var t := s.(loads := loads);
      assert forall p :: 0 <= p < pl.numPUs ==> Surplus(t, p) == Surplus(s, p);
    case Timer =>
  }

  // A new app starts on the PU in lowest use, or on PU 0 after a monitor event without loads, with the cpu.max it has
  lemma AddedApp(pl: Platform, m: MinCoresState, pid: int, cgroupMax: NumericValue)
    requires pl.Valid() && Placed(pl, m.base) && pid !in m.base.apps
    ensures var s, t := m.base, Step(pl, m, Add(pid, cgroupMax)).base;
            var pu := if m.monitored && s.loads == [] then 0 else LowerUsage(s.counts, s.loads);
            && t.apps.Keys == s.apps.Keys + {pid} && t.apps[pid] == App({pu}, cgroupMax, -1)
            && forall q :: q in s.apps ==> t.apps[q] == s.apps[q]
  {
  }

  // What a feedback does: below 90 the app gets the new PU of the search, if there is one; above 110 its band, "max"
  // counting as 100, loses 15 percent without their fraction; in either case, and in between, it is recorded
  lemma FeedbackDoes(pl: Platform, m: MinCoresState, pid: int, value: int)
    requires pl.Valid() && Placed(pl, m.base) && pid in m.base.apps
    requires m.base.apps[pid].cpuMax.Num? ==> m.base.apps[pid].cpuMax.value >= 0
    ensures var s, t := m.base, Step(pl, m, Feedback(pid, value)).base;
            var app, app' := s.apps[pid], t.apps[pid];
            var r := NewPU(pl, s.counts, s.loads, app.pus);
            && t.loads == s.loads && t.apps.Keys == s.apps.Keys
            && (forall q :: q in s.apps && q != pid ==> t.apps[q] == s.apps[q])
            && app'.lastFeedback == value
            && (if value < 90 && r != -1 then app'.pus == app.pus + {r} && Moved(s.counts, t.counts, r, 1)
                else app'.pus == app.pus && t.counts == s.counts)
            && (if value > 110 then
                  var band := if app.cpuMax.Max? then 100 else app.cpuMax.value;
                  && app'.cpuMax.Num?
                  && 100 * (band - app'.cpuMax.value) <= 15 * band < 100 * (band - app'.cpuMax.value + 1)
                else app'.cpuMax == app.cpuMax)
  {
    hide NewPU;
  }

  // ---------- runs ----------

  ghost function Run(pl: Platform, m: MinCoresState, events: seq<Event>): (t: MinCoresState)
    requires pl.Valid() && Placed(pl, m.base) && AcceptableRun(pl.numPUs, events)
    ensures Placed(pl, t.base)
  {
    if events == [] then m
    else
      var n := |events| - 1;
      var t := Run(pl, m, events[..n]);
      StepKeepsPlacement(pl, t, events[n]);
      Step(pl, t, events[n])
  }

  ghost function FromStart(pl: Platform, events: seq<Event>): (t: MinCoresState)
    requires pl.Valid() && AcceptableRun(pl.numPUs, events)
    ensures Placed(pl, t.base)
  {
    InitiallyPlaced(pl);
    Run(pl, MinCoresState(InitialState(pl.numPUs), false), events)
  }

  // The states after each prefix of the run
  ghost function Trace(pl: Platform, events: seq<Event>): (r: seq<State>)
    requires pl.Valid() && AcceptableRun(pl.numPUs, events)
    ensures |r| == |events| + 1
  {
    seq(|events| + 1, k requires 0 <= k <= |events| => FromStart(pl, events[..k]).base)
  }

  lemma TraceIsAccounted(pl: Platform, events: seq<Event>, k: nat)
    requires pl.Valid() && AcceptableRun(pl.numPUs, events) && k < |events|
    ensures AccountedStep(Trace(pl, events)[k], events[k], Trace(pl, events)[k + 1])
  {
    var m := FromStart(pl, events[..k]);
    assert events[..k + 1][..k] == events[..k];
    StepKeepsPlacement(pl, m, events[k]);
    assert Accounted(m.base, events[k], Step(pl, m, events[k]).base,
                     InitialPU(m.base.counts, m.base.loads, m.monitored));
  }

  // The counts are conserved exactly as long as no managed pid is added again, and the clamp of
  // removeApp never acts in any reachable state
  lemma Conservation(pl: Platform, events: seq<Event>, pid: int)
    requires pl.Valid() && AcceptableRun(pl.numPUs, events)
    ensures var s := FromStart(pl, events).base;
            && (Conserved(s) <==> !SomeReadd(Trace(pl, events), events, |events|))
            && (pid in s.apps ==> forall p :: p in s.apps[pid].pus ==>
                  0 <= p < pl.numPUs && Release(s, pid).counts[p] == s.counts[p] - 1 >= 0)
  {
    var states := Trace(pl, events);
    InitiallyPlaced(pl);
    forall k | 0 <= k < |events| ensures AccountedStep(states[k], events[k], states[k + 1]) {
      TraceIsAccounted(pl, events, k);
    }
    assert events[..|events|] == events;
    TraceConserves(states, events, |events|);
    ReleaseKeepsPlacement(pl, FromStart(pl, events).base, pid);
  }

  // Loads are those of the last monitor event, and the policy knows whether there was one; a timer event changes
  // nothing
  lemma {:induction false} LoadsAreLast(pl: Platform, events: seq<Event>)
    requires pl.Valid() && AcceptableRun(pl.numPUs, events)
    ensures var m := FromStart(pl, events);
            && m.base.loads == LastLoads(events)
            && (m.monitored <==> exists k :: 0 <= k < |events| && events[k].Monitor?)
            && (events != [] && events[|events| - 1].Timer? ==> m == FromStart(pl, events[..|events| - 1]))
  {
    hide LowerUsage, FeedbackOutcome, InitialPU;
    if events != [] {
      var n := |events| - 1;
      LoadsAreLast(pl, events[..n]);
      if k :| 0 <= k < n && events[k].Monitor? { assert events[..n][k].Monitor?; }
      if k :| 0 <= k < n && events[..n][k].Monitor? { assert events[k].Monitor?; }
    }
  }

  // ---------- nothing is ever given back ----------

  // The band as decreaseCPUBandwidth reads it
  function Band(app: App): int {
    if app.cpuMax.Max? then 100 else app.cpuMax.value
  }

  // Cutting lowers a band of at least 7 and leaves one of 0 to 6 as it is
  lemma CutFacts(cpuMax: NumericValue)
    requires cpuMax.Num? ==> cpuMax.value >= 0
    ensures var band := if cpuMax.Max? then 100 else cpuMax.value;
            var after := Cut(cpuMax);
            && after.Num? && (after.value < band <==> band >= 7) && (band >= 6 ==> after.value >= 6)
            && (band < 7 ==> after.value == band)
  {
  }

  lemma StepNeverGivesBack(pl: Platform, m: MinCoresState, e: Event, pid: int)
    requires pl.Valid() && Placed(pl, m.base) && Acceptable(pl.numPUs, e)
    requires pid in m.base.apps && Band(m.base.apps[pid]) >= 0 && !(e.Remove? && e.pid == pid)
    ensures var t := Step(pl, m, e).base;
            && pid in t.apps
            && m.base.apps[pid].pus <= t.apps[pid].pus
            && 0 <= Band(t.apps[pid]) <= Band(m.base.apps[pid])
            && (Band(m.base.apps[pid]) >= 6 ==> Band(t.apps[pid]) >= 6)
  {
    var s := m.base;
    if e.Feedback? && e.pid == pid {
      OutcomeFollows(pl, s.apps[pid], s.counts, s.loads, e.value);
      CutFacts(s.apps[pid].cpuMax);
    }
  }

  // As long as an app stays managed, its PU set only grows and its band only falls, whatever
  // happens; but a band of at least 6 percent never falls below 6
  lemma {:induction false} NothingIsGivenBack(pl: Platform, m: MinCoresState, events: seq<Event>, pid: int)
    requires pl.Valid() && Placed(pl, m.base) && AcceptableRun(pl.numPUs, events)
    requires pid in m.base.apps && Band(m.base.apps[pid]) >= 0
    requires forall k :: 0 <= k < |events| ==> !(events[k].Remove? && events[k].pid == pid)
    ensures var t := Run(pl, m, events).base;
            && pid in t.apps
            && m.base.apps[pid].pus <= t.apps[pid].pus
            && 0 <= Band(t.apps[pid]) <= Band(m.base.apps[pid])
            && (Band(m.base.apps[pid]) >= 6 ==> Band(t.apps[pid]) >= 6)
    decreases |events|
  {
    if events != [] {
      var n := |events| - 1;
      NothingIsGivenBack(pl, m, events[..n], pid);
      StepNeverGivesBack(pl, Run(pl, m, events[..n]), events[n], pid);
    }
  }
}
