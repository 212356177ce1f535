/** What SecurityAwarePolicy (rm/policymanager/policies/securityawarepolicy.cpp) does to one app
    as alerts, feedback, threshold changes and operator clears arrive, over whole histories. */
module SecurityModel {
  import opened Allocation
  import opened ContainmentState
  import ProgressiveModel

  datatype Level = UNCLASSIFIED | LOW | MEDIUM | HIGH | CRITICAL

  function TolOffset(level: Level): real {
    match level
    case MEDIUM => 0.05
    case HIGH => 0.10
    case CRITICAL => 0.15
    case _ => 0.0
  }

  // The share of the platform left to a throttled app, in percent
  function StepPercent(level: Level): int {
    match level
    case HIGH => 80
    case CRITICAL => 80
    case MEDIUM => 65
    case _ => 50
  }

  predicate Isolated(level: Level) {
    level == HIGH || level == CRITICAL
  }

  // An app's mapping and the cgroup values written for it
  datatype SecApp = SecApp(level: Level, tracker: Tracker, sai: real, quarantine: bool, frozen: bool,
                           cpuMax: NumericValue, pus: set<int>, pidsMax: NumericValue,
                           baseline: int, lastFeedback: int)

  // The app as addApp leaves it: full cpu on its assigned PU, in a cgroup whose pids.max and
  // cgroup.freeze files still hold the kernel's defaults
  function Added(level: Level, homePU: int, baseline: int): SecApp {
    SecApp(level, FRESH, 0.0, false, false, Max, {homePU}, Max, baseline, NO_FEEDBACK)
  }

  // ---------- applyState ----------

  function ThrottleBand(level: Level, numPUs: int): int {
    var full := (if numPUs > 1 then numPUs else 1) * 100;
    var band := full * StepPercent(level) / 100;
    if band > 10 then band else 10
  }

  // The baseline taken at addApp, or the present number of tasks when none was recorded
  function PidsCap(baseline: int, currentPids: int): (cap: int)
    ensures cap > 0 && (baseline > 0 ==> cap == baseline)
  {
    if baseline > 0 then baseline else if currentPids > 0 then currentPids else 1
  }

  function Contained(app: SecApp, state: SecState, numPUs: int, homePU: int, currentPids: int): SecApp {
    match state
    case OBSERVE =>
      app.(quarantine := false, cpuMax := Max, pidsMax := Max, pus := if numPUs > 0 then {homePU} else app.pus)
    case THROTTLE => app.(cpuMax := Num(ThrottleBand(app.level, numPUs)))
    case RESTRICT => app.(cpuMax := Num(20), pus := {0}, pidsMax := Num(PidsCap(app.baseline, currentPids)))
    case QUARANTINE => app.(quarantine := true, frozen := true)
  }

  // ---------- events ----------

  function Alerted(app: SecApp, sai: real, th: Thresholds, numPUs: int, homePU: int, currentPids: int): SecApp {
    var t := Next(app.tracker, Target(sai, th, TolOffset(app.level)), th.dwellN);
    var a := app.(sai := sai, tracker := t);
    if t.state != app.tracker.state then Contained(a, t.state, numPUs, homePU, currentPids) else a
  }

  function Cleared(app: SecApp, numPUs: int, homePU: int, currentPids: int): SecApp {
    Contained(app.(tracker := FRESH, frozen := false, quarantine := false, sai := 0.0),
              OBSERVE, numPUs, homePU, currentPids)
  }

  const LOWER_LIMIT := 80
  const UPPER_LIMIT := 120
  const SECOND_PU := 1

  // With the quota at its limit, an isolated app on a single PU is also given PU 1
  predicate GetsSecondPU(app: SecApp, value: int) {
    && !app.quarantine && value < LOWER_LIMIT && Isolated(app.level) && |app.pus| == 1
    && !ProgressiveModel.Increase(app.cpuMax, |app.pus|).changed
  }

  function Fed(app: SecApp, value: int): SecApp {
    var up := ProgressiveModel.Increase(app.cpuMax, |app.pus|);
    var down := ProgressiveModel.Decrease(app.cpuMax, |app.pus|);
    if app.quarantine then app
    else if value < LOWER_LIMIT && up.changed then app.(cpuMax := up.cpuMax)
    else if GetsSecondPU(app, value) then
      var pus := app.pus + {SECOND_PU};
      app.(pus := pus, cpuMax := ProgressiveModel.Increase(app.cpuMax, |pus|).cpuMax, lastFeedback := value)
    else if value > UPPER_LIMIT && down.changed then app.(cpuMax := down.cpuMax)
    else app.(lastFeedback := value)
  }

  // currentPids is what pids.current holds when the event is handled
  datatype AppEvent =
    | Alert(sai: real, currentPids: int)
    | Feedback(value: int)
    | ClearApp(currentPids: int)
    | SetThresholds(th: Thresholds)

  // The app together with the policy's thresholds
  datatype Managed = Managed(app: SecApp, th: Thresholds)

  function Handle(m: Managed, e: AppEvent, numPUs: int, homePU: int): Managed {
    match e
    case Alert(sai, currentPids) => m.(app := Alerted(m.app, sai, m.th, numPUs, homePU, currentPids))
    case Feedback(value) => m.(app := Fed(m.app, value))
    case ClearApp(currentPids) => m.(app := Cleared(m.app, numPUs, homePU, currentPids))
    case SetThresholds(th) => m.(th := th)
  }

  function History(m: Managed, events: seq<AppEvent>, numPUs: int, homePU: int): Managed {
    if events == [] then m
    else Handle(History(m, events[..|events| - 1], numPUs, homePU), events[|events| - 1], numPUs, homePU)
  }

  // ---------- what one event writes ----------

  // An alert that leaves the state as it is only records the SAI and the tracker. One that changes it to THROTTLE
  // leaves the app 50 percent of the platform, 65 for a medium and 80 for a higher level, and 10 at least; to RESTRICT,
  // 20 percent of PU 0 and no more processes than it started with; to QUARANTINE, it is frozen with all it has; to
  // OBSERVE, it gets everything back on its own PU.
  lemma AlertWrites(app: SecApp, sai: real, th: Thresholds, numPUs: int, homePU: int, currentPids: int)
    ensures var a := Alerted(app, sai, th, numPUs, homePU, currentPids);
            var judged := app.(sai := sai, tracker := a.tracker);
            if a.tracker.state == app.tracker.state then a == judged
            else match a.tracker.state
              case THROTTLE =>
                var percent := if app.level == HIGH || app.level == CRITICAL then 80
                               else if app.level == MEDIUM then 65 else 50;
                var share := percent * (if numPUs > 1 then numPUs else 1);
                a == judged.(cpuMax := Num(if share > 10 then share else 10))
              case RESTRICT =>
                var pids := if app.baseline > 0 then app.baseline else if currentPids > 0 then currentPids else 1;
                a == judged.(cpuMax := Num(20), pus := {0}, pidsMax := Num(pids))
              case QUARANTINE => a == judged.(quarantine := true, frozen := true)
              case OBSERVE =>
                a == judged.(quarantine := false, cpuMax := Max, pidsMax := Max,
                             pus := if numPUs > 0 then {homePU} else app.pus)
  {
  }

  // The SAI at which an app is frozen, by its level
  lemma FrozenFrom(app: SecApp, sai: real, th: Thresholds, numPUs: int, homePU: int, currentPids: int)
    requires app.tracker.state != QUARANTINE
    ensures var tolerance := match app.level
              case MEDIUM => 0.05
              case HIGH => 0.10
              case CRITICAL => 0.15
              case _ => 0.0;
            Alerted(app, sai, th, numPUs, homePU, currentPids).tracker.state == QUARANTINE <==>
            sai >= th.t3 + tolerance
  {
  }

  // A feedback leaves a quarantined app alone, and from 80 to 120 it is only recorded. Below 80 it raises the band as
  // far as the PUs of the app allow; at that limit an app of an isolated level on one PU gets PU 1 as well. Above 120
  // it lowers the band down to one PU less; "max" then counts as all of the app's PUs.
  lemma FedDoes(app: SecApp, value: int)
    requires app.pus != {} && (app.cpuMax.Num? ==> app.cpuMax.value >= 0)
    ensures var a, n := Fed(app, value), |app.pus|;
            var full := app.cpuMax.Max? || app.cpuMax.value >= n * 100;
            var band := if app.cpuMax.Max? then n * 100 else app.cpuMax.value;
            if app.quarantine then a == app
            else if 80 <= value <= 120 then a == app.(lastFeedback := value)
            else if value < 80 && !full then
              a.cpuMax.Num? && a == app.(cpuMax := a.cpuMax) && ProgressiveModel.RaisedTo(band, a.cpuMax.value, n * 100)
            else if value < 80 && (app.level == HIGH || app.level == CRITICAL) && n == 1 then
              && a == app.(pus := app.pus + {1}, cpuMax := a.cpuMax, lastFeedback := value)
              && (if app.cpuMax.Max? || app.pus == {1} then a.cpuMax == app.cpuMax
                  else a.cpuMax.Num? && (band < 200 ==> ProgressiveModel.RaisedTo(band, a.cpuMax.value, 200)))
            else if value > 120 && band > (n - 1) * 100 then
              && a.cpuMax.Num? && a == app.(cpuMax := a.cpuMax)
              && ProgressiveModel.LoweredTo(band, a.cpuMax.value, (n - 1) * 100)
            else a == app.(lastFeedback := value)
  {
    hide ProgressiveModel.Increase, ProgressiveModel.Decrease, ProgressiveModel.RaisedTo, ProgressiveModel.LoweredTo;
    var n := |app.pus|;
    assert n != 0;
    if app.cpuMax.Num? {
      ProgressiveModel.IncreaseScales(app.cpuMax.value, n);
      ProgressiveModel.IncreaseScales(app.cpuMax.value, |app.pus + {1}|);
    } else {
      ProgressiveModel.IncreaseScales(0, n);
      ProgressiveModel.IncreaseScales(0, |app.pus + {1}|);
    }
    ProgressiveModel.DecreaseScales(app.cpuMax, n);
    if n == 1 { OneOrTwo(app.pus); }
  }

  lemma OneOrTwo(pus: set<int>)
    requires |pus| == 1
    ensures |pus + {1}| == if pus == {1} then 1 else 2
  {
    if 1 in pus {
      assert |pus - {1}| == 0 && pus == (pus - {1}) + {1};
    } else {
      assert pus + {1} != pus;
      assert |pus + {1}| == 2;
    }
  }

  // ---------- effects over all histories ----------

  ghost predicate EffectsMatch(app: SecApp) {
    && (app.frozen <==> app.tracker.state == QUARANTINE)
    && (app.quarantine <==> app.tracker.state == QUARANTINE)
    && (app.tracker.state == OBSERVE ==> app.pidsMax == Max)
    && (app.tracker.state == RESTRICT ==>
          && app.pidsMax.Num? && app.pidsMax.value > 0
          && (app.baseline > 0 ==> app.pidsMax.value == app.baseline))
    && (app.pidsMax.Num? ==> app.pidsMax.value > 0 && (app.baseline > 0 ==> app.pidsMax.value == app.baseline))
  }

  lemma HandleKeepsEffects(m: Managed, e: AppEvent, numPUs: int, homePU: int)
    requires EffectsMatch(m.app)
    ensures EffectsMatch(Handle(m, e, numPUs, homePU).app)
    ensures Handle(m, e, numPUs, homePU).app.level == m.app.level
    ensures Handle(m, e, numPUs, homePU).app.baseline == m.app.baseline
  {
  }

  // After any history an app is frozen if and only if its quarantine flag is set, if and only
  // if its tracker is in QUARANTINE; in OBSERVE its processes are unlimited, in RESTRICT they
  // are capped at the baseline recorded when it was added
  lemma {:induction false} EffectsFollowState(
    level: Level, homePU: int, baseline: int, th: Thresholds, events: seq<AppEvent>, numPUs: int)
    ensures var app := History(Managed(Added(level, homePU, baseline), th), events, numPUs, homePU).app;
            EffectsMatch(app) && app.level == level && app.baseline == baseline
  {
    if events != [] {
      var n := |events| - 1;
      EffectsFollowState(level, homePU, baseline, th, events[..n], numPUs);
      var before := History(Managed(Added(level, homePU, baseline), th), events[..n], numPUs, homePU);
      HandleKeepsEffects(before, events[n], numPUs, homePU);
    }
  }

  // An operator clear after any history leaves the app as it was added, its last feedback aside
  lemma ClearIsReset(
    level: Level, homePU: int, baseline: int, th: Thresholds, events: seq<AppEvent>, numPUs: int, currentPids: int)
    requires numPUs > 0
    ensures var app := History(Managed(Added(level, homePU, baseline), th), events, numPUs, homePU).app;
            Cleared(app, numPUs, homePU, currentPids) ==
            Added(level, homePU, baseline).(lastFeedback := app.lastFeedback)
  {
    EffectsFollowState(level, homePU, baseline, th, events, numPUs);
  }

  // On which PUs the app runs: in OBSERVE on its own, in RESTRICT on PU 0; an isolated level may have PU 1 as well
  ghost predicate WhereStateSays(app: SecApp, homePU: int) {
    && (exists pu :: pu in {0, homePU} && RunsOn(app, pu))
    && (app.tracker.state == OBSERVE ==> RunsOn(app, homePU))
    && (app.tracker.state == RESTRICT ==> RunsOn(app, 0))
  }

  ghost predicate RunsOn(app: SecApp, pu: int) {
    app.pus == {pu} || ((app.level == HIGH || app.level == CRITICAL) && app.pus == {pu, 1})
  }

  lemma SamePUs(app: SecApp, after: SecApp, homePU: int)
    requires WhereStateSays(app, homePU) && after.pus == app.pus && after.level == app.level
    requires || after.tracker.state == app.tracker.state
             || (after.tracker.state != OBSERVE && after.tracker.state != RESTRICT)
    ensures WhereStateSays(after, homePU)
  {
    var pu :| pu in {0, homePU} && RunsOn(app, pu);
    assert forall x :: RunsOn(app, x) ==> RunsOn(after, x);
  }

  lemma AlertKeepsPlace(
    app: SecApp, sai: real, th: Thresholds, numPUs: int, homePU: int, currentPids: int)
    requires numPUs > 0 && WhereStateSays(app, homePU)
    ensures WhereStateSays(Alerted(app, sai, th, numPUs, homePU, currentPids), homePU)
  {
    hide Alerted, WhereStateSays;
    var after := Alerted(app, sai, th, numPUs, homePU, currentPids);
    AlertWrites(app, sai, th, numPUs, homePU, currentPids);
    if after.tracker.state != app.tracker.state && after.tracker.state == RESTRICT {
      OnOnePU(after, 0, homePU);
    } else if after.tracker.state != app.tracker.state && after.tracker.state == OBSERVE {
      OnOnePU(after, homePU, homePU);
    } else {
      SamePUs(app, after, homePU);
    }
  }

  lemma OnOnePU(app: SecApp, pu: int, homePU: int)
    requires app.pus == {pu} && (pu == homePU || pu == 0)
    requires app.tracker.state == OBSERVE ==> pu == homePU
    requires app.tracker.state == RESTRICT ==> pu == 0
    ensures WhereStateSays(app, homePU)
  {
    assert RunsOn(app, pu);
  }

  lemma FedPUs(app: SecApp, value: int)
    ensures var after := Fed(app, value);
            && after.tracker == app.tracker && after.level == app.level
            && (after.pus == app.pus || ((app.level == HIGH || app.level == CRITICAL) && after.pus == app.pus + {1}))
  {
    hide ProgressiveModel.Increase, ProgressiveModel.Decrease;
  }

  lemma WithSecondPU(app: SecApp, after: SecApp, pu: int)
    requires RunsOn(app, pu) && after.level == app.level && (app.level == HIGH || app.level == CRITICAL)
    requires after.pus == app.pus + {1}
    ensures RunsOn(after, pu)
  {
    assert {pu} + {1} == {pu, 1} && {pu, 1} + {1} == {pu, 1};
  }

  lemma FeedbackKeepsPlace(app: SecApp, value: int, homePU: int)
    requires WhereStateSays(app, homePU)
    ensures WhereStateSays(Fed(app, value), homePU)
  {
    hide Fed, RunsOn;
    var after := Fed(app, value);
    FedPUs(app, value);
    if after.pus == app.pus {
      SamePUs(app, after, homePU);
    } else {
      forall x | RunsOn(app, x) ensures RunsOn(after, x) {
        WithSecondPU(app, after, x);
      }
    }
  }

  lemma HandleKeepsPlace(m: Managed, e: AppEvent, numPUs: int, homePU: int)
    requires numPUs > 0 && WhereStateSays(m.app, homePU)
    ensures WhereStateSays(Handle(m, e, numPUs, homePU).app, homePU)
  {
    hide WhereStateSays, Alerted, Fed, RunsOn;
    match e {
      case Alert(sai, currentPids) => AlertKeepsPlace(m.app, sai, m.th, numPUs, homePU, currentPids);
      case Feedback(value) => FeedbackKeepsPlace(m.app, value, homePU);
      case ClearApp(currentPids) => OnOnePU(Cleared(m.app, numPUs, homePU, currentPids), homePU, homePU);
      case SetThresholds(_) =>
    }
  }

  // After any history an app in RESTRICT runs on PU 0 and one in OBSERVE on the PU it was added on, where an isolated
  // level may have been given PU 1 as well
  lemma {:induction false} PlaceFollowsState(
    level: Level, homePU: int, baseline: int, th: Thresholds, events: seq<AppEvent>, numPUs: int)
    requires numPUs > 0
    ensures WhereStateSays(History(Managed(Added(level, homePU, baseline), th), events, numPUs, homePU).app, homePU)
  {
    hide WhereStateSays, Handle;
    if events == [] {
      StartsAtHome(level, homePU, baseline);
    } else {
      var n := |events| - 1;
      PlaceFollowsState(level, homePU, baseline, th, events[..n], numPUs);
      var before := History(Managed(Added(level, homePU, baseline), th), events[..n], numPUs, homePU);
      HandleKeepsPlace(before, events[n], numPUs, homePU);
    }
  }

  lemma StartsAtHome(level: Level, homePU: int, baseline: int)
    ensures WhereStateSays(Added(level, homePU, baseline), homePU)
  {
    assert RunsOn(Added(level, homePU, baseline), homePU);
  }

  // Until a clear arrives, nothing changes a quarantined app but the recorded SAI
  lemma {:induction false} QuarantineHoldsEverything(m: Managed, events: seq<AppEvent>, numPUs: int, homePU: int)
    requires EffectsMatch(m.app) && m.app.tracker.state == QUARANTINE
    requires forall k :: 0 <= k < |events| ==> !events[k].ClearApp?
    ensures var app := History(m, events, numPUs, homePU).app;
            app == m.app.(sai := app.sai)
  {
    if events != [] { QuarantineHoldsEverything(m, events[..|events| - 1], numPUs, homePU); }
  }

  // ---------- the containment state is the tracker's, whatever else happens ----------

  // The tracker events of a history, under the thresholds in force at each moment
  function TrackerEvents(level: Level, th: Thresholds, events: seq<AppEvent>): seq<TrackerEvent> {
    if events == [] then []
    else
      var before := TrackerEvents(level, th, events[..|events| - 1]);
      match events[|events| - 1]
      case Alert(sai, _) => before + [Sample(sai, ThresholdsAfter(th, events[..|events| - 1]), TolOffset(level))]
      case ClearApp(_) => before + [Clear]
      case _ => before
  }

  function ThresholdsAfter(th: Thresholds, events: seq<AppEvent>): Thresholds {
    if events == [] then th
    else match events[|events| - 1]
      case SetThresholds(newTh) => newTh
      case _ => ThresholdsAfter(th, events[..|events| - 1])
  }

  lemma {:induction false} HistoryIsTrackerRun(m: Managed, events: seq<AppEvent>, numPUs: int, homePU: int)
    ensures var r := History(m, events, numPUs, homePU);
            && r.app.level == m.app.level
            && r.th == ThresholdsAfter(m.th, events)
            && r.app.tracker == Run(m.app.tracker, TrackerEvents(m.app.level, m.th, events))
  {
    if events != [] {
      var n := |events| - 1;
      HistoryIsTrackerRun(m, events[..n], numPUs, homePU);
      var before := TrackerEvents(m.app.level, m.th, events[..n]);
      assert forall e: TrackerEvent :: (before + [e])[..|before|] == before;
    }
  }

  lemma {:induction false} SameShape(a: Level, b: Level, th: Thresholds, events: seq<AppEvent>)
    requires TolOffset(a) >= TolOffset(b)
    ensures |TrackerEvents(a, th, events)| == |TrackerEvents(b, th, events)|
    ensures forall i :: 0 <= i < |TrackerEvents(a, th, events)| ==>
              Milder(TrackerEvents(a, th, events)[i], TrackerEvents(b, th, events)[i])
  {
    if events != [] { SameShape(a, b, th, events[..|events| - 1]); }
  }

  // Of two apps with the same history, the one whose level has the larger tolerance is never
  // contained more severely
  lemma HigherLevelIsGentler(
    a: SecApp, b: SecApp, th: Thresholds, events: seq<AppEvent>, numPUs: int, homeA: int, homeB: int)
    requires TolOffset(a.level) >= TolOffset(b.level)
    requires a.tracker == FRESH && b.tracker == FRESH
    ensures History(Managed(a, th), events, numPUs, homeA).app.tracker.state.Rank() <=
            History(Managed(b, th), events, numPUs, homeB).app.tracker.state.Rank()
  {
    HistoryIsTrackerRun(Managed(a, th), events, numPUs, homeA);
    HistoryIsTrackerRun(Managed(b, th), events, numPUs, homeB);
    SameShape(a.level, b.level, th, events);
    var ta, tb := TrackerEvents(a.level, th, events), TrackerEvents(b.level, th, events);
    TwoTraceMonotone(FRESH, FRESH, ta, tb, |ta|);
    assert ta[..|ta|] == ta && tb[..|tb|] == tb;
  }

  // How the levels are ordered
  function Standing(level: Level): nat {
    match level
    case UNCLASSIFIED => 0
    case LOW => 0
    case MEDIUM => 1
    case HIGH => 2
    case CRITICAL => 3
  }

  // Of two apps with the same history the one of the higher level is never contained more severely
  lemma LevelsAreGentler(
    a: SecApp, b: SecApp, th: Thresholds, events: seq<AppEvent>, numPUs: int, homeA: int, homeB: int)
    requires Standing(a.level) >= Standing(b.level) && a.tracker == FRESH && b.tracker == FRESH
    ensures History(Managed(a, th), events, numPUs, homeA).app.tracker.state.Rank() <=
            History(Managed(b, th), events, numPUs, homeB).app.tracker.state.Rank()
  {
    hide History;
    HigherLevelIsGentler(a, b, th, events, numPUs, homeA, homeB);
  }
}
