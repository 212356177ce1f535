/** The effect of each event on the state of PuProgressivePolicy
    (rm/policymanager/policies/puprogressivepolicy.cpp), and what holds of every run. */
module ProgressiveModel {
  import opened PuSearch
  import opened PuRemoval
  import opened Allocation

  const LOWER_LIMIT := 80
  const UPPER_LIMIT := 120
  const INITIAL_BAND := 100

  // ---------- one quota step: multiply by 1.15 or 0.85 and truncate ----------

  datatype QuotaStep = QuotaStep(changed: bool, cpuMax: NumericValue)

  function Increase(cpuMax: NumericValue, numPUs: int): QuotaStep {
    match cpuMax
    case Max => QuotaStep(false, cpuMax)
    case Num(band) =>
      var maxBand := numPUs * 100;
      if band >= maxBand then QuotaStep(false, cpuMax)
      else
        var newBand := band * 115 / 100;
        QuotaStep(true, Num(if newBand < maxBand then newBand else maxBand))
  }

  function Decrease(cpuMax: NumericValue, numPUs: int): QuotaStep {
    var band := if cpuMax.Max? then numPUs * 100 else cpuMax.value;
    var minBand := (numPUs - 1) * 100;
    if band <= minBand || band <= 0 then QuotaStep(false, cpuMax)
    else
      var newBand := band * 85 / 100;
      QuotaStep(true, Num(if newBand > minBand then newBand else minBand))
  }

  // ---------- events ----------

  // What a feedback leaves of the app and of the PU counts
  datatype Outcome = Outcome(app: App, counts: seq<int>)

  // The quota is at its upper limit: grant newPU (-1 is none) and take a second quota step
  function Granted(app: App, counts: seq<int>, value: int, newPU: int): Outcome
    requires newPU == -1 || 0 <= newPU < |counts|
  {
    if newPU == -1 then Outcome(app.(lastFeedback := value), counts)
    else
      var pus := app.pus + {newPU};
      Outcome(App(pus, Increase(app.cpuMax, |pus|).cpuMax, value), Bump(counts, newPU, 1))
  }

  // The quota is at its lower limit: take remPU (-1 is none) and take a second quota step
  function Taken(app: App, counts: seq<int>, value: int, remPU: int): Outcome
    requires remPU == -1 || 0 <= remPU < |counts|
  {
    if remPU == -1 then Outcome(app.(lastFeedback := value), counts)
    else
      var pus := app.pus - {remPU};
      Outcome(App(pus, Decrease(app.cpuMax, |pus|).cpuMax, value), Bump(counts, remPU, -1))
  }

  // A quota step that acts ends the feedback, which then leaves lastFeedback as it was
  function LowOutcome(app: App, counts: seq<int>, value: int, newPU: int): Outcome
    requires newPU == -1 || 0 <= newPU < |counts|
  {
    var step := Increase(app.cpuMax, |app.pus|);
    if step.changed then Outcome(app.(cpuMax := step.cpuMax), counts) else Granted(app, counts, value, newPU)
  }

  function HighOutcome(app: App, counts: seq<int>, value: int, remPU: int): Outcome
    requires remPU == -1 || 0 <= remPU < |counts|
  {
    var step := Decrease(app.cpuMax, |app.pus|);
    if step.changed then Outcome(app.(cpuMax := step.cpuMax), counts) else Taken(app, counts, value, remPU)
  }

  ghost predicate OnPlatform(pl: Platform, app: App, counts: seq<int>, loads: seq<int>) {
    |counts| == pl.numPUs && Loads(pl.numPUs, loads) && app.pus <= pl.PuSet()
  }

  ghost function FeedbackOutcome(pl: Platform, app: App, counts: seq<int>, loads: seq<int>, value: int): Outcome
    requires OnPlatform(pl, app, counts, loads)
  {
    if value < LOWER_LIMIT then
      var newPU := NewPU(pl, counts, loads, app.pus);
      LowOutcome(app, counts, value, newPU)
    else if value > UPPER_LIMIT then
      var remPU := WorstPU(pl, app.pus);
      assert remPU == -1 || remPU in pl.PuSet();
      HighOutcome(app, counts, value, remPU)
    else Outcome(app.(lastFeedback := value), counts)
  }

  ghost function FeedbackStep(pl: Platform, s: State, pid: int, value: int): State
    requires Placed(pl, s)
  {
    if pid !in s.apps then s
    else
      var o := FeedbackOutcome(pl, s.apps[pid], s.counts, s.loads, value);
      State(o.counts, s.loads, s.apps[pid := o.app])
  }

  ghost function Step(pl: Platform, s: State, e: Event): State
    requires pl.Valid() && Placed(pl, s)
  {
    match e
    case Add(pid, _) => Admit(s, pid, LowerUsage(s.counts, s.loads), Num(INITIAL_BAND))
    case Remove(pid) => Release(s, pid)
    case Feedback(pid, value) => FeedbackStep(pl, s, pid, value)
    case Monitor(loads) => s.(loads := loads)
    case Timer => s
  }

  // ---------- what every event keeps ----------

  // With n PUs the band lies between n-1 and n full PUs
  ghost predicate Coupled(app: App) {
    && app.pus != {} && app.cpuMax.Num?
    && (|app.pus| - 1) * 100 <= app.cpuMax.value <= |app.pus| * 100
  }

  ghost predicate Invariant(pl: Platform, s: State) {
    Placed(pl, s) && forall pid :: pid in s.apps ==> Coupled(s.apps[pid])
  }

  lemma SizeAfterAdding(pus: set<int>, p: int)
    requires p !in pus
    ensures |pus + {p}| == |pus| + 1
  {
  }

  lemma SizeAfterTaking(pus: set<int>, p: int)
    requires p in pus
    ensures |pus - {p}| == |pus| - 1
  {
  }

  // n PUs at a band between n-1 and n full PUs: when a quota step acts and how far it goes
  lemma IncreaseFacts(band: int, n: int)
    requires n >= 1 && (n - 1) * 100 <= band <= n * 100
    ensures var step := Increase(Num(band), n);
            && (step.changed <==> band < n * 100)
            && step.cpuMax.Num? && band <= step.cpuMax.value <= n * 100
            && (band < n * 100 ==> (step.cpuMax.value > band <==> band >= 7))
    ensures band == n * 100 ==>
              var again := Increase(Num(band), n + 1).cpuMax; again.Num? && band < again.value <= (n + 1) * 100
  {
  }

  lemma DecreaseFacts(band: int, n: int)
    requires n >= 1 && (n - 1) * 100 <= band <= n * 100
    ensures var step := Decrease(Num(band), n);
            && (step.changed <==> band > (n - 1) * 100)
            && step.cpuMax.Num? && (n - 1) * 100 <= step.cpuMax.value <= band
            && (step.changed ==> step.cpuMax.value < band)
    ensures n >= 2 && band == (n - 1) * 100 ==>
              Decrease(Num(band), n - 1).cpuMax.Num? && (n - 2) * 100 <= Decrease(Num(band), n - 1).cpuMax.value < band
  {
  }

  // b' is 115 percent of b without its fraction, or the cap when that is reached
  ghost predicate RaisedTo(b: int, b': int, cap: int) {
    if 115 * b >= 100 * cap then b' == cap else 100 * b' <= 115 * b < 100 * (b' + 1)
  }

  // b' is 85 percent of b without its fraction, or the bottom when that is not above it
  ghost predicate LoweredTo(b: int, b': int, bottom: int) {
    if 85 * b < 100 * (bottom + 1) then b' == bottom else 100 * b' <= 85 * b < 100 * (b' + 1)
  }

  // How far a quota step goes, from any band on n PUs
  lemma IncreaseScales(band: int, n: nat)
    requires band >= 0
    ensures var step := Increase(Num(band), n);
            && (step.changed <==> band < n * 100)
            && step.cpuMax.Num?
            && (if band < n * 100 then RaisedTo(band, step.cpuMax.value, n * 100) else step.cpuMax.value == band)
    ensures Increase(Max, n) == QuotaStep(false, Max)
  {
  }

  lemma DecreaseScales(cpuMax: NumericValue, n: nat)
    requires n >= 1 && (cpuMax.Num? ==> cpuMax.value >= 0)
    ensures var step := Decrease(cpuMax, n);
            var band := if cpuMax.Max? then n * 100 else cpuMax.value;
            && (step.changed <==> band > (n - 1) * 100)
            && (if step.changed then step.cpuMax.Num? && LoweredTo(band, step.cpuMax.value, (n - 1) * 100)
                else step.cpuMax == cpuMax)
  {
  }

  // The app stays coupled and on the platform, and the counts move with its PUs
  ghost predicate GoodOutcome(pl: Platform, app: App, counts: seq<int>, o: Outcome) {
    && Coupled(o.app) && o.app.pus <= pl.PuSet()
    && |o.counts| == |counts|
    && forall p :: 0 <= p < |counts| ==>
         o.counts[p] == counts[p] + (if p in o.app.pus then 1 else 0) - (if p in app.pus then 1 else 0)
  }

  lemma LowOutcomeIsGood(pl: Platform, app: App, counts: seq<int>, value: int, newPU: int)
    requires Coupled(app) && app.pus <= pl.PuSet() && |counts| == pl.numPUs
    requires newPU == -1 || (newPU in pl.PuSet() && newPU !in app.pus)
    ensures GoodOutcome(pl, app, counts, LowOutcome(app, counts, value, newPU))
  {
    IncreaseFacts(app.cpuMax.value, |app.pus|);
    if newPU != -1 { SizeAfterAdding(app.pus, newPU); }
  }

  lemma HighOutcomeIsGood(pl: Platform, app: App, counts: seq<int>, value: int, remPU: int)
    requires Coupled(app) && app.pus <= pl.PuSet() && |counts| == pl.numPUs
    requires remPU in app.pus || remPU == -1
    requires remPU == -1 <==> |app.pus| == 1
    ensures remPU == -1 || 0 <= remPU < |counts|
    ensures GoodOutcome(pl, app, counts, HighOutcome(app, counts, value, remPU))
  {
    DecreaseFacts(app.cpuMax.value, |app.pus|);
    if remPU != -1 {
      SizeAfterTaking(app.pus, remPU);
      assert remPU in pl.PuSet();
    }
  }

  lemma OutcomeIsGood(pl: Platform, app: App, counts: seq<int>, loads: seq<int>, value: int)
    requires pl.Valid() && OnPlatform(pl, app, counts, loads) && Coupled(app)
    ensures GoodOutcome(pl, app, counts, FeedbackOutcome(pl, app, counts, loads, value))
  {
    if value < LOWER_LIMIT {
      LowOutcomeIsGood(pl, app, counts, value, NewPU(pl, counts, loads, app.pus));
    } else if value > UPPER_LIMIT {
      WorstPUSpec(pl, app.pus);
      HighOutcomeIsGood(pl, app, counts, value, WorstPU(pl, app.pus));
    }
  }

  lemma StepKeepsInvariant(pl: Platform, s: State, e: Event)
    requires pl.Valid() && Invariant(pl, s) && Acceptable(pl.numPUs, e)
    ensures Invariant(pl, Step(pl, s, e))
    ensures Accounted(s, e, Step(pl, s, e), LowerUsage(s.counts, s.loads))
  {
    match e
    case Add(pid, _) =>
      AdmitKeepsPlacement(pl, s, pid, LowerUsage(s.counts, s.loads), Num(INITIAL_BAND));
    case Remove(pid) =>
      ReleaseKeepsPlacement(pl, s, pid);
    case Feedback(pid, value) =>
      if pid in s.apps {
        OutcomeIsGood(pl, s.apps[pid], s.counts, s.loads, value);
        var o := FeedbackOutcome(pl, s.apps[pid], s.counts, s.loads, value);
        FollowKeepsPlacement(pl, s, pid, o.app, o.counts);
      }
    case Monitor(loads) =>
      var t := s.(loads := loads);
      assert forall p :: 0 <= p < pl.numPUs ==> Surplus(t, p) == Surplus(s, p);
    case Timer =>
  }

  // A new app starts on the PU in lowest use with one full PU
  lemma AddedApp(pl: Platform, s: State, pid: int, cgroupMax: NumericValue)
    requires pl.Valid() && Placed(pl, s) && pid !in s.apps
    ensures var t := Step(pl, s, Add(pid, cgroupMax));
            && t.apps.Keys == s.apps.Keys + {pid} && t.apps[pid] == App({LowerUsage(s.counts, s.loads)}, Num(100), -1)
            && forall q :: q in s.apps ==> t.apps[q] == s.apps[q]
  {
  }

  // Below 80 the band is raised as far as the PUs of the app allow; an app at that limit gets r, if it is a PU, and its
  // band is raised with one PU more
  ghost predicate LowEffect(app: App, counts: seq<int>, value: int, r: int, app': App, counts': seq<int>)
    requires Coupled(app)
  {
    var n, b := |app.pus|, app.cpuMax.value;
    if b < n * 100 then
      && app'.cpuMax.Num? && RaisedTo(b, app'.cpuMax.value, n * 100)
      && app' == app.(cpuMax := app'.cpuMax) && counts' == counts
    else if r == -1 then app' == app.(lastFeedback := value) && counts' == counts
    else
      && app'.cpuMax.Num? && RaisedTo(b, app'.cpuMax.value, (n + 1) * 100)
      && app' == App(app.pus + {r}, app'.cpuMax, value) && Moved(counts, counts', r, 1)
  }

  // Above 120 it is the other way round
  ghost predicate HighEffect(app: App, counts: seq<int>, value: int, r: int, app': App, counts': seq<int>)
    requires Coupled(app)
  {
    var n, b := |app.pus|, app.cpuMax.value;
    if b > (n - 1) * 100 then
      && app'.cpuMax.Num? && LoweredTo(b, app'.cpuMax.value, (n - 1) * 100)
      && app' == app.(cpuMax := app'.cpuMax) && counts' == counts
    else if r == -1 then app' == app.(lastFeedback := value) && counts' == counts
    else
      && app'.cpuMax.Num? && LoweredTo(b, app'.cpuMax.value, (n - 2) * 100)
      && app' == App(app.pus - {r}, app'.cpuMax, value) && Moved(counts, counts', r, -1)
  }

  lemma LowDoes(app: App, counts: seq<int>, value: int, newPU: int)
    requires Coupled(app) && (newPU == -1 || (0 <= newPU < |counts| && newPU !in app.pus))
    ensures var o := LowOutcome(app, counts, value, newPU);
            LowEffect(app, counts, value, newPU, o.app, o.counts)
  {
    hide Increase, RaisedTo;
    var n, b := |app.pus|, app.cpuMax.value;
    assert n != 0;
    IncreaseScales(b, n);
    if newPU != -1 {
      IncreaseScales(b, n + 1);
      SizeAfterAdding(app.pus, newPU);
    }
  }

  lemma HighDoes(app: App, counts: seq<int>, value: int, remPU: int)
    requires Coupled(app) && (remPU == -1 || (0 <= remPU < |counts| && remPU in app.pus))
    requires remPU == -1 <==> |app.pus| == 1
    ensures var o := HighOutcome(app, counts, value, remPU);
            HighEffect(app, counts, value, remPU, o.app, o.counts)
  {
    hide Decrease, LoweredTo;
    var n, b := |app.pus|, app.cpuMax.value;
    assert n != 0;
    DecreaseScales(app.cpuMax, n);
    if remPU != -1 {
      DecreaseScales(app.cpuMax, n - 1);
      SizeAfterTaking(app.pus, remPU);
    }
  }

  // What a feedback does: from 80 to 120 it is only recorded, outside it moves the band, or a PU, of this app only
  lemma FeedbackDoes(pl: Platform, s: State, pid: int, value: int)
    requires pl.Valid() && Invariant(pl, s) && pid in s.apps
    ensures var t, app := Step(pl, s, Feedback(pid, value)), s.apps[pid];
            && t.loads == s.loads && t.apps.Keys == s.apps.Keys
            && (forall q :: q in s.apps && q != pid ==> t.apps[q] == s.apps[q])
            && (80 <= value <= 120 ==> t.apps[pid] == app.(lastFeedback := value) && t.counts == s.counts)
            && (value < 80 ==>
                  LowEffect(app, s.counts, value, NewPU(pl, s.counts, s.loads, app.pus), t.apps[pid], t.counts))
            && (value > 120 ==> HighEffect(app, s.counts, value, WorstPU(pl, app.pus), t.apps[pid], t.counts))
  {
    hide NewPU, WorstPU, LowOutcome, HighOutcome, LowEffect, HighEffect;
    var app := s.apps[pid];
    if value < 80 {
      LowDoes(app, s.counts, value, NewPU(pl, s.counts, s.loads, app.pus));
    } else if value > 120 {
      WorstPUSpec(pl, app.pus);
      var r := WorstPU(pl, app.pus);
      assert r != -1 ==> r in pl.PuSet();
      HighDoes(app, s.counts, value, r);
    }
  }

  // ---------- runs ----------

  ghost function Run(pl: Platform, s: State, events: seq<Event>): (t: State)
    requires pl.Valid() && Invariant(pl, s) && AcceptableRun(pl.numPUs, events)
    ensures Invariant(pl, t)
  {
    if events == [] then s
    else
      var n := |events| - 1;
      var t := Run(pl, s, events[..n]);
      StepKeepsInvariant(pl, t, events[n]);
      Step(pl, t, events[n])
  }
}
