/** The policy object itself, rm/policymanager/policies/puprogressivepolicy.cpp, together with
    the app set that PolicyManager lends it: every handler has exactly the effect that
    ProgressiveModel.Step gives the event. */
module PuProgressivePolicyClass {
  import opened CpusetVector
  import opened PuSearch
  import opened PuRemoval
  import opened Allocation
  import opened AppMappings
  import opened ProgressiveModel

  method IncreaseCPUquota(appMapping: AppMapping) returns (done: bool)
    requires appMapping.WellFormed()
    modifies appMapping`cpuMax
    ensures QuotaStep(done, appMapping.cpuMax) == Increase(old(appMapping.cpuMax), |Members(appMapping.puVec)|)
  {
    CountIsCardinality(appMapping.puVec);
    match appMapping.cpuMax
    case Max => done := false;
    case Num(curBand) =>
      var count := CountPUs(appMapping.puVec);
      var maxBand := count * 100;
      if curBand >= maxBand {
        done := false;
      } else {
        var newBand := curBand * 115 / 100;
        if newBand > maxBand { newBand := maxBand; }
        appMapping.SetCpuMax(Num(newBand));
        done := true;
      }
  }

  method DecreaseCPUquota(appMapping: AppMapping) returns (done: bool)
    requires appMapping.WellFormed()
    modifies appMapping`cpuMax
    ensures QuotaStep(done, appMapping.cpuMax) == Decrease(old(appMapping.cpuMax), |Members(appMapping.puVec)|)
  {
    CountIsCardinality(appMapping.puVec);
    var numPUs := CountPUs(appMapping.puVec);
    var curBand := if appMapping.cpuMax.Max? then numPUs * 100 else appMapping.cpuMax.value;
    var minBand := (numPUs - 1) * 100;
    if curBand <= minBand || curBand <= 0 {
      done := false;
    } else {
      var newBand := curBand * 85 / 100;
      if newBand < minBand { newBand := minBand; }
      appMapping.SetCpuMax(Num(newBand));
      done := true;
    }
  }

  class PuProgressivePolicy {
    const platform: Platform
    var apps: map<int, AppMapping>
    var appsOnPu: seq<int>
    var lastPlatformLoad: seq<int>

    ghost function Abs(): State
      reads this, apps.Values
    {
      State(appsOnPu, lastPlatformLoad, Views(apps))
    }

    // One well-formed mapping per pid, on PUs of the platform
    ghost predicate Shaped()
      reads this, apps.Values
    {
      && platform.Valid() && |appsOnPu| == platform.numPUs && Loads(platform.numPUs, lastPlatformLoad)
      && forall pid :: pid in apps ==>
           apps[pid].pid == pid && apps[pid].OnPUsOf(platform)
    }

    ghost predicate Valid()
      reads this, apps.Values
    {
      Shaped() && Invariant(platform, Abs())
    }

    constructor (platform: Platform)
      requires platform.Valid()
      ensures Valid() && this.platform == platform && Abs() == InitialState(platform.numPUs) && apps == map[]
    {
      this.platform := platform;
      apps := map[];
      appsOnPu := seq(platform.numPUs, i => 0);
      lastPlatformLoad := [];
      new;
      InitiallyPlaced(platform);
      assert Abs() == InitialState(platform.numPUs);
    }

    // addApp, on a mapping that PolicyManager has just made and offered to its set
    method AddApp(appMapping: AppMapping)
      requires platform.Valid() && |appsOnPu| == platform.numPUs && Loads(platform.numPUs, lastPlatformLoad)
      modifies appMapping, this`appsOnPu
      ensures var pu := LowerUsage(old(appsOnPu), lastPlatformLoad);
              && appsOnPu == Bump(old(appsOnPu), pu, 1)
              && appMapping.OnPUsOf(platform)
              && appMapping.View() == App({pu}, Num(INITIAL_BAND), old(appMapping.lastFeedback))
    {
      var initialPU := GetLowerUsage(appsOnPu, lastPlatformLoad);
      SinglePU(initialPU);
      appMapping.SetPuVector([Range(initialPU, initialPU)]);
      appsOnPu := appsOnPu[initialPU := appsOnPu[initialPU] + 1];
      appMapping.SetCpuMax(Num(INITIAL_BAND));
    }

    // PolicyManager::processAddEvent: the set refuses a pid it already holds, the policy does not
    method ProcessAddEvent(pid: int, cgroupMax: NumericValue)
      requires Shaped()
      modifies this
      ensures Shaped()
      ensures var pu := LowerUsage(old(appsOnPu), old(lastPlatformLoad));
              Abs() == Admit(old(Abs()), pid, pu, Num(INITIAL_BAND))
      ensures apps.Keys == old(apps).Keys + {pid}
      ensures forall q :: q in old(apps) ==> apps[q] == old(apps[q])
      ensures pid !in old(apps) ==> fresh(apps[pid])
      ensures fresh(apps.Values - old(apps.Values))
    {
      hide LowerUsage, Canonical, Members, Bump;
      var appMapping := new AppMapping(pid, cgroupMax);
      AddApp(appMapping);
      if pid !in apps {
        ViewsAfterInsert(apps, pid, appMapping);
        apps := apps[pid := appMapping];
      }
    }

    method ProcessRemoveEvent(pid: int)
      requires Shaped()
      modifies this
      ensures Shaped() && Abs() == Release(old(Abs()), pid)
      ensures apps == old(apps) - {pid}
    {
      hide Released, Canonical;
      if pid in apps {
        appsOnPu := ReleasePUs(appsOnPu, apps[pid].puVec);
        apps := apps - {pid};
      }
    }

    method ProcessMonitorEvent(loads: seq<int>)
      requires Shaped() && Loads(platform.numPUs, loads)
      modifies this`lastPlatformLoad
      ensures Shaped() && Abs() == old(Abs()).(loads := loads)
    {
      lastPlatformLoad := loads;
    }
  
    // The quota is at its upper limit: grant one more PU and take a second quota step
    method Expand(appMapping: AppMapping, feedback: int) returns (ghost best: int)
      requires platform.Valid() && appMapping.OnPUsOf(platform)
      requires |appsOnPu| == platform.numPUs && Loads(platform.numPUs, lastPlatformLoad)
      modifies appMapping, this`appsOnPu
      ensures appMapping.OnPUsOf(platform)
      ensures best == NewPU(platform, old(appsOnPu), lastPlatformLoad, old(appMapping.View()).pus)
      ensures best == -1 || 0 <= best < |old(appsOnPu)|
      ensures Outcome(appMapping.View(), appsOnPu) == Granted(old(appMapping.View()), old(appsOnPu), feedback, best)
    {
      hide Canonical, Members, Increase, Shorts;
      var vec := appMapping.puVec;
      var newPU := GetNewPU(platform, appsOnPu, lastPlatformLoad, vec);
      if newPU != -1 {
        PlatformVectorIsShorts(platform, vec);
        assert newPU in platform.PuSet();
        var _, grown := AddPU(vec, newPU);
        PlatformVectorIsShorts(platform, grown);
        appMapping.SetPuVector(grown);
        appsOnPu := appsOnPu[newPU := appsOnPu[newPU] + 1];
        var _ := IncreaseCPUquota(appMapping);
      }
      best := newPU;
      appMapping.SetLastFeedback(feedback);
    }

    // Writes the shorter PU vector, lowers the PU's count and takes the second quota step
    method TakePU(appMapping: AppMapping, remPU: int)
      requires platform.Valid() && appMapping.OnPUsOf(platform)
      requires |appsOnPu| == platform.numPUs && Loads(platform.numPUs, lastPlatformLoad)
      requires 0 <= remPU < |appsOnPu|
      modifies appMapping, this`appsOnPu
      ensures appMapping.OnPUsOf(platform)
      ensures var app := old(appMapping.View());
              var pus := app.pus - {remPU};
              appMapping.View() == App(pus, Decrease(app.cpuMax, |pus|).cpuMax, app.lastFeedback)
      ensures appsOnPu == Bump(old(appsOnPu), remPU, -1)
    {
      hide Canonical, Members, Decrease, Shorts, Loads, Platform.Valid, Platform.PuSet;
      var vec := appMapping.puVec;
      ghost var pus := Members(vec) - {remPU};
      PlatformVectorIsShorts(platform, vec);
      var _, shrunk := RemovePU(vec, remPU);
      assert Members(shrunk) == pus <= platform.PuSet();
      PlatformVectorIsShorts(platform, shrunk);
      appMapping.SetPuVector(shrunk);
      appsOnPu := appsOnPu[remPU := appsOnPu[remPU] - 1];
      assert appMapping.WellFormed() && appMapping.View() == old(appMapping.View()).(pus := pus);
      var _ := DecreaseCPUquota(appMapping);
    }

    // The quota is at its lower limit: give up one PU and take a second quota step
    method Shrink(appMapping: AppMapping, feedback: int) returns (ghost worst: int)
      requires platform.Valid() && appMapping.OnPUsOf(platform)
      requires |appsOnPu| == platform.numPUs && Loads(platform.numPUs, lastPlatformLoad)
      modifies appMapping, this`appsOnPu
      ensures appMapping.OnPUsOf(platform)
      ensures worst == WorstPU(platform, old(appMapping.View()).pus)
      ensures worst == -1 || 0 <= worst < |old(appsOnPu)|
      ensures Outcome(appMapping.View(), appsOnPu) == Taken(old(appMapping.View()), old(appsOnPu), feedback, worst)
    {
      var vec := appMapping.puVec;
      PlatformVectorIsShorts(platform, vec);
      var remPU := PickWorstPU(platform, vec);
      if remPU != -1 {
        assert remPU in platform.PuSet();
        TakePU(appMapping, remPU);
      }
      worst := remPU;
      appMapping.SetLastFeedback(feedback);
    }

    method Feedback(appMapping: AppMapping, feedback: int) returns (ghost o: Outcome)
      requires platform.Valid() && appMapping.OnPUsOf(platform)
      requires |appsOnPu| == platform.numPUs && Loads(platform.numPUs, lastPlatformLoad)
      modifies appMapping, this`appsOnPu
      ensures appMapping.OnPUsOf(platform)
      ensures o == FeedbackOutcome(platform, old(appMapping.View()), old(appsOnPu), lastPlatformLoad, feedback)
      ensures appMapping.View() == o.app && appsOnPu == o.counts && |appsOnPu| == |old(appsOnPu)|
    {
      PlatformVectorIsShorts(platform, appMapping.puVec);
      if feedback < LOWER_LIMIT {
        var done := IncreaseCPUquota(appMapping);
        if !done { ghost var _ := Expand(appMapping, feedback); }
      } else if feedback > UPPER_LIMIT {
        var done := DecreaseCPUquota(appMapping);
        if !done { ghost var _ := Shrink(appMapping, feedback); }
      } else {
        appMapping.SetLastFeedback(feedback);
      }
      o := Outcome(appMapping.View(), appsOnPu);
    }

    // PolicyManager::processFeedbackEvent: only the app's own mapping and the counts change
    method ProcessFeedbackEvent(pid: int, feedback: int) returns (ghost o: Outcome)
      requires Shaped()
      modifies this`appsOnPu, apps.Values
      ensures Shaped()
      ensures pid !in apps ==> Views(apps) == old(Views(apps)) && appsOnPu == old(appsOnPu)
      ensures pid in apps ==>
                && o == FeedbackOutcome(platform, old(apps[pid].View()), old(appsOnPu), lastPlatformLoad, feedback)
                && Views(apps) == old(Views(apps))[pid := o.app] && appsOnPu == o.counts
    {
      hide FeedbackOutcome, Canonical, Members;
      o := Outcome(App({}, Max, feedback), []);
      if pid in apps {
        var appMapping := apps[pid];
        ghost var before := Views(apps);
        assert forall q :: q in apps && q != pid ==> apps[q] != appMapping;
        o := Feedback(appMapping, feedback);
        assert forall q :: q in apps && q != pid ==> apps[q].View() == before[q];
        ViewsDifferAt(before, Views(apps), pid);
      }
    }

    // PolicyManager::processEvent. Whatever the run so far, the handler keeps the invariant and
    // has exactly the effect of the model's step.
    method ProcessEvent(e: Event)
      requires Valid() && Acceptable(platform.numPUs, e)
      modifies this, apps.Values
      ensures Valid() && Abs() == Step(platform, old(Abs()), e)
      ensures fresh(apps.Values - old(apps.Values))
    {
      hide LowerUsage, FeedbackOutcome, Canonical, Members, Bump, Released, Invariant;
      StepKeepsInvariant(platform, Abs(), e);
      match e
      case Add(pid, cgroupMax) => ProcessAddEvent(pid, cgroupMax);
      case Remove(pid) => ProcessRemoveEvent(pid);
      case Feedback(pid, value) => ghost var _ := ProcessFeedbackEvent(pid, value);
      case Monitor(loads) => ProcessMonitorEvent(loads);
      case Timer =>
    }
  }
}
