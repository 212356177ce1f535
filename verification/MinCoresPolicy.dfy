/** The policy object of rm/policymanager/policies/mincorespolicy.cpp together with the app set
    that PolicyManager lends it: every handler has exactly the effect that MinCoresModel.Step
    gives the event. */
module MinCoresPolicyClass {
  import opened CpusetVector
  import opened PuSearch
  import opened Allocation
  import opened AppMappings
  import opened MinCoresModel

  class MinCoresPolicy {
    const platform: Platform
    var apps: map<int, AppMapping>
    var appsOnPu: seq<int>
    var lastPlatformLoad: seq<int>
    var hasLastPlatformLoad: bool

    ghost function Abs(): MinCoresState
      reads this, apps.Values
    {
      MinCoresState(State(appsOnPu, lastPlatformLoad, Views(apps)), hasLastPlatformLoad)
    }

    ghost predicate Shaped()
      reads this, apps.Values
    {
      && platform.Valid() && |appsOnPu| == platform.numPUs && Loads(platform.numPUs, lastPlatformLoad)
      && (!hasLastPlatformLoad ==> lastPlatformLoad == [])
      && forall pid :: pid in apps ==>
           apps[pid].pid == pid && apps[pid].OnPUsOf(platform)
    }

    ghost predicate Valid()
      reads this, apps.Values
    {
      Shaped() && Placed(platform, Abs().base)
    }

    constructor (platform: Platform)
      requires platform.Valid()
      ensures Valid() && this.platform == platform && apps == map[]
      ensures Abs() == MinCoresState(InitialState(platform.numPUs), false)
    {
      this.platform := platform;
      apps := map[];
      appsOnPu := seq(platform.numPUs, i => 0);
      lastPlatformLoad := [];
      hasLastPlatformLoad := false;
      new;
      InitiallyPlaced(platform);
      assert Abs().base == InitialState(platform.numPUs);
    }

    method PickInitialCpu() returns (pu: int)
      requires platform.Valid() && |appsOnPu| == platform.numPUs && Loads(platform.numPUs, lastPlatformLoad)
      ensures pu == InitialPU(appsOnPu, lastPlatformLoad, hasLastPlatformLoad)
    {
      if hasLastPlatformLoad && lastPlatformLoad == [] {
        return 0;
      }
      pu := GetLowerUsage(appsOnPu, lastPlatformLoad);
    }

    // addApp, on a mapping that PolicyManager has just made and offered to its set
    method AddApp(appMapping: AppMapping)
      requires platform.Valid() && |appsOnPu| == platform.numPUs && Loads(platform.numPUs, lastPlatformLoad)
      modifies appMapping, this`appsOnPu
      ensures var pu := InitialPU(old(appsOnPu), lastPlatformLoad, hasLastPlatformLoad);
              && appsOnPu == Bump(old(appsOnPu), pu, 1)
              && appMapping.OnPUsOf(platform)
              && appMapping.View() == App({pu}, old(appMapping.cpuMax), old(appMapping.lastFeedback))
    {
      var initialPU := PickInitialCpu();
      SinglePU(initialPU);
      appMapping.SetPuVector([Range(initialPU, initialPU)]);
      appsOnPu := appsOnPu[initialPU := appsOnPu[initialPU] + 1];
    }

    // PolicyManager::processAddEvent: the set refuses a pid it already holds, the policy does not
    method ProcessAddEvent(pid: int, cgroupMax: NumericValue)
      requires Shaped()
      modifies this
      ensures Shaped()
      ensures hasLastPlatformLoad == old(hasLastPlatformLoad)
      ensures var pu := InitialPU(old(appsOnPu), old(lastPlatformLoad), old(hasLastPlatformLoad));
              Abs().base == Admit(old(Abs().base), pid, pu, cgroupMax)
      ensures fresh(apps.Values - old(apps.Values))
    {
      hide InitialPU, Canonical, Members, Bump;
      var appMapping := new AppMapping(pid, cgroupMax);
      AddApp(appMapping);
      if pid !in apps {
        ViewsAfterInsert(apps, pid, appMapping);
        apps := apps[pid := appMapping];
      }
    }

    method ProcessRemoveEvent(pid: int)
      requires Shaped()
      modifies this
      ensures Shaped()
      ensures hasLastPlatformLoad == old(hasLastPlatformLoad)
      ensures Abs().base == Release(old(Abs().base), pid)
      ensures apps == old(apps) - {pid}
    {
      hide Released, Canonical;
      if pid in apps {
        appsOnPu := ReleasePUs(appsOnPu, apps[pid].puVec);
        apps := apps - {pid};
      }
    }

    method ProcessMonitorEvent(loads: seq<int>)
      requires Shaped() && Loads(platform.numPUs, loads)
      modifies this`lastPlatformLoad, this`hasLastPlatformLoad
      ensures Shaped()
      ensures Abs() == MinCoresState(old(Abs()).base.(loads := loads), true)
    {
      lastPlatformLoad := loads;
      hasLastPlatformLoad := true;
    }

    method DecreaseCPUBandwidth(appMapping: AppMapping, percentage: int)
      requires percentage == CUT_PERCENTAGE
      modifies appMapping`cpuMax
      ensures appMapping.cpuMax == Cut(old(appMapping.cpuMax))
    {
      var curBand := if appMapping.cpuMax.Max? then 100 else appMapping.cpuMax.value;
      var newBand := curBand - curBand * percentage / 100;
      appMapping.SetCpuMax(Num(newBand));
    }

    method Expand(appMapping: AppMapping) returns (ghost best: int)
      requires platform.Valid() && appMapping.OnPUsOf(platform)
      requires |appsOnPu| == platform.numPUs && Loads(platform.numPUs, lastPlatformLoad)
      modifies appMapping`puVec, this`appsOnPu
      ensures appMapping.OnPUsOf(platform)
      ensures best == NewPU(platform, old(appsOnPu), lastPlatformLoad, old(appMapping.View()).pus)
      ensures best == -1 ==> appMapping.puVec == old(appMapping.puVec) && appsOnPu == old(appsOnPu)
      ensures best != -1 ==>
                && 0 <= best < |old(appsOnPu)| && appsOnPu == Bump(old(appsOnPu), best, 1)
                && Members(appMapping.puVec) == old(Members(appMapping.puVec)) + {best}
    {
      var vec := appMapping.puVec;
      var newPU := GetNewPU(platform, appsOnPu, lastPlatformLoad, vec);
      if newPU != -1 {
        PlatformVectorIsShorts(platform, vec);
        assert newPU in platform.PuSet();
        var _, grown := AddPU(vec, newPU);
        appMapping.SetPuVector(grown);
        appsOnPu := appsOnPu[newPU := appsOnPu[newPU] + 1];
      }
      best := newPU;
    }

    method Feedback(appMapping: AppMapping, feedback: int) returns (ghost o: Outcome)
      requires platform.Valid() && appMapping.OnPUsOf(platform)
      requires |appsOnPu| == platform.numPUs && Loads(platform.numPUs, lastPlatformLoad)
      modifies appMapping, this`appsOnPu
      ensures appMapping.OnPUsOf(platform)
      ensures o == FeedbackOutcome(platform, old(appMapping.View()), old(appsOnPu), lastPlatformLoad, feedback)
      ensures appMapping.View() == o.app && appsOnPu == o.counts
    {
      if feedback < LOWER_LIMIT {
        ghost var _ := Expand(appMapping);
      } else if feedback > UPPER_LIMIT {
        DecreaseCPUBandwidth(appMapping, CUT_PERCENTAGE);
      }
      appMapping.SetLastFeedback(feedback);
      o := Outcome(appMapping.View(), appsOnPu);
    }

    // PolicyManager::processFeedbackEvent: only the app's own mapping and the counts change
    method ProcessFeedbackEvent(pid: int, feedback: int) returns (ghost o: Outcome)
      requires Shaped()
      modifies this`appsOnPu, apps.Values
      ensures Shaped()
      ensures pid !in apps ==> Views(apps) == old(Views(apps)) && appsOnPu == old(appsOnPu)
      ensures pid in apps ==>
                && o == FeedbackOutcome(platform, old(apps[pid].View()), old(appsOnPu), lastPlatformLoad, feedback)
                && Views(apps) == old(Views(apps))[pid := o.app] && appsOnPu == o.counts
    {
      o := Outcome(App({}, Max, feedback), []);
      if pid in apps {
        var appMapping := apps[pid];
        ghost var before := Views(apps);
        assert forall q :: q in apps && q != pid ==> apps[q] != appMapping;
        o := Feedback(appMapping, feedback);
        assert forall q :: q in apps && q != pid ==> apps[q].View() == before[q];
        ViewsDifferAt(before, Views(apps), pid);
      }
    }

    // PolicyManager::processEvent
    method ProcessEvent(e: Event)
      requires Valid() && Acceptable(platform.numPUs, e)
      modifies this, apps.Values
      ensures Valid() && Abs() == Step(platform, old(Abs()), e)
      ensures fresh(apps.Values - old(apps.Values))
    {
      StepKeepsPlacement(platform, Abs(), e);
      match e
      case Add(pid, cgroupMax) => ProcessAddEvent(pid, cgroupMax);
      case Remove(pid) => ProcessRemoveEvent(pid);
      case Feedback(pid, value) => ghost var _ := ProcessFeedbackEvent(pid, value);
      case Monitor(loads) => ProcessMonitorEvent(loads);
      case Timer =>
    }
  }
}
