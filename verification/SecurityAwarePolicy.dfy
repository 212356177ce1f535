/** The policy object of rm/policymanager/policies/securityawarepolicy.cpp: each handler has on
    the app exactly the effect that SecurityModel gives the event. */
module SecurityAwarePolicyClass {
  import opened CpusetVector
  import opened PuSearch
  import opened Allocation
  import opened ContainmentState
  import opened SecurityModel
  import ProgressiveModel
  import AppMappings

  // An app's mapping (rm/policymanager/appmapping.h) and the values written to its cgroup
  class SecMapping {
    const pid: int
    const level: Level
    const secState: StateTracker
    var sai: real
    var quarantine: bool
    var frozen: bool
    var cpuMax: NumericValue
    var puVec: Cpuset
    var pidsMax: NumericValue
    var baselinePids: int
    var lastFeedback: int

    // A new mapping over a cgroup whose files hold the kernel's defaults
    constructor (pid: int, level: Level)
      ensures this.pid == pid && this.level == level && fresh(secState) && secState.View() == FRESH
      ensures sai == 0.0 && !quarantine && !frozen && cpuMax == Max && puVec == [] && pidsMax == Max
      ensures lastFeedback == NO_FEEDBACK
    {
      this.pid := pid;
      this.level := level;
      secState := new StateTracker();
      sai, quarantine, frozen := 0.0, false, false;
      cpuMax, puVec, pidsMax := Max, [], Max;
      baselinePids, lastFeedback := -1, NO_FEEDBACK;
    }

    ghost function View(): SecApp
      reads this, secState
    {
      SecApp(level, secState.View(), sai, quarantine, frozen,
             cpuMax, Members(puVec), pidsMax, baselinePids, lastFeedback)
    }

    ghost predicate WellFormed()
      reads this
    {
      Canonical(puVec) && Shorts(puVec)
    }
  }

  lemma SingleShort(pu: int)
    requires 0 <= pu <= SHORT_MAX
    ensures Canonical([Range(pu, pu)]) && Shorts([Range(pu, pu)]) && Members([Range(pu, pu)]) == {pu}
  {
    SinglePU(pu);
  }

  lemma BoundedVectorIsShorts(vec: Cpuset)
    requires Canonical(vec) && forall x :: x in Members(vec) ==> 0 <= x <= SHORT_MAX
    ensures Shorts(vec)
  {
    forall k | 0 <= k < |vec| ensures 0 <= vec[k].first && vec[k].last <= SHORT_MAX {
      BoundsAreMembers(vec, k);
    }
  }

  lemma MembersOfShorts(vec: Cpuset)
    requires Canonical(vec) && Shorts(vec)
    ensures forall x :: x in Members(vec) ==> 0 <= x <= SHORT_MAX
  {
    forall x | x in Members(vec) ensures 0 <= x <= SHORT_MAX {
      MembersAreInRanges(vec, x);
    }
  }

  lemma GrownByPU(vec: Cpuset, grown: Cpuset, pu: int)
    requires Canonical(vec) && Shorts(vec) && 0 <= pu <= SHORT_MAX
    requires Canonical(grown) && Members(grown) == Members(vec) + {pu}
    ensures Shorts(grown)
  {
    MembersOfShorts(vec);
    BoundedVectorIsShorts(grown);
  }

  class SecurityAwarePolicy {
    const numPUs: nat
    var appsOnPu: seq<int>
    var thresholds: Thresholds
    var assignedPu: map<int, int>

    ghost predicate Valid()
      reads this
    {
      && numPUs <= SHORT_MAX && |appsOnPu| == numPUs
      && forall pid :: pid in assignedPu ==> 0 <= assignedPu[pid] <= SHORT_MAX
    }

    constructor (numPUs: nat, th: Thresholds)
      requires numPUs <= SHORT_MAX
      ensures Valid() && this.numPUs == numPUs && thresholds == th && assignedPu == map[]
    {
      this.numPUs := numPUs;
      appsOnPu := seq(numPUs, i => 0);
      thresholds := th;
      assignedPu := map[];
    }

    // The PU to return to in OBSERVE
    function HomePU(pid: int): int
      reads this
    {
      if pid in assignedPu then assignedPu[pid] else 0
    }

    // Everybody starts with full cpu; isolated levels on the least populated PU, others on PU 0
    method AddApp(app: SecMapping, currentPids: int)
      requires Valid() && numPUs > 0
      requires app.View() == Added(app.level, 0, app.baselinePids).(pus := {})
      modifies this, app
      ensures Valid() && app.WellFormed()
      ensures var pu := if Isolated(app.level) then MinElement(old(appsOnPu)) else 0;
              && HomePU(app.pid) == pu && appsOnPu == Bump(old(appsOnPu), pu, 1)
              && app.View() == Added(app.level, pu, currentPids)
              && assignedPu == old(assignedPu)[app.pid := pu]
      ensures thresholds == old(thresholds)
      ensures forall q :: q != app.pid ==> HomePU(q) == old(HomePU(q))
    {
      hide MinElement, Canonical, Members;
      var pu := 0;
      if Isolated(app.level) && appsOnPu != [] {
        pu := MinElement(appsOnPu);
      }
      SinglePU(pu);
      app.puVec := [Range(pu, pu)];
      appsOnPu := appsOnPu[pu := appsOnPu[pu] + 1];
      assignedPu := assignedPu[app.pid := pu];
      app.cpuMax := Max;
      app.baselinePids := currentPids;
    }

    method RemoveApp(app: SecMapping)
      requires Valid() && app.WellFormed() && forall p :: p in Members(app.puVec) ==> 0 <= p < numPUs
      modifies this`appsOnPu, this`assignedPu
      ensures Valid() && appsOnPu == Released(old(appsOnPu), Members(app.puVec))
      ensures assignedPu == old(assignedPu) - {app.pid}
      ensures forall q :: q != app.pid ==> HomePU(q) == old(HomePU(q))
    {
      appsOnPu := AppMappings.ReleasePUs(appsOnPu, app.puVec);
      assignedPu := assignedPu - {app.pid};
    }

    method IncreaseCPUquota(app: SecMapping) returns (done: bool)
      requires app.WellFormed()
      modifies app`cpuMax
      ensures ProgressiveModel.QuotaStep(done, app.cpuMax) ==
              ProgressiveModel.Increase(old(app.cpuMax), |Members(app.puVec)|)
    {
      CountIsCardinality(app.puVec);
      match app.cpuMax
      case Max => done := false;
      case Num(curBand) =>
        var count := CountPUs(app.puVec);
        var maxBand := count * 100;
        if curBand >= maxBand {
          done := false;
        } else {
          var newBand := curBand * 115 / 100;
          app.cpuMax := Num(if newBand < maxBand then newBand else maxBand);
          done := true;
        }
    }

    method DecreaseCPUquota(app: SecMapping) returns (done: bool)
      requires app.WellFormed()
      modifies app`cpuMax
      ensures ProgressiveModel.QuotaStep(done, app.cpuMax) ==
              ProgressiveModel.Decrease(old(app.cpuMax), |Members(app.puVec)|)
    {
      CountIsCardinality(app.puVec);
      var count := CountPUs(app.puVec);
      var curBand := if app.cpuMax.Max? then count * 100 else app.cpuMax.value;
      var minBand := (count - 1) * 100;
      if curBand <= minBand || curBand <= 0 {
        done := false;
      } else {
        var newBand := curBand * 85 / 100;
        app.cpuMax := Num(if newBand > minBand then newBand else minBand);
        done := true;
      }
    }

    method AddSecondPU(app: SecMapping)
      requires Valid() && numPUs > SECOND_PU && app.WellFormed()
      modifies this`appsOnPu, app`puVec, app`cpuMax
      ensures Valid() && app.WellFormed()
      ensures Members(app.puVec) == old(Members(app.puVec)) + {SECOND_PU}
      ensures app.cpuMax == ProgressiveModel.Increase(old(app.cpuMax), |Members(app.puVec)|).cpuMax
      ensures appsOnPu == Bump(old(appsOnPu), SECOND_PU, 1)
    {
      MembersOfShorts(app.puVec);
      var _, vec := AddPU(app.puVec, SECOND_PU);
      GrownByPU(app.puVec, vec, SECOND_PU);
      app.puVec := vec;
      appsOnPu := Bump(appsOnPu, SECOND_PU, 1);
      var _ := IncreaseCPUquota(app);
    }

    // The quota is at its limit: an isolated app on a single PU also gets PU 1
    method WidenIsolated(app: SecMapping) returns (ghost widened: bool)
      requires Valid() && app.WellFormed()
      requires Isolated(app.level) && |Members(app.puVec)| == 1 ==> numPUs > SECOND_PU
      modifies this`appsOnPu, app`puVec, app`cpuMax
      ensures Valid() && app.WellFormed()
      ensures widened == (Isolated(app.level) && |old(Members(app.puVec))| == 1)
      ensures !widened ==>
                && appsOnPu == old(appsOnPu) && app.cpuMax == old(app.cpuMax)
                && Members(app.puVec) == old(Members(app.puVec))
      ensures widened ==>
                && Members(app.puVec) == old(Members(app.puVec)) + {SECOND_PU}
                && app.cpuMax == ProgressiveModel.Increase(old(app.cpuMax), |Members(app.puVec)|).cpuMax
                && |old(appsOnPu)| > SECOND_PU && appsOnPu == Bump(old(appsOnPu), SECOND_PU, 1)
    {
      CountIsCardinality(app.puVec);
      widened := false;
      if Isolated(app.level) {
        var count := CountPUs(app.puVec);
        if count == 1 {
          AddSecondPU(app);
          widened := true;
        }
      }
    }

    // The source indexes the count of PU 1 without asking whether the platform has one
    method Feedback(app: SecMapping, feedback: int)
      requires Valid() && app.WellFormed()
      requires GetsSecondPU(app.View(), feedback) ==> numPUs > SECOND_PU
      modifies this`appsOnPu, app
      ensures Valid() && app.WellFormed()
      ensures app.View() == Fed(old(app.View()), feedback)
      ensures appsOnPu ==
              if old(GetsSecondPU(app.View(), feedback)) then Bump(old(appsOnPu), SECOND_PU, 1) else old(appsOnPu)
    {
      if app.quarantine { return; }
      if feedback < LOWER_LIMIT {
        var done := IncreaseCPUquota(app);
        if done { return; }
        ghost var _ := WidenIsolated(app);
      } else if feedback > UPPER_LIMIT {
        var done := DecreaseCPUquota(app);
        if done { return; }
      }
      app.lastFeedback := feedback;
    }

    method ApplyState(app: SecMapping, state: SecState, currentPids: int)
      requires Valid() && app.WellFormed()
      modifies app
      ensures app.WellFormed()
      ensures app.View() == Contained(old(app.View()), state, numPUs, HomePU(app.pid), currentPids)
    {
      hide Canonical, Shorts, Members;
      match state
      case OBSERVE =>
        app.quarantine := false;
        app.cpuMax := Max;
        app.pidsMax := Max;
        if numPUs > 0 {
          var pu := if app.pid in assignedPu then assignedPu[app.pid] else 0;
          SingleShort(pu);
          app.puVec := [Range(pu, pu)];
        }
      case THROTTLE =>
        var full := (if numPUs > 1 then numPUs else 1) * 100;
        var band := full * StepPercent(app.level) / 100;
        app.cpuMax := Num(if band > 10 then band else 10);
      case RESTRICT =>
        app.cpuMax := Num(20);
        SingleShort(0);
        app.puVec := [Range(0, 0)];
        app.pidsMax := Num(if app.baselinePids > 0 then app.baselinePids
                           else if currentPids > 0 then currentPids else 1);
      case QUARANTINE =>
        app.quarantine := true;
        app.frozen := true;
    }

    method SecurityAlert(app: SecMapping, sai: real, currentPids: int)
      requires Valid() && app.WellFormed()
      modifies app, app.secState
      ensures app.WellFormed()
      ensures app.View() == Alerted(old(app.View()), sai, thresholds, numPUs, HomePU(app.pid), currentPids)
    {
      app.sai := sai;
      var prev := app.secState.state;
      var ns := app.secState.Step(sai, thresholds, TolOffset(app.level));
      if ns != prev {
        ApplyState(app, ns, currentPids);
      }
    }

    method SetThresholdValues(th: Thresholds)
      modifies this`thresholds
      ensures thresholds == th
    {
      thresholds := th;
    }

    method Clear(app: SecMapping, currentPids: int)
      requires Valid() && app.WellFormed()
      modifies app, app.secState
      ensures app.WellFormed()
      ensures app.View() == Cleared(old(app.View()), numPUs, HomePU(app.pid), currentPids)
    {
      app.secState.Clear();
      app.frozen := false;
      app.quarantine := false;
      app.sai := 0.0;
      ApplyState(app, OBSERVE, currentPids);
    }

    // One event about one app: the object follows the model step by step
    method ProcessEvent(app: SecMapping, e: AppEvent)
      requires Valid() && app.WellFormed()
      requires e.Feedback? && GetsSecondPU(app.View(), e.value) ==> numPUs > SECOND_PU
      modifies this`appsOnPu, this`thresholds, app, app.secState
      ensures Valid() && app.WellFormed()
      ensures Managed(app.View(), thresholds) ==
              Handle(old(Managed(app.View(), thresholds)), e, numPUs, HomePU(app.pid))
    {
      match e
      case Alert(sai, currentPids) => SecurityAlert(app, sai, currentPids);
      case Feedback(value) => Feedback(app, value);
      case ClearApp(currentPids) => Clear(app, currentPids);
      case SetThresholds(th) => SetThresholdValues(th);
    }
  }
}
