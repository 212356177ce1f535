/** What the allocation policies keep: how many managed apps run on each processing unit (PU),
    the last known load, and each app's PUs and CPU band (rm/policymanager/appmapping.h). */
module Allocation {
  import opened PuSearch

  // A cpu.max value in percent of one PU
  datatype NumericValue = Max | Num(value: int)

  const NO_FEEDBACK := -1

  // An app as its AppMapping caches it
  datatype App = App(pus: set<int>, cpuMax: NumericValue, lastFeedback: int)

  datatype State = State(counts: seq<int>, loads: seq<int>, apps: map<int, App>)

  // cgroupMax is the content of the app's cpu.max file when the app is added
  datatype Event =
    | Add(pid: int, cgroupMax: NumericValue)
    | Remove(pid: int)
    | Feedback(pid: int, value: int)
    | Monitor(loads: seq<int>)
    | Timer

  function InitialState(numPUs: nat): State {
    State(seq(numPUs, i => 0), [], map[])
  }

  // A monitor event reports every PU's load, or none
  ghost predicate Acceptable(numPUs: nat, e: Event) {
    e.Monitor? ==> Loads(numPUs, e.loads)
  }

  ghost predicate AcceptableRun(numPUs: nat, events: seq<Event>) {
    forall k :: 0 <= k < |events| ==> Acceptable(numPUs, events[k])
  }

  // The loads that were reported last
  function LastLoads(events: seq<Event>): seq<int> {
    if events == [] then []
    else
      var last := events[|events| - 1];
      if last.Monitor? then last.loads else LastLoads(events[..|events| - 1])
  }

  // ---------- who runs where ----------

  function OwnerSet(apps: map<int, App>, p: int): set<int> {
    set pid | pid in apps && p in apps[pid].pus
  }

  function Owners(apps: map<int, App>, p: int): nat {
    |OwnerSet(apps, p)|
  }

  lemma OwnersAfterUpdate(apps: map<int, App>, pid: int, app: App, p: int)
    ensures Owners(apps[pid := app], p) ==
            Owners(apps, p)
            - (if pid in apps && p in apps[pid].pus then 1 else 0)
            + (if p in app.pus then 1 else 0)
  {
    var others := OwnerSet(apps, p) - {pid};
    assert OwnerSet(apps[pid := app], p) == if p in app.pus then others + {pid} else others;
    assert OwnerSet(apps, p) == if pid in apps && p in apps[pid].pus then others + {pid} else others;
  }

  lemma OwnersAfterRemoval(apps: map<int, App>, pid: int, p: int)
    ensures Owners(apps - {pid}, p) == Owners(apps, p) - (if pid in apps && p in apps[pid].pus then 1 else 0)
  {
    var others := OwnerSet(apps, p) - {pid};
    assert OwnerSet(apps - {pid}, p) == others;
    assert OwnerSet(apps, p) == if pid in apps && p in apps[pid].pus then others + {pid} else others;
  }

  // The count kept for p minus the number of managed apps that run on p
  function Surplus(s: State, p: int): int
    requires 0 <= p < |s.counts|
  {
    s.counts[p] - Owners(s.apps, p)
  }

  // Every count is exactly the number of managed apps on that PU
  ghost predicate Conserved(s: State) {
    forall p :: 0 <= p < |s.counts| ==> Surplus(s, p) == 0
  }

  // Shape and placement, whatever the CPU bands are
  ghost predicate Placed(pl: Platform, s: State) {
    && |s.counts| == pl.numPUs && Loads(pl.numPUs, s.loads)
    && (forall pid :: pid in s.apps ==> s.apps[pid].pus != {} && s.apps[pid].pus <= pl.PuSet())
    && (forall p :: 0 <= p < |s.counts| ==> Surplus(s, p) >= 0)
  }

  lemma InitiallyPlaced(pl: Platform)
    ensures Placed(pl, InitialState(pl.numPUs)) && Conserved(InitialState(pl.numPUs))
  {
    var s := InitialState(pl.numPUs);
    forall p | 0 <= p < |s.counts| ensures Surplus(s, p) == 0 {
      assert OwnerSet(s.apps, p) == {};
    }
  }

  // The counts with PU p's raised or lowered
  function Bump(counts: seq<int>, p: int, delta: int): (r: seq<int>)
    requires 0 <= p < |counts|
    ensures |r| == |counts|
  {
    counts[p := counts[p] + delta]
  }

  // ---------- adding ----------

  // The initial PU pu goes to pid. A pid that is already managed keeps its old mapping (the
  // set refuses the second one), yet the count of pu is still raised.
  function Admit(s: State, pid: int, pu: int, cpuMax: NumericValue): State
    requires 0 <= pu < |s.counts|
  {
    State(Bump(s.counts, pu, 1), s.loads,
          if pid in s.apps then s.apps else s.apps[pid := App({pu}, cpuMax, NO_FEEDBACK)])
  }

  lemma AdmitKeepsPlacement(pl: Platform, s: State, pid: int, pu: int, cpuMax: NumericValue)
    requires pl.Valid() && Placed(pl, s) && 0 <= pu < pl.numPUs
    ensures var t := Admit(s, pid, pu, cpuMax);
            && Placed(pl, t)
            && forall p :: 0 <= p < pl.numPUs ==>
                 Surplus(t, p) == Surplus(s, p) + (if pid in s.apps && p == pu then 1 else 0)
  {
    var t := Admit(s, pid, pu, cpuMax);
    forall p | 0 <= p < pl.numPUs
      ensures Surplus(t, p) == Surplus(s, p) + (if pid in s.apps && p == pu then 1 else 0)
    {
      if pid !in s.apps { OwnersAfterUpdate(s.apps, pid, App({pu}, cpuMax, NO_FEEDBACK), p); }
    }
  }

  // ---------- removing ----------

  // removeApp lowers the count of each of the app's PUs, never below zero
  function Released(counts: seq<int>, pus: set<int>): (r: seq<int>)
    ensures |r| == |counts|
    ensures forall p :: 0 <= p < |counts| ==>
              r[p] == if p !in pus then counts[p] else if counts[p] > 0 then counts[p] - 1 else 0
  {
    seq(|counts|, p requires 0 <= p < |counts| =>
      if p !in pus then counts[p] else if counts[p] > 0 then counts[p] - 1 else 0)
  }

  function Release(s: State, pid: int): State {
    if pid !in s.apps then s
    else State(Released(s.counts, s.apps[pid].pus), s.loads, s.apps - {pid})
  }

  lemma OwnedMeansCounted(pl: Platform, s: State, pid: int, p: int)
    requires Placed(pl, s) && pid in s.apps && p in s.apps[pid].pus
    ensures 0 <= p < |s.counts| && s.counts[p] >= 1
  {
    assert p in pl.PuSet();
    assert pid in OwnerSet(s.apps, p);
    assert Surplus(s, p) >= 0;
  }

  // The clamp at zero never acts, and the surplus stays what it was
  lemma ReleaseKeepsPlacement(pl: Platform, s: State, pid: int)
    requires pl.Valid() && Placed(pl, s)
    ensures Placed(pl, Release(s, pid))
    ensures forall p :: 0 <= p < pl.numPUs ==> Surplus(Release(s, pid), p) == Surplus(s, p)
    ensures pid in s.apps ==> forall p :: p in s.apps[pid].pus ==>
              && 0 <= p < pl.numPUs && s.counts[p] - 1 >= 0 && Release(s, pid).counts[p] == s.counts[p] - 1
  {
    if pid in s.apps {
      forall p | 0 <= p < pl.numPUs ensures Surplus(Release(s, pid), p) == Surplus(s, p) {
        OwnersAfterRemoval(s.apps, pid, p);
        if p in s.apps[pid].pus { OwnedMeansCounted(pl, s, pid, p); }
      }
      forall p | p in s.apps[pid].pus ensures 0 <= p < pl.numPUs && s.counts[p] - 1 >= 0 {
        OwnedMeansCounted(pl, s, pid, p);
      }
    }
  }

  // ---------- changing one app ----------

  // app replaces pid's entry and counts follow its PU set by at most one PU
  ghost predicate Follows(s: State, pid: int, app: App, counts: seq<int>)
    requires pid in s.apps
  {
    var old_ := s.apps[pid];
    && |counts| == |s.counts|
    && forall p :: 0 <= p < |counts| ==>
         counts[p] == s.counts[p] + (if p in app.pus then 1 else 0) - (if p in old_.pus then 1 else 0)
  }

  lemma FollowKeepsPlacement(pl: Platform, s: State, pid: int, app: App, counts: seq<int>)
    requires pl.Valid() && Placed(pl, s) && pid in s.apps && Follows(s, pid, app, counts)
    requires app.pus != {} && app.pus <= pl.PuSet()
    ensures var t := State(counts, s.loads, s.apps[pid := app]);
            && Placed(pl, t)
            && forall p :: 0 <= p < pl.numPUs ==> Surplus(t, p) == Surplus(s, p)
  {
    var t := State(counts, s.loads, s.apps[pid := app]);
    forall p | 0 <= p < pl.numPUs ensures Surplus(t, p) == Surplus(s, p) {
      OwnersAfterUpdate(s.apps, pid, app, p);
    }
  }

  // The counts after one app has been given a PU, or has given one up
  ghost predicate Moved(counts: seq<int>, after: seq<int>, p: int, delta: int) {
    && |after| == |counts| && 0 <= p < |counts| && after[p] == counts[p] + delta
    && forall q :: 0 <= q < |counts| && q != p ==> after[q] == counts[q]
  }

  // ---------- conservation along a trace ----------

  // A second Add of a managed pid; it raises a count that no managed app accounts for
  ghost predicate Readds(s: State, e: Event) {
    e.Add? && e.pid in s.apps
  }

  // The only way an event e from s to t may change a surplus
  ghost predicate Accounted(s: State, e: Event, t: State, pu: int) {
    && |t.counts| == |s.counts| && 0 <= pu < |s.counts|
    && forall p :: 0 <= p < |s.counts| ==>
         0 <= Surplus(s, p) && Surplus(t, p) == Surplus(s, p) + (if Readds(s, e) && p == pu then 1 else 0)
  }

  // One event destroys conservation exactly when it re-adds; nothing ever restores it
  lemma EventConserves(s: State, e: Event, t: State, pu: int)
    requires Accounted(s, e, t, pu)
    ensures Conserved(t) <==> Conserved(s) && !Readds(s, e)
  {
    if Readds(s, e) { assert Surplus(t, pu) >= 1; }
    if p :| 0 <= p < |s.counts| && Surplus(s, p) != 0 { assert Surplus(t, p) != 0; }
  }

  ghost predicate AccountedStep(s: State, e: Event, t: State) {
    exists pu :: Accounted(s, e, t, pu)
  }

  ghost predicate AccountedTrace(states: seq<State>, events: seq<Event>) {
    && |states| == |events| + 1
    && forall k :: 0 <= k < |events| ==> AccountedStep(states[k], events[k], states[k + 1])
  }

  // Some event before the n-th adds a pid that is managed at that moment
  ghost predicate SomeReadd(states: seq<State>, events: seq<Event>, n: nat)
    requires n <= |events| < |states|
  {
    exists k :: 0 <= k < n && Readds(states[k], events[k])
  }

  lemma {:induction false} TraceConserves(states: seq<State>, events: seq<Event>, n: nat)
    requires AccountedTrace(states, events) && Conserved(states[0]) && n <= |events|
    ensures Conserved(states[n]) <==> !SomeReadd(states, events, n)
  {
    if n > 0 {
      TraceConserves(states, events, n - 1);
      assert AccountedStep(states[n - 1], events[n - 1], states[n - 1 + 1]);
      var pu :| Accounted(states[n - 1], events[n - 1], states[n], pu);
      EventConserves(states[n - 1], events[n - 1], states[n], pu);
    }
  }
}
