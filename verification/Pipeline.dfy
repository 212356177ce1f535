/** WorkloadManager and PolicyManager keep the same set of apps, each in its own thread, linked
    by PolicyManager's event queue (rm/workloadmanager/workloadmanager.cpp,
    rm/policymanager/policymanager.cpp, rm/librmcommon/threadsafequeue.h). Every change of a
    set and every publication or pop is one atomic step, and the steps of both threads and of
    the other publishers interleave in any order. */
module Pipeline {

  datatype AppType = UNKNOWN | STANDALONE | INTEGRATED | CONTAINER | KUBERNETES

  datatype App = App(pid: int, appType: AppType, nsPid: int, ns: int)

  // An app set is ordered by pid and refuses a second app with the same pid
  type AppSet = map<int, App>

  function Insert(apps: AppSet, app: App): AppSet {
    if app.pid in apps then apps else apps[app.pid := app]
  }

  // PolicyManager's events; a monitor event carries the loads of the PUs, and OtherEvent stands for timer, security
  // and clear events
  datatype Event =
    | AddEvent(app: App)
    | RemoveEvent(app: App)
    | FeedbackEvent(app: App, value: int)
    | MonitorEvent(loads: seq<int>)
    | OtherEvent

  // Where WorkloadManager stands between two steps of one handler
  datatype WmPc = WmIdle | MustPublishAdd(app: App) | MustErase(pid: int)

  datatype Wm = Wm(apps: AppSet, pc: WmPc)

  // Where PolicyManager stands: waiting, or holding an event it has taken off the queue
  datatype PmPc = PmIdle | Handling(event: Event)

  datatype Pm = Pm(apps: AppSet, pc: PmPc)

  datatype Sys = Sys(wm: Wm, queue: seq<Event>, pm: Pm)

  const START := Sys(Wm(map[], WmIdle), [], Pm(map[], PmIdle))

  // Whether children of container or kubernetes apps are tracked
  datatype Config = Config(changeContainerCgroup: bool, changeKubernetesCgroup: bool)

  // admitted is platformControl_.addApplication's answer
  datatype Action =
    | Fork(parentPid: int, childPid: int, admitted: bool)
    | AddRequest(app: App, admitted: bool)
    | Exit(pid: int)
    | FeedbackRequest(pid: int, ns: int, value: int)
    | PublishAdd
    | Erase
    | MonitorPublish(loads: seq<int>)
    | OtherPublish
    | PmPop
    | PmHandle

  predicate Enabled(s: Sys, a: Action) {
    match a
    case PublishAdd => s.wm.pc.MustPublishAdd?
    case Erase => s.wm.pc.MustErase?
    case MonitorPublish(_) => true
    case OtherPublish => true
    case PmPop => s.pm.pc.PmIdle? && s.queue != []
    case PmHandle => s.pm.pc.Handling?
    case _ => s.wm.pc.WmIdle?
  }

  // add(), up to the publication
  function Admit(wm: Wm, app: App, admitted: bool): Wm {
    if admitted then Wm(Insert(wm.apps, app), MustPublishAdd(app)) else wm
  }

  // The child of a container app stays in the container unless Konro re-groups containers
  predicate TracksChildren(cfg: Config, parent: App) {
    && (parent.appType == CONTAINER ==> cfg.changeContainerCgroup)
    && (parent.appType == KUBERNETES ==> cfg.changeKubernetesCgroup)
  }

  function Child(parent: App, childPid: int): App {
    App(childPid, parent.appType, 0, 0)
  }

  datatype Option<T> = None | Some(value: T)

  ghost predicate NsMatch(apps: AppSet, nsPid: int, ns: int, pid: int) {
    pid in apps && apps[pid].nsPid == nsPid && apps[pid].ns == ns
  }

  ghost predicate FirstNsMatch(apps: AppSet, nsPid: int, ns: int, pid: int) {
    NsMatch(apps, nsPid, ns, pid) && forall q :: NsMatch(apps, nsPid, ns, q) ==> pid <= q
  }

  // The app a feedback request names: by pid in Konro's own namespace, otherwise the first in
  // pid order that has the given pid in the given namespace
  ghost function FindApp(apps: AppSet, pid: int, ns: int): (r: Option<App>)
    ensures r.Some? ==> exists p :: p in apps && apps[p] == r.value
  {
    if ns == 0 then (if pid in apps then Some(apps[pid]) else None)
    else if p :| FirstNsMatch(apps, pid, ns, p) then Some(apps[p])
    else None
  }

  ghost function Do(cfg: Config, s: Sys, a: Action): Sys
    requires Enabled(s, a)
  {
    match a
    case Fork(parentPid, childPid, admitted) =>
      if parentPid !in s.wm.apps || !TracksChildren(cfg, s.wm.apps[parentPid]) then s
      else s.(wm := Admit(s.wm, Child(s.wm.apps[parentPid], childPid), admitted))
    case AddRequest(app, admitted) =>
      if app.pid in s.wm.apps then s else s.(wm := Admit(s.wm, app, admitted))
    case Exit(pid) =>
      if pid !in s.wm.apps then s
      else s.(queue := s.queue + [RemoveEvent(s.wm.apps[pid])], wm := s.wm.(pc := MustErase(pid)))
    case FeedbackRequest(pid, ns, value) =>
      var found := FindApp(s.wm.apps, pid, ns);
      if found.None? then s else s.(queue := s.queue + [FeedbackEvent(found.value, value)])
    case PublishAdd => s.(queue := s.queue + [AddEvent(s.wm.pc.app)], wm := s.wm.(pc := WmIdle))
    case Erase => s.(wm := Wm(s.wm.apps - {s.wm.pc.pid}, WmIdle))
    case MonitorPublish(loads) => s.(queue := s.queue + [MonitorEvent(loads)])
    case OtherPublish => s.(queue := s.queue + [OtherEvent])
    case PmPop => s.(queue := s.queue[1..], pm := s.pm.(pc := Handling(s.queue[0])))
    case PmHandle => s.(pm := Pm(Applied(s.pm.apps, s.pm.pc.event), PmIdle))
  }

  // ---------- the events not yet handled ----------

  // What PolicyManager's handler makes of its set
  function Applied(apps: AppSet, e: Event): AppSet {
    match e
    case AddEvent(app) => Insert(apps, app)
    case RemoveEvent(app) => apps - {app.pid}
    case _ => apps
  }

  function AllApplied(apps: AppSet, events: seq<Event>): AppSet
    decreases events
  {
    if events == [] then apps else AllApplied(Applied(apps, events[0]), events[1..])
  }

  // e finds the set it was published for: what it removes or gives feedback about is there,
  // and, if re-adds are excluded, what it adds is not
  ghost predicate Sound(apps: AppSet, e: Event, noReadds: bool) {
    match e
    case AddEvent(app) => noReadds ==> app.pid !in apps
    case RemoveEvent(app) => app.pid in apps && apps[app.pid] == app
    case FeedbackEvent(app, _) => app.pid in apps && apps[app.pid] == app
    case _ => true
  }

  ghost predicate AllSound(apps: AppSet, events: seq<Event>, noReadds: bool)
    decreases events
  {
    events == [] || (Sound(apps, events[0], noReadds) && AllSound(Applied(apps, events[0]), events[1..], noReadds))
  }

  lemma {:induction false} PublishAtEnd(apps: AppSet, events: seq<Event>, e: Event, noReadds: bool)
    ensures AllApplied(apps, events + [e]) == Applied(AllApplied(apps, events), e)
    ensures AllSound(apps, events + [e], noReadds) <==>
            AllSound(apps, events, noReadds) && Sound(AllApplied(apps, events), e, noReadds)
    decreases events
  {
    if events == [] {
      assert [] + [e] == [e];
    } else {
      assert (events + [e])[1..] == events[1..] + [e];
      PublishAtEnd(Applied(apps, events[0]), events[1..], e, noReadds);
    }
  }

  function Pending(s: Sys): seq<Event> {
    match s.pm.pc
    case PmIdle => s.queue
    case Handling(e) => [e] + s.queue
  }

  // PolicyManager's set once everything published so far has been handled
  function Upcoming(s: Sys): AppSet {
    AllApplied(s.pm.apps, Pending(s))
  }

  // ---------- the simulation ----------

  ghost predicate Keyed(apps: AppSet) {
    forall pid :: pid in apps ==> apps[pid].pid == pid
  }

  // WorkloadManager's set is PolicyManager's upcoming set, except between its own two steps
  ghost predicate InStep(s: Sys, noReadds: bool) {
    match s.wm.pc
    case WmIdle => s.wm.apps == Upcoming(s)
    case MustPublishAdd(app) => s.wm.apps == Insert(Upcoming(s), app) && (noReadds ==> app.pid !in Upcoming(s))
    case MustErase(pid) => Upcoming(s) == s.wm.apps - {pid}
  }

  ghost predicate Simulates(s: Sys, noReadds: bool) {
    Keyed(s.wm.apps) && InStep(s, noReadds) && AllSound(s.pm.apps, Pending(s), noReadds)
  }

  // A fork whose child WorkloadManager already manages; add requests are checked, forks are not
  ghost predicate ForksManaged(cfg: Config, s: Sys, a: Action) {
    && a.Fork? && a.admitted && a.childPid in s.wm.apps
    && a.parentPid in s.wm.apps && TracksChildren(cfg, s.wm.apps[a.parentPid])
  }

  // What a step publishes goes to the end of the pending events
  lemma PublishStep(s: Sys, t: Sys, e: Event, noReadds: bool)
    requires t.queue == s.queue + [e] && t.pm == s.pm
    requires AllSound(s.pm.apps, Pending(s), noReadds) && Sound(Upcoming(s), e, noReadds)
    ensures Upcoming(t) == Applied(Upcoming(s), e)
    ensures AllSound(t.pm.apps, Pending(t), noReadds)
  {
    PublishAtEnd(s.pm.apps, Pending(s), e, noReadds);
    assert Pending(t) == Pending(s) + [e];
  }

  lemma WmStepSimulates(cfg: Config, s: Sys, a: Action, noReadds: bool)
    requires Enabled(s, a) && Simulates(s, noReadds) && !a.PmPop? && !a.PmHandle?
    requires noReadds ==> !ForksManaged(cfg, s, a)
    ensures Simulates(Do(cfg, s, a), noReadds)
  {
    var t := Do(cfg, s, a);
    match a
    case Fork(_, _, _) =>
      assert Pending(t) == Pending(s);
    case AddRequest(_, _) =>
      assert Pending(t) == Pending(s);
    case Exit(pid) =>
      if pid in s.wm.apps { PublishStep(s, t, RemoveEvent(s.wm.apps[pid]), noReadds); }
    case FeedbackRequest(pid, ns, value) =>
      var found := FindApp(s.wm.apps, pid, ns);
      if found.Some? { PublishStep(s, t, FeedbackEvent(found.value, value), noReadds); }
    case PublishAdd =>
      PublishStep(s, t, AddEvent(s.wm.pc.app), noReadds);
    case Erase =>
      assert Pending(t) == Pending(s);
    case MonitorPublish(loads) =>
      PublishStep(s, t, MonitorEvent(loads), noReadds);
    case OtherPublish =>
      PublishStep(s, t, OtherEvent, noReadds);
  }

  lemma PmStepSimulates(cfg: Config, s: Sys, a: Action, noReadds: bool)
    requires Enabled(s, a) && Simulates(s, noReadds) && (a.PmPop? || a.PmHandle?)
    ensures Simulates(Do(cfg, s, a), noReadds)
  {
    var t := Do(cfg, s, a);
    if a.PmPop? {
      assert Pending(t) == Pending(s);
    } else {
      assert Pending(s)[1..] == Pending(t);
    }
  }

  // ---------- runs ----------

  // Each action is enabled when its turn comes
  ghost predicate Possible(cfg: Config, actions: seq<Action>)
    decreases |actions|, 0
  {
    actions == [] ||
    (var n := |actions| - 1;
     Possible(cfg, actions[..n]) && Enabled(Run(cfg, actions[..n]), actions[n]))
  }

  ghost function Run(cfg: Config, actions: seq<Action>): Sys
    requires Possible(cfg, actions)
    decreases |actions|, 1
  {
    if actions == [] then START
    else Do(cfg, Run(cfg, actions[..|actions| - 1]), actions[|actions| - 1])
  }

  // No fork in the run names a child that is managed at that moment
  ghost predicate FreshForks(cfg: Config, actions: seq<Action>)
    requires Possible(cfg, actions)
  {
    actions == [] ||
    (var n := |actions| - 1;
     FreshForks(cfg, actions[..n]) && !ForksManaged(cfg, Run(cfg, actions[..n]), actions[n]))
  }

  // In every interleaving, applying the pending events to PolicyManager's set gives exactly
  // WorkloadManager's set
  lemma {:induction false} EveryInterleavingSimulates(cfg: Config, actions: seq<Action>)
    requires Possible(cfg, actions)
    ensures Simulates(Run(cfg, actions), false)
    ensures FreshForks(cfg, actions) ==> Simulates(Run(cfg, actions), true)
  {
    if actions != [] {
      var n := |actions| - 1;
      EveryInterleavingSimulates(cfg, actions[..n]);
      var s := Run(cfg, actions[..n]);
      if actions[n].PmPop? || actions[n].PmHandle? {
        PmStepSimulates(cfg, s, actions[n], false);
        if FreshForks(cfg, actions) { PmStepSimulates(cfg, s, actions[n], true); }
      } else {
        WmStepSimulates(cfg, s, actions[n], false);
        if FreshForks(cfg, actions) { WmStepSimulates(cfg, s, actions[n], true); }
      }
    }
  }

  // A feedback or remove event that PolicyManager has dequeued names an app it holds, the very
  // one WorkloadManager meant: the "AppMapping not found" branch is unreachable for feedback
  lemma DequeuedAppsAreHeld(cfg: Config, actions: seq<Action>)
    requires Possible(cfg, actions) && Run(cfg, actions).pm.pc.Handling?
    ensures var pm := Run(cfg, actions).pm;
            var e := pm.pc.event;
            && (e.FeedbackEvent? || e.RemoveEvent? ==> e.app.pid in pm.apps && pm.apps[e.app.pid] == e.app)
            && (e.AddEvent? && FreshForks(cfg, actions) ==> e.app.pid !in pm.apps)
  {
    EveryInterleavingSimulates(cfg, actions);
    var s := Run(cfg, actions);
    assert Pending(s)[0] == s.pm.pc.event;
  }

  // Once nothing is pending the two sets are equal
  lemma QuietMeansEqual(cfg: Config, actions: seq<Action>)
    requires Possible(cfg, actions)
    requires var s := Run(cfg, actions); s.wm.pc.WmIdle? && s.pm.pc.PmIdle? && s.queue == []
    ensures Run(cfg, actions).wm.apps == Run(cfg, actions).pm.apps
  {
    EveryInterleavingSimulates(cfg, actions);
  }

  // Excluding such forks is needed: wherever a fork's child is already managed, the AddEvent that follows meets an
  // app with its pid in PolicyManager's set once everything published before it has been handled
  lemma ManagedForkReadds(cfg: Config, s: Sys, a: Action)
    requires Simulates(s, false) && s.wm.pc.WmIdle? && ForksManaged(cfg, s, a)
    ensures Enabled(s, a) && Enabled(Do(cfg, s, a), PublishAdd)
    ensures var published := Do(cfg, Do(cfg, s, a), PublishAdd);
            var e := AddEvent(Child(s.wm.apps[a.parentPid], a.childPid));
            && published.pm == s.pm && Pending(published) == Pending(s) + [e]
            && e.app.pid in AllApplied(s.pm.apps, Pending(s))
            && !Sound(AllApplied(s.pm.apps, Pending(s)), e, true)
  {
  }

  // From a state with nothing pending the very next event PolicyManager handles is the re-add
  lemma ManagedForkReaddsNext(cfg: Config, s: Sys, a: Action)
    requires Simulates(s, false) && s.wm.pc.WmIdle? && s.pm.pc.PmIdle? && s.queue == []
    requires ForksManaged(cfg, s, a)
    ensures Enabled(s, a) && Enabled(Do(cfg, s, a), PublishAdd)
    ensures var published := Do(cfg, Do(cfg, s, a), PublishAdd);
            && Enabled(published, PmPop)
            && var pm := Do(cfg, published, PmPop).pm;
               pm.pc.Handling? && pm.pc.event.AddEvent? && pm.pc.event.app.pid == a.childPid && a.childPid in pm.apps
  {
    var app := Child(s.wm.apps[a.parentPid], a.childPid);
    assert Upcoming(s) == s.pm.apps;
    assert [] + [AddEvent(app)] == [AddEvent(app)];
  }

  // ---------- re-adds, exactly ----------

  // PolicyManager handles an AddEvent for an app it holds
  ghost predicate HandlesReadd(s: Sys, a: Action) {
    && a.PmHandle? && s.pm.pc.Handling?
    && s.pm.pc.event.AddEvent? && s.pm.pc.event.app.pid in s.pm.apps
  }

  // Some step of the run did so
  ghost predicate ReaddHandled(cfg: Config, actions: seq<Action>)
    requires Possible(cfg, actions)
  {
    actions != [] &&
    (var n := |actions| - 1;
     ReaddHandled(cfg, actions[..n]) || HandlesReadd(Run(cfg, actions[..n]), actions[n]))
  }

  lemma PublishExactly(s: Sys, t: Sys, e: Event)
    requires t.queue == s.queue + [e] && t.pm == s.pm
    ensures Upcoming(t) == Applied(Upcoming(s), e)
    ensures AllSound(t.pm.apps, Pending(t), true) <==>
            AllSound(s.pm.apps, Pending(s), true) && Sound(Upcoming(s), e, true)
  {
    PublishAtEnd(s.pm.apps, Pending(s), e, true);
    assert Pending(t) == Pending(s) + [e];
  }

  // A step of WorkloadManager brings a re-add on its way exactly if it is a fork of a managed child
  lemma WmStepExactly(cfg: Config, s: Sys, a: Action)
    requires Enabled(s, a) && Simulates(s, false) && !a.PmPop? && !a.PmHandle?
    ensures Simulates(Do(cfg, s, a), true) <==> Simulates(s, true) && !ForksManaged(cfg, s, a)
  {
    var t := Do(cfg, s, a);
    WmStepSimulates(cfg, s, a, false);
    match a {
      case Exit(pid) =>
        if pid in s.wm.apps { PublishExactly(s, t, RemoveEvent(s.wm.apps[pid])); }
      case FeedbackRequest(pid, ns, value) =>
        var found := FindApp(s.wm.apps, pid, ns);
        if found.Some? { PublishExactly(s, t, FeedbackEvent(found.value, value)); }
      case PublishAdd => PublishExactly(s, t, AddEvent(s.wm.pc.app));
      case MonitorPublish(loads) => PublishExactly(s, t, MonitorEvent(loads));
      case OtherPublish => PublishExactly(s, t, OtherEvent);
      case Fork(_, _, _) => assert Pending(t) == Pending(s);
      case AddRequest(_, _) => assert Pending(t) == Pending(s);
      case Erase => assert Pending(t) == Pending(s);
      case _ =>
    }
  }

  // A step of PolicyManager takes a re-add off its way exactly if it handles one
  lemma PmStepExactly(cfg: Config, s: Sys, a: Action)
    requires Enabled(s, a) && Simulates(s, false) && (a.PmPop? || a.PmHandle?)
    ensures Simulates(s, true) <==> Simulates(Do(cfg, s, a), true) && !HandlesReadd(s, a)
  {
    var t := Do(cfg, s, a);
    PmStepSimulates(cfg, s, a, false);
    if a.PmPop? {
      assert Pending(t) == Pending(s);
    } else {
      assert Pending(s)[0] == s.pm.pc.event && Pending(s)[1..] == Pending(t);
    }
  }

  // In every run: no fork named a managed child if and only if no re-add has been handled and none is on its way
  lemma {:induction false} ReaddsExactly(cfg: Config, actions: seq<Action>)
    requires Possible(cfg, actions)
    ensures FreshForks(cfg, actions) <==> !ReaddHandled(cfg, actions) && Simulates(Run(cfg, actions), true)
  {
    if actions != [] {
      var n := |actions| - 1;
      var s := Run(cfg, actions[..n]);
      ReaddsExactly(cfg, actions[..n]);
      EveryInterleavingSimulates(cfg, actions[..n]);
      if actions[n].PmPop? || actions[n].PmHandle? {
        PmStepExactly(cfg, s, actions[n]);
      } else {
        WmStepExactly(cfg, s, actions[n]);
      }
    }
  }

  // Nothing is on its way any more
  ghost predicate Drained(s: Sys) {
    s.wm.pc.WmIdle? && s.pm.pc.PmIdle? && s.queue == []
  }

  // So at the end of a drained run a re-add was handled if and only if some fork named a managed child
  lemma DrainedReadds(cfg: Config, actions: seq<Action>)
    requires Possible(cfg, actions) && Drained(Run(cfg, actions))
    ensures ReaddHandled(cfg, actions) <==> !FreshForks(cfg, actions)
  {
    ReaddsExactly(cfg, actions);
    EveryInterleavingSimulates(cfg, actions);
  }
}
