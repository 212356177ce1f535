/** What is delivered to PolicyManager and what is managed, said of the actions alone: which fork, exit and request
    events ask WorkloadManager for something (rm/workloadmanager/workloadmanager.cpp), and that exactly this
    arrives, in this order, in every interleaving. */
module PipelineLog {
  import opened Pipeline

  // ---------- what the events ask for ----------

  // A request in Konro's own namespace names an app by its pid, and in another one the app with the lowest pid of those
  // that have the given pid there
  ghost predicate Names(apps: AppSet, pid: int, ns: int, app: App) {
    if ns == 0 then pid in apps && app == apps[pid]
    else exists p ::
      && p in apps && app == apps[p] && apps[p].nsPid == pid && apps[p].ns == ns
      && forall q :: q in apps && apps[q].nsPid == pid && apps[q].ns == ns ==> p <= q
  }

  // With these apps managed, a asks for e: a fork of a tracked app adds its child with the parent's type, a request
  // adds an app that is not managed yet, an exit removes a managed app, a feedback request passes its value on
  ghost predicate Asks(cfg: Config, apps: AppSet, a: Action, e: Event) {
    match a
    case Fork(parentPid, childPid, admitted) =>
      && admitted && parentPid in apps && e == AddEvent(App(childPid, apps[parentPid].appType, 0, 0))
      && (apps[parentPid].appType == CONTAINER ==> cfg.changeContainerCgroup)
      && (apps[parentPid].appType == KUBERNETES ==> cfg.changeKubernetesCgroup)
    case AddRequest(app, admitted) => admitted && app.pid !in apps && e == AddEvent(app)
    case Exit(pid) => pid in apps && e == RemoveEvent(apps[pid])
    case FeedbackRequest(pid, ns, value) => e.FeedbackEvent? && e.value == value && Names(apps, pid, ns, e.app)
    case _ => false
  }

  lemma FirstNames(apps: AppSet, pid: int, ns: int, p: int)
    ensures FirstNsMatch(apps, pid, ns, p) <==>
            && p in apps && apps[p].nsPid == pid && apps[p].ns == ns
            && forall q :: q in apps && apps[q].nsPid == pid && apps[q].ns == ns ==> p <= q
  {
    if FirstNsMatch(apps, pid, ns, p) {
      forall q | q in apps && apps[q].nsPid == pid && apps[q].ns == ns ensures p <= q {
        assert NsMatch(apps, pid, ns, q);
      }
    }
  }

  lemma NamesOne(apps: AppSet, pid: int, ns: int, app: App)
    ensures Names(apps, pid, ns, app) <==> FindApp(apps, pid, ns) == Some(app)
  {
    if ns != 0 {
      forall p ensures FirstNsMatch(apps, pid, ns, p) <==>
                       && p in apps && apps[p].nsPid == pid && apps[p].ns == ns
                       && forall q :: q in apps && apps[q].nsPid == pid && apps[q].ns == ns ==> p <= q {
        FirstNames(apps, pid, ns, p);
      }
      hide FirstNsMatch;
      if p :| FirstNsMatch(apps, pid, ns, p) {
        var q :| FirstNsMatch(apps, pid, ns, q) && FindApp(apps, pid, ns) == Some(apps[q]);
        assert p <= q && q <= p;
      }
    }
  }

  lemma AsksForOne(cfg: Config, apps: AppSet, a: Action, e: Event, f: Event)
    requires Asks(cfg, apps, a, e) && Asks(cfg, apps, a, f)
    ensures e == f
  {
    if a.FeedbackRequest? {
      NamesOne(apps, a.pid, a.ns, e.app);
      NamesOne(apps, a.pid, a.ns, f.app);
    }
  }

  ghost function Asked(cfg: Config, apps: AppSet, a: Action): seq<Event> {
    if e :| Asks(cfg, apps, a, e) then [e] else []
  }

  // Everything the actions of a run asked for, with the apps that were managed at each moment
  ghost function Log(cfg: Config, actions: seq<Action>): seq<Event>
    requires Possible(cfg, actions)
  {
    if actions == [] then []
    else
      var n := |actions| - 1;
      Log(cfg, actions[..n]) + Asked(cfg, Run(cfg, actions[..n]).wm.apps, actions[n])
  }

  // ---------- what arrives ----------

  // The events PolicyManager has handled, in order
  ghost function Handled(cfg: Config, actions: seq<Action>): seq<Event>
    requires Possible(cfg, actions)
  {
    if actions == [] then []
    else
      var n := |actions| - 1;
      var before := Handled(cfg, actions[..n]);
      if actions[n].PmHandle? then before + [Run(cfg, actions[..n]).pm.pc.event] else before
  }

  // Handled or on its way
  ghost function Published(cfg: Config, actions: seq<Action>): seq<Event>
    requires Possible(cfg, actions)
  {
    Handled(cfg, actions) + Pending(Run(cfg, actions))
  }

  predicate FromManager(e: Event) {
    e.AddEvent? || e.RemoveEvent? || e.FeedbackEvent?
  }

  // The events WorkloadManager published
  function Managers(events: seq<Event>): seq<Event> {
    if events == [] then []
    else
      var last := events[|events| - 1];
      Managers(events[..|events| - 1]) + (if FromManager(last) then [last] else [])
  }

  // The events the monitor, the timer and the security monitor published
  function Others(events: seq<Event>): seq<Event> {
    if events == [] then []
    else
      var last := events[|events| - 1];
      Others(events[..|events| - 1]) + (if FromManager(last) then [] else [last])
  }

  // An Add that is in the set already and about to be published
  function InHand(wm: Wm): seq<Event> {
    if wm.pc.MustPublishAdd? then [AddEvent(wm.pc.app)] else []
  }

  lemma {:induction false} FilterJoined(a: seq<Event>, b: seq<Event>)
    ensures Managers(a + b) == Managers(a) + Managers(b) && Others(a + b) == Others(a) + Others(b)
  {
    if b == [] {
      assert a + b == a;
    } else {
      var n := |b| - 1;
      FilterJoined(a, b[..n]);
      assert (a + b)[..|a + b| - 1] == a + b[..n] && (a + b)[|a + b| - 1] == b[n];
    }
  }

  // What a step puts at the end of the published events
  ghost function PublishedBy(s: Sys, a: Action): seq<Event>
    requires Enabled(s, a)
  {
    match a
    case Exit(pid) => if pid in s.wm.apps then [RemoveEvent(s.wm.apps[pid])] else []
    case FeedbackRequest(pid, ns, value) =>
      var found := FindApp(s.wm.apps, pid, ns);
      if found.Some? then [FeedbackEvent(found.value, value)] else []
    case PublishAdd => [AddEvent(s.wm.pc.app)]
    case MonitorPublish(loads) => [MonitorEvent(loads)]
    case OtherPublish => [OtherEvent]
    case _ => []
  }

  // What the other publishers put there
  function Report(a: Action): seq<Event> {
    match a
    case MonitorPublish(loads) => [MonitorEvent(loads)]
    case OtherPublish => [OtherEvent]
    case _ => []
  }

  lemma PendingGrows(cfg: Config, s: Sys, a: Action)
    requires Enabled(s, a)
    ensures var t := Do(cfg, s, a);
            if a.PmHandle? then PublishedBy(s, a) == [] && Pending(s) == [s.pm.pc.event] + Pending(t)
            else Pending(t) == Pending(s) + PublishedBy(s, a)
  {
    hide FindApp, Admit, Applied;
    var t, e := Do(cfg, s, a), PublishedBy(s, a);
    if !a.PmHandle? && !a.PmPop? { assert t.queue == s.queue + e; }
  }

  lemma PublishedGrows(cfg: Config, actions: seq<Action>)
    requires Possible(cfg, actions) && actions != []
    ensures var n := |actions| - 1;
            Published(cfg, actions) ==
            Published(cfg, actions[..n]) + PublishedBy(Run(cfg, actions[..n]), actions[n])
  {
    hide Do, PublishedBy, Pending;
    var n := |actions| - 1;
    var s, a := Run(cfg, actions[..n]), actions[n];
    var t, e := Do(cfg, s, a), PublishedBy(s, a);
    var handled := Handled(cfg, actions[..n]);
    PendingGrows(cfg, s, a);
    if a.PmHandle? {
      assert handled + [s.pm.pc.event] + Pending(t) == handled + ([s.pm.pc.event] + Pending(t));
      assert handled + Pending(s) + [] == handled + Pending(s);
    } else {
      assert handled + (Pending(s) + e) == handled + Pending(s) + e;
    }
  }

  lemma AskedIs(cfg: Config, apps: AppSet, a: Action, asked: seq<Event>)
    requires |asked| <= 1 && forall e :: Asks(cfg, apps, a, e) <==> asked == [e]
    ensures Asked(cfg, apps, a) == asked
  {
    if asked != [] { assert asked == [asked[0]]; }
  }

  lemma OneEvent(e: Event)
    ensures Managers([e]) == if FromManager(e) then [e] else []
    ensures Others([e]) == if FromManager(e) then [] else [e]
  {
    assert [e][..0] == [] && [] + [e] == [e];
  }

  lemma ForkIsLogged(cfg: Config, s: Sys, a: Action)
    requires Enabled(s, a) && (a.Fork? || a.AddRequest?)
    ensures InHand(s.wm) == [] && PublishedBy(s, a) == []
    ensures InHand(Do(cfg, s, a).wm) == Asked(cfg, s.wm.apps, a)
  {
    hide Asked, Insert;
    AskedIs(cfg, s.wm.apps, a, InHand(Do(cfg, s, a).wm));
  }

  lemma ExitIsLogged(cfg: Config, s: Sys, a: Action)
    requires Enabled(s, a) && (a.Exit? || a.FeedbackRequest?)
    ensures InHand(s.wm) == [] && InHand(Do(cfg, s, a).wm) == []
    ensures PublishedBy(s, a) == Asked(cfg, s.wm.apps, a)
    ensures |PublishedBy(s, a)| <= 1 && forall e :: e in PublishedBy(s, a) ==> FromManager(e)
  {
    hide Asked, FindApp, Names;
    var apps := s.wm.apps;
    if a.FeedbackRequest? {
      forall e ensures Asks(cfg, apps, a, e) <==> PublishedBy(s, a) == [e] {
        if e.FeedbackEvent? { NamesOne(apps, a.pid, a.ns, e.app); }
      }
    }
    AskedIs(cfg, apps, a, PublishedBy(s, a));
  }

  lemma RestIsLogged(cfg: Config, s: Sys, a: Action)
    requires Enabled(s, a) && !a.Fork? && !a.AddRequest? && !a.Exit? && !a.FeedbackRequest?
    ensures Asked(cfg, s.wm.apps, a) == []
    ensures if a.PublishAdd? then PublishedBy(s, a) == InHand(s.wm) && InHand(Do(cfg, s, a).wm) == []
            else InHand(Do(cfg, s, a).wm) == InHand(s.wm) && PublishedBy(s, a) == Report(a)
    ensures a.PublishAdd? ==> InHand(s.wm) == [AddEvent(s.wm.pc.app)]
  {
  }

  // What a step publishes or takes in hand is what was in hand or is asked for
  lemma StepIsLogged(cfg: Config, s: Sys, a: Action)
    requires Enabled(s, a)
    ensures Managers(PublishedBy(s, a)) + InHand(Do(cfg, s, a).wm) == InHand(s.wm) + Asked(cfg, s.wm.apps, a)
    ensures Others(PublishedBy(s, a)) == Report(a)
  {
    hide Asked, PublishedBy, InHand, Do;
    var e := PublishedBy(s, a);
    if a.Fork? || a.AddRequest? {
      ForkIsLogged(cfg, s, a);
    } else if a.Exit? || a.FeedbackRequest? {
      ExitIsLogged(cfg, s, a);
      if e != [] {
        assert e == [e[0]];
        OneEvent(e[0]);
      }
    } else {
      RestIsLogged(cfg, s, a);
      if a.PublishAdd? { OneEvent(AddEvent(s.wm.pc.app)); }
      if Report(a) != [] { OneEvent(Report(a)[0]); }
    }
  }

  // In every interleaving: the Add, Remove and Feedback events that were handled, are on their way or in hand are, in
  // this order, exactly what the actions asked for
  lemma {:induction false} AllIsDelivered(cfg: Config, actions: seq<Action>)
    requires Possible(cfg, actions)
    ensures Managers(Published(cfg, actions)) + InHand(Run(cfg, actions).wm) == Log(cfg, actions)
  {
    hide Published, Managers, InHand, Asked, PublishedBy, Do;
    if actions == [] {
      NothingPublished(cfg);
    } else {
      var n := |actions| - 1;
      var s, a := Run(cfg, actions[..n]), actions[n];
      var before, e := Published(cfg, actions[..n]), PublishedBy(s, a);
      AllIsDelivered(cfg, actions[..n]);
      PublishedGrows(cfg, actions);
      FilterJoined(before, e);
      StepIsLogged(cfg, s, a);
      Regroup(Managers(before), Managers(e), InHand(Do(cfg, s, a).wm), InHand(s.wm), Asked(cfg, s.wm.apps, a));
    }
  }

  lemma Regroup(a: seq<Event>, b: seq<Event>, c: seq<Event>, d: seq<Event>, e: seq<Event>)
    requires b + c == d + e
    ensures a + b + c == a + d + e
  {
    assert a + b + c == a + (b + c);
  }

  lemma NothingPublished(cfg: Config)
    ensures Managers(Published(cfg, [])) == [] && Others(Published(cfg, [])) == [] && InHand(Run(cfg, []).wm) == []
  {
  }

  // ---------- the other publishers ----------

  // Every report of loads, and every event of the timer, the security monitor and the operator
  function Reported(actions: seq<Action>): seq<Event> {
    if actions == [] then [] else Reported(actions[..|actions| - 1]) + Report(actions[|actions| - 1])
  }

  lemma {:induction false} OthersAreDelivered(cfg: Config, actions: seq<Action>)
    requires Possible(cfg, actions)
    ensures Others(Published(cfg, actions)) == Reported(actions)
  {
    hide Published, PublishedBy, Do, Others, Report, Enabled;
    if actions == [] {
      NothingPublished(cfg);
    } else {
      var n := |actions| - 1;
      var s, a := Run(cfg, actions[..n]), actions[n];
      OthersAreDelivered(cfg, actions[..n]);
      PublishedGrows(cfg, actions);
      FilterJoined(Published(cfg, actions[..n]), PublishedBy(s, a));
      StepIsLogged(cfg, s, a);
    }
  }

  // ---------- feedback ----------

  // The feedback requests of a run that named a managed app when they arrived, with that app
  ghost function Requests(cfg: Config, actions: seq<Action>): seq<(App, int)>
    requires Possible(cfg, actions)
  {
    if actions == [] then []
    else
      var n := |actions| - 1;
      var before, a := Requests(cfg, actions[..n]), actions[n];
      if !a.FeedbackRequest? then before
      else if app :| Names(Run(cfg, actions[..n]).wm.apps, a.pid, a.ns, app) then before + [(app, a.value)]
      else before
  }

  function Feedbacks(events: seq<Event>): seq<(App, int)> {
    if events == [] then []
    else
      var last := events[|events| - 1];
      Feedbacks(events[..|events| - 1]) + (if last.FeedbackEvent? then [(last.app, last.value)] else [])
  }

  lemma {:induction false} FeedbacksJoined(a: seq<Event>, b: seq<Event>)
    ensures Feedbacks(a + b) == Feedbacks(a) + Feedbacks(b)
  {
    if b == [] {
      assert a + b == a;
    } else {
      var n := |b| - 1;
      FeedbacksJoined(a, b[..n]);
      assert (a + b)[..|a + b| - 1] == a + b[..n] && (a + b)[|a + b| - 1] == b[n];
    }
  }

  lemma {:induction false} FeedbacksOfManagers(events: seq<Event>)
    ensures Feedbacks(Managers(events)) == Feedbacks(events)
  {
    if events != [] {
      var n := |events| - 1;
      FeedbacksOfManagers(events[..n]);
      FeedbacksJoined(Managers(events[..n]), [events[n]]);
      FeedbackOf(events[n]);
      assert Managers(events[..n]) + [] == Managers(events[..n]);
    }
  }

  lemma FeedbackOf(e: Event)
    ensures Feedbacks([e]) == if e.FeedbackEvent? then [(e.app, e.value)] else []
  {
    assert [e][..0] == [];
  }

  lemma {:induction false} FeedbacksOfLog(cfg: Config, actions: seq<Action>)
    requires Possible(cfg, actions)
    ensures Feedbacks(Log(cfg, actions)) == Requests(cfg, actions)
  {
    hide Names, Run;
    if actions != [] {
      var n := |actions| - 1;
      var apps, a := Run(cfg, actions[..n]).wm.apps, actions[n];
      var asked := Asked(cfg, apps, a);
      FeedbacksOfLog(cfg, actions[..n]);
      FeedbacksJoined(Log(cfg, actions[..n]), asked);
      if asked != [] { FeedbackOf(asked[0]); }
      if a.FeedbackRequest? {
        forall app | Names(apps, a.pid, a.ns, app) ensures asked == [FeedbackEvent(app, a.value)] {
          assert Asks(cfg, apps, a, FeedbackEvent(app, a.value));
          AsksForOne(cfg, apps, a, FeedbackEvent(app, a.value), asked[0]);
        }
      }
    }
  }

  // In every interleaving the feedback events handled so far and then the pending ones are, in order, exactly the
  // requests that named a managed app when they arrived, each with that app and its own value
  lemma FeedbackIsDelivered(cfg: Config, actions: seq<Action>)
    requires Possible(cfg, actions)
    ensures Feedbacks(Handled(cfg, actions)) + Feedbacks(Pending(Run(cfg, actions))) == Requests(cfg, actions)
  {
    hide Requests, Log, Feedbacks, Managers, Handled, Pending, Run;
    AllIsDelivered(cfg, actions);
    FeedbacksOfLog(cfg, actions);
    var all, hand := Published(cfg, actions), InHand(Run(cfg, actions).wm);
    FeedbacksJoined(Managers(all), hand);
    FeedbacksOfManagers(all);
    FeedbacksJoined(Handled(cfg, actions), Pending(Run(cfg, actions)));
    NoFeedbackInHand(Run(cfg, actions).wm);
    assert Feedbacks(all) + [] == Feedbacks(all);
  }

  lemma NoFeedbackInHand(wm: Wm)
    ensures Feedbacks(InHand(wm)) == []
  {
    if wm.pc.MustPublishAdd? { FeedbackOf(AddEvent(wm.pc.app)); }
  }

  // ---------- who is managed ----------

  lemma {:induction false} AppliedJoined(apps: AppSet, a: seq<Event>, b: seq<Event>)
    ensures AllApplied(apps, a + b) == AllApplied(AllApplied(apps, a), b)
    decreases |a|
  {
    if a == [] {
      assert a + b == b;
    } else {
      assert (a + b)[1..] == a[1..] + b;
      AppliedJoined(Applied(apps, a[0]), a[1..], b);
    }
  }

  lemma AppliedOne(apps: AppSet, events: seq<Event>, e: Event)
    ensures AllApplied(apps, events + [e]) == Applied(AllApplied(apps, events), e)
  {
    PublishAtEnd(apps, events, e, false);
  }

  // Only what WorkloadManager publishes changes a set
  lemma {:induction false} AppliedManagers(events: seq<Event>)
    ensures AllApplied(map[], Managers(events)) == AllApplied(map[], events)
  {
    if events != [] {
      var n := |events| - 1;
      AppliedManagers(events[..n]);
      assert events == events[..n] + [events[n]];
      AppliedOne(map[], events[..n], events[n]);
      AppliedOne(map[], Managers(events[..n]), events[n]);
      assert Managers(events[..n]) + [] == Managers(events[..n]);
    }
  }

  lemma {:induction false} HandledIsApplied(cfg: Config, actions: seq<Action>)
    requires Possible(cfg, actions)
    ensures Run(cfg, actions).pm.apps == AllApplied(map[], Handled(cfg, actions))
  {
    if actions != [] {
      var n := |actions| - 1;
      var s := Run(cfg, actions[..n]);
      HandledIsApplied(cfg, actions[..n]);
      if actions[n].PmHandle? { AppliedOne(map[], Handled(cfg, actions[..n]), s.pm.pc.event); }
    }
  }

  // WorkloadManager's set, outside of the removal of an app
  lemma SetIsLog(cfg: Config, actions: seq<Action>)
    requires Possible(cfg, actions) && !Run(cfg, actions).wm.pc.MustErase?
    ensures Run(cfg, actions).wm.apps == AllApplied(map[], Log(cfg, actions))
  {
    hide Log, Managers, Handled, Run, AllApplied;
    var s := Run(cfg, actions);
    var all := Published(cfg, actions);
    AllIsDelivered(cfg, actions);
    EveryInterleavingSimulates(cfg, actions);
    HandledIsApplied(cfg, actions);
    AppliedJoined(map[], Handled(cfg, actions), Pending(s));
    AppliedManagers(all);
    if s.wm.pc.MustPublishAdd? {
      AppliedOne(map[], Managers(all), AddEvent(s.wm.pc.app));
    } else {
      assert Managers(all) + [] == Managers(all);
    }
  }

  // Event k removes pid
  predicate Removes(log: seq<Event>, k: int, pid: int) {
    0 <= k < |log| && log[k].RemoveEvent? && log[k].app.pid == pid
  }

  // Event i added app, no app with its pid was managed then, and none has been removed since
  ghost predicate AddedAt(log: seq<Event>, i: nat, app: App) {
    && i < |log| && log[i] == AddEvent(app)
    && (forall k :: i < k < |log| ==> !Removes(log, k, app.pid))
    && (forall j :: 0 <= j < i && log[j].AddEvent? && log[j].app.pid == app.pid ==>
          exists k :: j < k < i && Removes(log, k, app.pid))
  }

  // Every Add of pid has been undone
  ghost predicate Gone(log: seq<Event>, pid: int) {
    forall j :: 0 <= j < |log| && log[j].AddEvent? && log[j].app.pid == pid ==>
      exists k :: j < k < |log| && Removes(log, k, pid)
  }

  lemma AddedAtStays(log: seq<Event>, i: nat, app: App, e: Event)
    requires AddedAt(log, i, app) && !(e.RemoveEvent? && e.app.pid == app.pid)
    ensures AddedAt(log + [e], i, app)
  {
    var more := log + [e];
    assert forall k :: 0 <= k < |log| ==> more[k] == log[k];
    assert forall k :: 0 <= k < |log| ==> (Removes(more, k, app.pid) <==> Removes(log, k, app.pid));
    forall j | 0 <= j < i && more[j].AddEvent? && more[j].app.pid == app.pid
      ensures exists k :: j < k < i && Removes(more, k, app.pid)
    {
      assert log[j] == more[j];
      var k :| j < k < i && Removes(log, k, app.pid);
      assert Removes(more, k, app.pid);
    }
  }

  lemma AddedAtEnd(log: seq<Event>, app: App)
    requires Gone(log, app.pid)
    ensures AddedAt(log + [AddEvent(app)], |log|, app)
  {
    var more := log + [AddEvent(app)];
    forall j | 0 <= j < |log| && more[j].AddEvent? && more[j].app.pid == app.pid
      ensures exists k :: j < k < |log| && Removes(more, k, app.pid)
    {
      assert log[j] == more[j];
      var k :| j < k < |log| && Removes(log, k, app.pid);
      assert Removes(more, k, app.pid);
    }
  }

  lemma GoneStays(log: seq<Event>, pid: int, e: Event)
    requires Gone(log, pid) || (e.RemoveEvent? && e.app.pid == pid)
    requires !(e.AddEvent? && e.app.pid == pid)
    ensures Gone(log + [e], pid)
  {
    var more := log + [e];
    forall j | 0 <= j < |more| && more[j].AddEvent? && more[j].app.pid == pid
      ensures exists k :: j < k < |more| && Removes(more, k, pid)
    {
      assert j < |log| && log[j] == more[j];
      if e.RemoveEvent? && e.app.pid == pid {
        assert Removes(more, |log|, pid);
      } else {
        var k :| j < k < |log| && Removes(log, k, pid);
        assert Removes(more, k, pid);
      }
    }
  }

  lemma {:induction false} ReplayIs(log: seq<Event>, pid: int)
    ensures var m := AllApplied(map[], log);
            if pid in m then m[pid].pid == pid && exists i :: AddedAt(log, i, m[pid]) else Gone(log, pid)
  {
    hide AddedAt, Gone, AllApplied;
    if log == [] {
      NothingLogged(pid);
    } else {
      var before, e := log[..|log| - 1], log[|log| - 1];
      var m := AllApplied(map[], before);
      ReplayIs(before, pid);
      AppliedOne(map[], before, e);
      assert log == before + [e];
      if e.RemoveEvent? && e.app.pid == pid {
        GoneStays(before, pid, e);
      } else if pid in m {
        var i :| AddedAt(before, i, m[pid]);
        AddedAtStays(before, i, m[pid], e);
      } else if e.AddEvent? && e.app.pid == pid {
        AddedAtEnd(before, e.app);
      } else {
        GoneStays(before, pid, e);
      }
    }
  }

  lemma NothingLogged(pid: int)
    ensures AllApplied(map[], []) == map[] && Gone([], pid)
  {
  }

  lemma AddedOnce(log: seq<Event>, i: nat, app: App, j: nat, app': App)
    requires AddedAt(log, i, app) && AddedAt(log, j, app') && app.pid == app'.pid
    ensures app == app'
  {
    assert log[i].AddEvent? && log[j].AddEvent?;
  }

  // In every interleaving, outside of the removal of an app: WorkloadManager manages exactly the apps that a fork or a
  // request added when no app with that pid was managed, and that have not exited since
  lemma ManagedExactly(cfg: Config, actions: seq<Action>, app: App)
    requires Possible(cfg, actions) && !Run(cfg, actions).wm.pc.MustErase?
    ensures var apps := Run(cfg, actions).wm.apps;
            (app.pid in apps && apps[app.pid] == app) <==> exists i :: AddedAt(Log(cfg, actions), i, app)
  {
    hide AddedAt, Log, Run, AllApplied;
    var log := Log(cfg, actions);
    var apps := Run(cfg, actions).wm.apps;
    SetIsLog(cfg, actions);
    ReplayIs(log, app.pid);
    if i :| AddedAt(log, i, app) {
      NotGone(log, i, app);
      var j :| AddedAt(log, j, apps[app.pid]);
      AddedOnce(log, i, app, j, apps[app.pid]);
    }
  }

  lemma NotGone(log: seq<Event>, i: nat, app: App)
    requires AddedAt(log, i, app)
    ensures !Gone(log, app.pid)
  {
    assert log[i].AddEvent?;
  }
}
