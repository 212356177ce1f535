/** From the event sources to the PU counters: the events that PolicyManager hands to its policy
    in any interleaving of the two threads, and what they do to the counts of the two allocation policies. */
module SystemConservation {
  import opened PuSearch
  import opened Allocation
  import G = ProgressiveModel
  import GR = ProgressiveRuns
  import M = MinCoresModel
  import P = Pipeline
  import L = PipelineLog

  // The policy call made for an event; the cpu.max file of a new cgroup holds "max", and neither policy does
  // anything at a timer, security or clear event
  function PolicyCall(e: P.Event): Event {
    match e
    case AddEvent(app) => Add(app.pid, Max)
    case RemoveEvent(app) => Remove(app.pid)
    case FeedbackEvent(app, value) => Feedback(app.pid, value)
    case MonitorEvent(loads) => Monitor(loads)
    case OtherEvent => Timer
  }

  // Every monitor event that is published reports the load of every PU, or none
  ghost predicate Reports(numPUs: nat, actions: seq<P.Action>) {
    forall k :: 0 <= k < |actions| && actions[k].MonitorPublish? ==> Loads(numPUs, actions[k].loads)
  }

  ghost predicate AllReport(numPUs: nat, events: seq<P.Event>) {
    forall k :: 0 <= k < |events| ==> Acceptable(numPUs, PolicyCall(events[k]))
  }

  // What is on its way was published
  lemma {:induction false} PendingReports(numPUs: nat, cfg: P.Config, actions: seq<P.Action>)
    requires P.Possible(cfg, actions) && Reports(numPUs, actions)
    ensures AllReport(numPUs, P.Pending(P.Run(cfg, actions)))
  {
    if actions != [] {
      var n := |actions| - 1;
      PendingReports(numPUs, cfg, actions[..n]);
      StepReports(numPUs, cfg, P.Run(cfg, actions[..n]), actions[n]);
    }
  }

  lemma StepReports(numPUs: nat, cfg: P.Config, s: P.Sys, a: P.Action)
    requires P.Enabled(s, a) && AllReport(numPUs, P.Pending(s))
    requires a.MonitorPublish? ==> Loads(numPUs, a.loads)
    ensures AllReport(numPUs, P.Pending(P.Do(cfg, s, a)))
  {
    var before, after := P.Pending(s), P.Pending(P.Do(cfg, s, a));
    forall k | 0 <= k < |after| ensures Acceptable(numPUs, PolicyCall(after[k])) {
      if a.PmHandle? {
        assert after[k] == before[k + 1];
      } else if k < |before| {
        assert after[k] == before[k];
      }
    }
  }

  // The policy calls of a run, in the order in which they were made
  ghost function PolicyCalls(cfg: P.Config, actions: seq<P.Action>): (r: seq<Event>)
    requires P.Possible(cfg, actions)
  {
    if actions == [] then []
    else
      var n := |actions| - 1;
      var before := PolicyCalls(cfg, actions[..n]);
      if actions[n].PmHandle? then before + [PolicyCall(P.Run(cfg, actions[..n]).pm.pc.event)] else before
  }

  lemma {:induction false} CallsAreAcceptable(numPUs: nat, cfg: P.Config, actions: seq<P.Action>)
    requires P.Possible(cfg, actions) && Reports(numPUs, actions)
    ensures AcceptableRun(numPUs, PolicyCalls(cfg, actions))
  {
    if actions != [] {
      var n := |actions| - 1;
      CallsAreAcceptable(numPUs, cfg, actions[..n]);
      PendingReports(numPUs, cfg, actions[..n]);
      if actions[n].PmHandle? {
        var s := P.Run(cfg, actions[..n]);
        assert P.Pending(s)[0] == s.pm.pc.event;
      }
    }
  }

  // ---------- any policy that keeps the managed pids and accounts for its counts ----------

  function KeysAfter(keys: set<int>, e: Event): set<int> {
    match e
    case Add(pid, _) => keys + {pid}
    case Remove(pid) => keys - {pid}
    case _ => keys
  }

  ghost predicate PolicyTrace(states: seq<State>, events: seq<Event>) {
    && AccountedTrace(states, events) && Conserved(states[0]) && states[0].apps.Keys == {}
    && forall k, l :: 0 <= k < |events| && l == k + 1 ==>
         states[l].apps.Keys == KeysAfter(states[k].apps.Keys, events[k])
  }

  lemma PrefixIsTrace(states: seq<State>, events: seq<Event>, n: nat)
    requires PolicyTrace(states, events) && n <= |events|
    ensures PolicyTrace(states[..n + 1], events[..n])
  {
    var s, e := states[..n + 1], events[..n];
    forall k | 0 <= k < n ensures AccountedStep(s[k], e[k], s[k + 1]) {
      assert AccountedStep(states[k], events[k], states[k + 1]);
    }
  }

  lemma SomeReaddMore(states: seq<State>, events: seq<Event>)
    requires |states| == |events| + 1 && events != []
    ensures var n := |events| - 1;
            SomeReadd(states, events, n + 1) <==>
            SomeReadd(states[..n + 1], events[..n], n) || Readds(states[n], events[n])
  {
    var n := |events| - 1;
    assert forall k :: 0 <= k < n ==> states[..n + 1][k] == states[k] && events[..n][k] == events[k];
  }

  lemma KeysOfApplied(keys: set<int>, apps: P.AppSet, e: P.Event)
    requires keys == apps.Keys
    ensures KeysAfter(keys, PolicyCall(e)) == P.Applied(apps, e).Keys
  {
  }

  // Such a policy manages exactly the pids in PolicyManager's set, and its re-adds are those PolicyManager handles
  lemma {:induction false} TraceFollowsManager(cfg: P.Config, actions: seq<P.Action>, states: seq<State>)
    requires P.Possible(cfg, actions) && PolicyTrace(states, PolicyCalls(cfg, actions))
    ensures states[|states| - 1].apps.Keys == P.Run(cfg, actions).pm.apps.Keys
    ensures var calls := PolicyCalls(cfg, actions);
            SomeReadd(states, calls, |calls|) <==> P.ReaddHandled(cfg, actions)
  {
    if actions != [] {
      var n := |actions| - 1;
      var a, s := actions[n], P.Run(cfg, actions[..n]);
      var calls, before := PolicyCalls(cfg, actions), PolicyCalls(cfg, actions[..n]);
      if a.PmHandle? {
        var m := |before|;
        assert calls[..m] == before;
        PrefixIsTrace(states, calls, m);
        TraceFollowsManager(cfg, actions[..n], states[..m + 1]);
        KeysOfApplied(states[m].apps.Keys, s.pm.apps, s.pm.pc.event);
        SomeReaddMore(states, calls);
      } else {
        TraceFollowsManager(cfg, actions[..n], states);
        assert P.Do(cfg, s, a).pm.apps == s.pm.apps;
      }
    }
  }

  // Its counts are conserved if and only if no re-add was handled
  lemma TraceConservedExactly(cfg: P.Config, actions: seq<P.Action>, states: seq<State>)
    requires P.Possible(cfg, actions) && PolicyTrace(states, PolicyCalls(cfg, actions))
    ensures Conserved(states[|states| - 1]) <==> !P.ReaddHandled(cfg, actions)
  {
    TraceFollowsManager(cfg, actions, states);
    TraceConserves(states, PolicyCalls(cfg, actions), |states| - 1);
  }

  // ---------- the two policies ----------

  lemma ProgressiveTrace(pl: Platform, events: seq<Event>)
    requires pl.Valid() && AcceptableRun(pl.numPUs, events)
    ensures var t := GR.Trace(pl, events);
            PolicyTrace(t, events) && t[|events|] == GR.FromStart(pl, events)
  {
    var t := GR.Trace(pl, events);
    InitiallyPlaced(pl);
    assert events[..|events|] == events;
    forall k | 0 <= k < |events|
      ensures AccountedStep(t[k], events[k], t[k + 1])
      ensures t[k + 1].apps.Keys == KeysAfter(t[k].apps.Keys, events[k])
    {
      GR.TraceIsAccounted(pl, events, k);
      assert events[..k + 1][..k] == events[..k];
      ProgressiveKeys(pl, GR.FromStart(pl, events[..k]), events[k]);
    }
  }

  lemma ProgressiveKeys(pl: Platform, s: State, e: Event)
    requires pl.Valid() && G.Invariant(pl, s) && Acceptable(pl.numPUs, e)
    ensures G.Step(pl, s, e).apps.Keys == KeysAfter(s.apps.Keys, e)
  {
  }

  lemma MinCoresTrace(pl: Platform, events: seq<Event>)
    requires pl.Valid() && AcceptableRun(pl.numPUs, events)
    ensures var t := M.Trace(pl, events);
            PolicyTrace(t, events) && t[|events|] == M.FromStart(pl, events).base
  {
    var t := M.Trace(pl, events);
    InitiallyPlaced(pl);
    assert events[..|events|] == events;
    forall k | 0 <= k < |events|
      ensures AccountedStep(t[k], events[k], t[k + 1])
      ensures t[k + 1].apps.Keys == KeysAfter(t[k].apps.Keys, events[k])
    {
      M.TraceIsAccounted(pl, events, k);
      assert events[..k + 1][..k] == events[..k];
      MinCoresKeys(pl, M.FromStart(pl, events[..k]), events[k]);
    }
  }

  lemma MinCoresKeys(pl: Platform, m: M.MinCoresState, e: Event)
    requires pl.Valid() && Placed(pl, m.base) && Acceptable(pl.numPUs, e)
    ensures M.Step(pl, m, e).base.apps.Keys == KeysAfter(m.base.apps.Keys, e)
  {
  }

  // The progressive policy manages exactly the pids in PolicyManager's set
  lemma {:induction false} PolicyFollowsManager(pl: Platform, cfg: P.Config, actions: seq<P.Action>)
    requires pl.Valid() && P.Possible(cfg, actions) && Reports(pl.numPUs, actions)
    ensures AcceptableRun(pl.numPUs, PolicyCalls(cfg, actions))
    ensures GR.FromStart(pl, PolicyCalls(cfg, actions)).apps.Keys == P.Run(cfg, actions).pm.apps.Keys
  {
    CallsAreAcceptable(pl.numPUs, cfg, actions);
    ProgressiveTrace(pl, PolicyCalls(cfg, actions));
    TraceFollowsManager(cfg, actions, GR.Trace(pl, PolicyCalls(cfg, actions)));
  }

  // At every moment of every interleaving, loads and all: the counts of either policy are conserved if and only if
  // PolicyManager has handled no re-add
  lemma ConservedExactly(pl: Platform, cfg: P.Config, actions: seq<P.Action>)
    requires pl.Valid() && P.Possible(cfg, actions) && Reports(pl.numPUs, actions)
    ensures AcceptableRun(pl.numPUs, PolicyCalls(cfg, actions))
    ensures Conserved(GR.FromStart(pl, PolicyCalls(cfg, actions))) <==> !P.ReaddHandled(cfg, actions)
    ensures Conserved(M.FromStart(pl, PolicyCalls(cfg, actions)).base) <==> !P.ReaddHandled(cfg, actions)
  {
    var calls := PolicyCalls(cfg, actions);
    CallsAreAcceptable(pl.numPUs, cfg, actions);
    ProgressiveTrace(pl, calls);
    MinCoresTrace(pl, calls);
    TraceConservedExactly(cfg, actions, GR.Trace(pl, calls));
    TraceConservedExactly(cfg, actions, M.Trace(pl, calls));
  }

  // Whatever the interleaving, as long as no fork names a child that is already managed, each
  // PU count equals the number of managed apps on that PU
  lemma FreshForksConserve(pl: Platform, cfg: P.Config, actions: seq<P.Action>)
    requires pl.Valid() && P.Possible(cfg, actions) && Reports(pl.numPUs, actions) && P.FreshForks(cfg, actions)
    ensures AcceptableRun(pl.numPUs, PolicyCalls(cfg, actions))
    ensures Conserved(GR.FromStart(pl, PolicyCalls(cfg, actions)))
    ensures Conserved(M.FromStart(pl, PolicyCalls(cfg, actions)).base)
  {
    ConservedExactly(pl, cfg, actions);
    P.ReaddsExactly(cfg, actions);
  }

  // Once everything published has been handled, they are conserved if and only if no fork of the whole run named a
  // child that was managed at that moment
  lemma DrainedConservesExactly(pl: Platform, cfg: P.Config, actions: seq<P.Action>)
    requires pl.Valid() && P.Possible(cfg, actions) && Reports(pl.numPUs, actions)
    requires P.Drained(P.Run(cfg, actions))
    ensures AcceptableRun(pl.numPUs, PolicyCalls(cfg, actions))
    ensures Conserved(GR.FromStart(pl, PolicyCalls(cfg, actions))) <==> P.FreshForks(cfg, actions)
    ensures Conserved(M.FromStart(pl, PolicyCalls(cfg, actions)).base) <==> P.FreshForks(cfg, actions)
  {
    ConservedExactly(pl, cfg, actions);
    P.DrainedReadds(cfg, actions);
  }

  // ---------- feedback reaches the policy ----------

  // The feedback calls among the policy calls: pid and value
  function FeedbackCalls(calls: seq<Event>): seq<(int, int)> {
    if calls == [] then []
    else
      var last := calls[|calls| - 1];
      FeedbackCalls(calls[..|calls| - 1]) + (if last.Feedback? then [(last.pid, last.value)] else [])
  }

  function AsCalls(feedbacks: seq<(P.App, int)>): (r: seq<(int, int)>)
    ensures |r| == |feedbacks|
    ensures forall k :: 0 <= k < |r| ==> r[k] == (feedbacks[k].0.pid, feedbacks[k].1)
  {
    seq(|feedbacks|, k requires 0 <= k < |feedbacks| => (feedbacks[k].0.pid, feedbacks[k].1))
  }

  lemma {:induction false} CallsOfHandled(cfg: P.Config, actions: seq<P.Action>)
    requires P.Possible(cfg, actions)
    ensures FeedbackCalls(PolicyCalls(cfg, actions)) == AsCalls(L.Feedbacks(L.Handled(cfg, actions)))
  {
    hide P.Run, P.Do;
    if actions != [] {
      var n := |actions| - 1;
      CallsOfHandled(cfg, actions[..n]);
      if actions[n].PmHandle? {
        var e := P.Run(cfg, actions[..n]).pm.pc.event;
        var calls, handled := PolicyCalls(cfg, actions[..n]), L.Handled(cfg, actions[..n]);
        assert (calls + [PolicyCall(e)])[..|calls|] == calls;
        L.FeedbacksJoined(handled, [e]);
        L.FeedbackOf(e);
      }
    }
  }

  // In every interleaving the feedback calls made so far, and then those of the pending events, are in order exactly
  // the requests that named a managed app when they arrived, with that app's pid and their own value; once everything
  // has been handled, the calls alone are
  lemma FeedbackReachesPolicy(cfg: P.Config, actions: seq<P.Action>)
    requires P.Possible(cfg, actions)
    ensures var made, pending := FeedbackCalls(PolicyCalls(cfg, actions)), L.Feedbacks(P.Pending(P.Run(cfg, actions)));
            var requests := AsCalls(L.Requests(cfg, actions));
            made + AsCalls(pending) == requests && (P.Drained(P.Run(cfg, actions)) ==> made == requests)
  {
    hide P.Run, L.Requests, L.Handled, PolicyCalls;
    CallsOfHandled(cfg, actions);
    L.FeedbackIsDelivered(cfg, actions);
  }
}
