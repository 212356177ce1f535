/** The queue and the two managers as objects: rm/librmcommon/threadsafequeue.h,
    rm/workloadmanager/workloadmanager.cpp and rm/policymanager/policymanager.cpp. Each handler
    is the sequence of atomic steps that Pipeline gives it. */
module PipelineThreads {
  import opened Pipeline

  // The mutex makes each method one atomic step; waiting and notification are not modelled
  class ThreadsafeQueue<T(0)> {
    var data: seq<T>

    constructor ()
      ensures data == []
    {
      data := [];
    }

    method Push(value: T)
      modifies this
      ensures data == old(data) + [value]
    {
      data := data + [value];
    }

    // waitAndPop without a limit returns only once there is an element
    method WaitAndPop() returns (value: T)
      requires data != []
      modifies this
      ensures old(data) == [value] + data
    {
      value := data[0];
      data := data[1..];
    }

    // tryPop, and waitAndPop when its time is up
    method TryPop() returns (popped: bool, value: T)
      modifies this
      ensures popped <==> old(data) != []
      ensures if popped then old(data) == [value] + data else data == old(data)
    {
      if data == [] {
        value := *;
        return false, value;
      }
      value := data[0];
      data := data[1..];
      popped := true;
    }
  }

  class WorkloadManager {
    const cfg: Config
    const bus: ThreadsafeQueue<Event>
    var apps: AppSet

    constructor (cfg: Config, bus: ThreadsafeQueue<Event>)
      ensures this.cfg == cfg && this.bus == bus && apps == map[]
    {
      this.cfg := cfg;
      this.bus := bus;
      apps := map[];
    }

    // The whole system as this thread sees it between two handlers
    ghost function View(pm: Pm): Sys
      reads this, bus
    {
      Sys(Wm(apps, WmIdle), bus.data, pm)
    }

    // Both steps of add: the set first, then the event
    method Add(app: App, admitted: bool)
      modifies this, bus
      ensures apps == if admitted then Insert(old(apps), app) else old(apps)
      ensures bus.data == if admitted then old(bus.data) + [AddEvent(app)] else old(bus.data)
    {
      if !admitted { return; }
      if app.pid !in apps {
        apps := apps[app.pid := app];
      }
      bus.Push(AddEvent(app));
    }

    // Both steps of remove: the event first, then the set
    method Remove(pid: int)
      modifies this, bus
      ensures pid !in old(apps) ==> apps == old(apps) && bus.data == old(bus.data)
      ensures pid in old(apps) ==>
                apps == old(apps) - {pid} && bus.data == old(bus.data) + [RemoveEvent(old(apps)[pid])]
    {
      if pid in apps {
        bus.Push(RemoveEvent(apps[pid]));
        apps := apps - {pid};
      }
    }

    method ProcessForkEvent(parentPid: int, childPid: int, admitted: bool, ghost pm: Pm)
      modifies this, bus
      ensures var s := Do(cfg, old(View(pm)), Fork(parentPid, childPid, admitted));
              View(pm) == if s.wm.pc.MustPublishAdd? then Do(cfg, s, PublishAdd) else s
    {
      if parentPid in apps {
        var parent := apps[parentPid];
        if parent.appType == CONTAINER && !cfg.changeContainerCgroup { return; }
        if parent.appType == KUBERNETES && !cfg.changeKubernetesCgroup { return; }
        Add(Child(parent, childPid), admitted);
      }
    }

    method ProcessAddRequestEvent(app: App, admitted: bool, ghost pm: Pm)
      modifies this, bus
      ensures var s := Do(cfg, old(View(pm)), AddRequest(app, admitted));
              View(pm) == if s.wm.pc.MustPublishAdd? then Do(cfg, s, PublishAdd) else s
    {
      if app.pid !in apps {
        Add(app, admitted);
      }
    }

    method ProcessExitEvent(pid: int, ghost pm: Pm)
      modifies this, bus
      ensures var s := Do(cfg, old(View(pm)), Exit(pid));
              View(pm) == if s.wm.pc.MustErase? then Do(cfg, s, Erase) else s
    {
      if pid in apps {
        Remove(pid);
      }
    }

    // findAppByNsPid walks the set in pid order, here the list pids, to the first match
    method FindAppByNsPid(pids: seq<int>, nsPid: int, ns: int) returns (found: Option<App>)
      requires forall p :: p in pids <==> p in apps
      requires forall j, k :: 0 <= j < k < |pids| ==> pids[j] < pids[k]
      ensures ns != 0 ==> found == FindApp(apps, nsPid, ns)
    {
      for k := 0 to |pids|
        invariant forall j :: 0 <= j < k ==> !NsMatch(apps, nsPid, ns, pids[j])
      {
        assert pids[k] in pids;
        var app := apps[pids[k]];
        if app.nsPid == nsPid && app.ns == ns {
          forall q | NsMatch(apps, nsPid, ns, q) ensures pids[k] <= q {
            assert q in pids;
          }
          assert FirstNsMatch(apps, nsPid, ns, pids[k]);
          return Some(app);
        }
      }
      forall q ensures !NsMatch(apps, nsPid, ns, q) {
        if q in apps { assert q in pids; }
      }
      found := None;
    }

    method ProcessFeedbackRequestEvent(pids: seq<int>, pid: int, ns: int, value: int, ghost pm: Pm)
      requires forall p :: p in pids <==> p in apps
      requires forall j, k :: 0 <= j < k < |pids| ==> pids[j] < pids[k]
      modifies this, bus
      ensures View(pm) == Do(cfg, old(View(pm)), FeedbackRequest(pid, ns, value))
    {
      var found: Option<App>;
      if ns == 0 {
        found := if pid in apps then Some(apps[pid]) else None;
      } else {
        found := FindAppByNsPid(pids, pid, ns);
      }
      if found.Some? {
        bus.Push(FeedbackEvent(found.value, value));
      }
    }
  }

  class PolicyManager {
    const queue: ThreadsafeQueue<Event>
    var apps: AppSet

    constructor (queue: ThreadsafeQueue<Event>)
      ensures this.queue == queue && apps == map[]
    {
      this.queue := queue;
      apps := map[];
    }

    ghost function View(wm: Wm): Sys
      reads this, queue
    {
      Sys(wm, queue.data, Pm(apps, PmIdle))
    }

    // processEvent; found says whether the app of a feedback or remove event was in the set
    method ProcessEvent(event: Event) returns (found: bool)
      modifies this
      ensures apps == Applied(old(apps), event)
      ensures found <==> (event.FeedbackEvent? || event.RemoveEvent? ==> event.app.pid in old(apps))
    {
      found := true;
      match event
      case AddEvent(app) =>
        if app.pid !in apps {
          apps := apps[app.pid := app];
        }
      case RemoveEvent(app) =>
        found := app.pid in apps;
        if found {
          apps := apps - {app.pid};
        }
      case FeedbackEvent(app, _) =>
        found := app.pid in apps;
      case _ =>
    }

    // One round of BaseEventReceiver::run with an event waiting: pop, then handle. Run when the
    // system is in a simulating state, the round keeps it there and always finds the app.
    method Round(ghost cfg: Config, ghost wm: Wm) returns (found: bool)
      requires queue.data != [] && Simulates(View(wm), false)
      modifies this, queue
      ensures View(wm) == Do(cfg, Do(cfg, old(View(wm)), PmPop), PmHandle)
      ensures Simulates(View(wm), false) && found
    {
      ghost var s := View(wm);
      PmStepSimulates(cfg, s, PmPop, false);
      PmStepSimulates(cfg, Do(cfg, s, PmPop), PmHandle, false);
      assert Pending(s)[0] == queue.data[0];
      var event := queue.WaitAndPop();
      found := ProcessEvent(event);
    }
  }
}
