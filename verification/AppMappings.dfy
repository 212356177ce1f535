/** The cached side of rm/policymanager/appmapping.h, and what the allocation policies share
    when they work on such mappings. The cgroup files hold the same values as the cache. */
module AppMappings {
  import opened CpusetVector
  import opened PuSearch
  import opened Allocation

  class AppMapping {
    const pid: int
    var puVec: Cpuset
    var cpuMax: NumericValue
    var lastFeedback: int

    // getCpuMax fills an unset cache from the cpu.max file, whose content is cgroupMax
    constructor (pid: int, cgroupMax: NumericValue)
      ensures this.pid == pid && puVec == [] && cpuMax == cgroupMax && lastFeedback == NO_FEEDBACK
    {
      this.pid := pid;
      puVec := [];
      cpuMax := cgroupMax;
      lastFeedback := NO_FEEDBACK;
    }

    ghost function View(): App
      reads this
    {
      App(Members(puVec), cpuMax, lastFeedback)
    }

    ghost predicate WellFormed()
      reads this
    {
      Canonical(puVec) && Shorts(puVec)
    }

    ghost predicate OnPUsOf(pl: Platform)
      reads this
    {
      Canonical(puVec) && Members(puVec) <= pl.PuSet()
    }

    method SetPuVector(vec: Cpuset)
      modifies this`puVec
      ensures puVec == vec
    {
      puVec := vec;
    }

    method SetCpuMax(value: NumericValue)
      modifies this`cpuMax
      ensures cpuMax == value
    {
      cpuMax := value;
    }

    method SetLastFeedback(feedback: int)
      modifies this`lastFeedback
      ensures lastFeedback == feedback
    {
      lastFeedback := feedback;
    }
  }

  // A vector whose members are PUs of the platform is made of non-negative shorts
  lemma PlatformVectorIsShorts(pl: Platform, vec: Cpuset)
    requires pl.Valid() && Canonical(vec) && Members(vec) <= pl.PuSet()
    ensures Shorts(vec) && forall x :: x in Members(vec) ==> 0 <= x
  {
    forall k | 0 <= k < |vec| ensures 0 <= vec[k].first && vec[k].last <= SHORT_MAX {
      BoundsAreMembers(vec, k);
    }
  }

  ghost function Views(m: map<int, AppMapping>): map<int, App>
    reads m.Values
  {
    map pid | pid in m :: m[pid].View()
  }

  // Two views that differ at pid only
  lemma ViewsDifferAt(before: map<int, App>, after: map<int, App>, pid: int)
    requires after.Keys == before.Keys && pid in after
    requires forall q :: q in after && q != pid ==> after[q] == before[q]
    ensures after == before[pid := after[pid]]
  {
  }

  // A mapping joined the set
  lemma ViewsAfterInsert(m: map<int, AppMapping>, pid: int, appMapping: AppMapping)
    requires pid !in m
    ensures Views(m[pid := appMapping]) == Views(m)[pid := appMapping.View()]
  {
  }

  lemma ReleaseOne(counts: seq<int>, gone: set<int>, pu: int)
    requires 0 <= pu < |counts| && pu !in gone
    ensures var r := Released(counts, gone);
            var lower := r[pu := r[pu] - 1];
            lower[pu := if lower[pu] > 0 then lower[pu] else 0] == Released(counts, gone + {pu})
  {
  }

  // removeApp, the same in both policies: the count of each of the app's PUs goes down by one
  // and is then clamped at zero
  method ReleasePUs(counts: seq<int>, vec: Cpuset) returns (appsOnPu: seq<int>)
    requires Canonical(vec) && forall p :: p in Members(vec) ==> 0 <= p < |counts|
    ensures appsOnPu == Released(counts, Members(vec))
  {
    hide Released, Members, Flatten;
    var vecPu := ToVector(vec);
    FlattenIsAscending(vec);
    appsOnPu := counts;
    ghost var gone: set<int> := {};
    assert appsOnPu == Released(counts, gone);
    for n := 0 to |vecPu|
      invariant appsOnPu == Released(counts, gone)
      invariant forall p :: p in gone <==> p in vecPu[..n]
    {
      var pu := vecPu[n];
      assert pu in vecPu && pu !in gone;
      ReleaseOne(counts, gone, pu);
      appsOnPu := appsOnPu[pu := appsOnPu[pu] - 1];
      appsOnPu := appsOnPu[pu := if appsOnPu[pu] > 0 then appsOnPu[pu] else 0];
      gone := gone + {pu};
    }
    assert forall p :: p in gone <==> p in Flatten(vec);
    assert forall p :: p in gone <==> p in Members(vec);
    assert Released(counts, gone) == Released(counts, Members(vec));
  }
}
