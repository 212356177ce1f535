/** The searches by which the allocation policies choose a processing unit (PU) to grant or to
    take away: rm/policymanager/policies/puprogressivepolicy.cpp, repeated in mincorespolicy.cpp. */
module PuSearch {
  import opened CpusetVector

  const INT_MAX := 0x7fff_ffff

  // The processing units 0..numPUs-1 and the distance between any two of them
  datatype Platform = Platform(numPUs: nat, distance: (int, int) -> int, ghost maxDistance: nat) {
    // Distances are symmetric, and their sum over all pairs of PUs is an int
    ghost predicate Valid() {
      && 0 < numPUs <= SHORT_MAX
      && (forall p, q :: 0 <= Distance(p, q) <= maxDistance)
      && (forall p, q :: Distance(p, q) == Distance(q, p))
      && numPUs * (numPUs * maxDistance) < INT_MAX
      && maxDistance < INT_MAX
    }

    function Distance(p: int, q: int): int {
      distance(p, q)
    }

    function PuSet(): (s: set<int>)
      ensures forall p :: p in s <==> 0 <= p < numPUs
    {
      Below(numPUs)
    }
  }

  function Below(n: nat): (s: set<int>)
    ensures forall p :: p in s <==> 0 <= p < n
  {
    if n == 0 then {} else Below(n - 1) + {n - 1}
  }

  lemma {:induction false} SubsetOfBelow(s: set<int>, n: nat)
    requires s <= Below(n)
    ensures |s| <= n && (|s| == n ==> s == Below(n))
  {
    if n > 0 {
      SubsetOfBelow(s - {n - 1}, n - 1);
      if n - 1 in s {
        assert s == (s - {n - 1}) + {n - 1};
      } else {
        assert s - {n - 1} == s;
      }
    }
  }

  // ---------- best-so-far search over a list ----------

  // The first element of vec with the least key, or -1 when every key is INT_MAX or more
  function Least(vec: seq<int>, keys: seq<int>): int
    requires forall k :: 0 <= k < |vec| ==> 0 <= vec[k] < |keys|
    ensures Least(vec, keys) == -1 || Least(vec, keys) in vec
  {
    if vec == [] then -1
    else
      var x := vec[|vec| - 1];
      var best := Least(vec[..|vec| - 1], keys);
      if keys[x] < (if best == -1 then INT_MAX else keys[best]) then x else best
  }

  ghost predicate IsLeast(vec: seq<int>, keys: seq<int>, r: int)
    requires forall k :: 0 <= k < |vec| ==> 0 <= vec[k] < |keys|
  {
    && r in vec && 0 <= r < |keys| && keys[r] < INT_MAX
    && forall x :: x in vec ==> keys[r] < keys[x] || (keys[r] == keys[x] && r <= x)
  }

  lemma {:induction false} LeastIsLeast(vec: seq<int>, keys: seq<int>)
    requires forall k :: 0 <= k < |vec| ==> 0 <= vec[k] < |keys|
    requires StrictlyAscending(vec)
    ensures Least(vec, keys) == -1 <==> forall x :: x in vec ==> keys[x] >= INT_MAX
    ensures Least(vec, keys) != -1 ==> IsLeast(vec, keys, Least(vec, keys))
  {
    if vec != [] {
      var n := |vec| - 1;
      LeastIsLeast(vec[..n], keys);
      assert forall x :: x in vec <==> x in vec[..n] || x == vec[n];
    }
  }

  // ---------- the PU in lowest use ----------

  // Loads of the PUs that already run a managed app; the others count as INT_MAX
  function UsedLoads(counts: seq<int>, loads: seq<int>): (r: seq<int>)
    requires |counts| == |loads|
    ensures |r| == |loads|
  {
    seq(|loads|, i requires 0 <= i < |loads| => if counts[i] > 0 then loads[i] else INT_MAX)
  }

  ghost predicate Loads(numPUs: nat, loads: seq<int>) {
    loads == [] || |loads| == numPUs
  }

  function LowerUsageAmong(vec: seq<int>, counts: seq<int>, loads: seq<int>): (r: int)
    requires Loads(|counts|, loads)
    requires forall k :: 0 <= k < |vec| ==> 0 <= vec[k] < |counts|
    ensures r == -1 || r in vec
  {
    if loads == [] then Least(vec, counts)
    else
      var used := Least(vec, UsedLoads(counts, loads));
      if used != -1 then used else Least(vec, loads)
  }

  // The loop shared by both forms of getLowerUsagePU when the load is known
  method LeastLoaded(vec: seq<int>, counts: seq<int>, pus: seq<int>) returns (minUsedLoadIdx: int, minLoadIdx: int)
    requires |counts| == |pus|
    requires forall k :: 0 <= k < |vec| ==> 0 <= vec[k] < |counts|
    ensures minUsedLoadIdx == Least(vec, UsedLoads(counts, pus))
    ensures minLoadIdx == Least(vec, pus)
  {
    var minLoad, minUsedLoad := INT_MAX, INT_MAX;
    minLoadIdx, minUsedLoadIdx := -1, -1;
    for n := 0 to |vec|
      invariant minLoadIdx == Least(vec[..n], pus)
      invariant minLoad == if minLoadIdx == -1 then INT_MAX else pus[minLoadIdx]
      invariant minUsedLoadIdx == Least(vec[..n], UsedLoads(counts, pus))
      invariant minUsedLoad <= INT_MAX
      invariant minUsedLoad == if minUsedLoadIdx == -1 then INT_MAX else UsedLoads(counts, pus)[minUsedLoadIdx]
    {
      var i := vec[n];
      assert vec[..n + 1][..n] == vec[..n];
      assert UsedLoads(counts, pus)[i] == if counts[i] > 0 then pus[i] else INT_MAX;
      if pus[i] < minLoad {
        minLoad := pus[i];
        minLoadIdx := i;
      }
      if counts[i] > 0 && pus[i] < minUsedLoad {
        minUsedLoad := pus[i];
        minUsedLoadIdx := i;
      }
    }
    assert vec[..|vec|] == vec;
  }

  method LeastPopulated(vec: seq<int>, counts: seq<int>) returns (minAppsOnPuIdx: int)
    requires forall k :: 0 <= k < |vec| ==> 0 <= vec[k] < |counts|
    ensures minAppsOnPuIdx == Least(vec, counts)
  {
    var minAppsOnPu := INT_MAX;
    minAppsOnPuIdx := -1;
    for n := 0 to |vec|
      invariant minAppsOnPuIdx == Least(vec[..n], counts)
      invariant minAppsOnPu == if minAppsOnPuIdx == -1 then INT_MAX else counts[minAppsOnPuIdx]
    {
      var i := vec[n];
      assert vec[..n + 1][..n] == vec[..n];
      if counts[i] < minAppsOnPu {
        minAppsOnPu := counts[i];
        minAppsOnPuIdx := i;
      }
    }
    assert vec[..|vec|] == vec;
  }

  // getLowerUsagePU(puset)
  method GetLowerUsageAmong(puset: set<int>, counts: seq<int>, pus: seq<int>) returns (res: int)
    requires Loads(|counts|, pus)
    requires forall p :: p in puset ==> 0 <= p < |counts|
    ensures res == LowerUsageAmong(Ascending(puset), counts, pus)
  {
    var vec := Ascending(puset);
    if pus != [] {
      var minUsedLoadIdx, minLoadIdx := LeastLoaded(vec, counts, pus);
      if minUsedLoadIdx != -1 {
        return minUsedLoadIdx;
      } else if minLoadIdx != -1 {
        return minLoadIdx;
      }
      res := -1;
    } else {
      res := LeastPopulated(vec, counts);
    }
  }

  // std::min_element: the first least element
  function MinElement(s: seq<int>): (r: nat)
    requires s != []
    ensures r < |s|
    ensures forall k :: 0 <= k < |s| ==> s[r] < s[k] || (s[r] == s[k] && r <= k)
  {
    if |s| == 1 then 0
    else var r := MinElement(s[..|s| - 1]);
         assert forall k :: 0 <= k < |s| - 1 ==> s[k] == s[..|s| - 1][k];
         if s[|s| - 1] < s[r] then |s| - 1 else r
  }

  function Range0(n: nat): (r: seq<int>)
    ensures |r| == n && StrictlyAscending(r)
    ensures forall k :: 0 <= k < n ==> r[k] == k
  {
    seq(n, k => k)
  }

  // getLowerUsagePU(): the whole platform. Without load data the comment in the source speaks
  // of used PUs only, but the code takes the least populated PU, used or not.
  function LowerUsage(counts: seq<int>, loads: seq<int>): (r: nat)
    requires Loads(|counts|, loads) && counts != []
    ensures r < |counts|
  {
    if loads != [] then
      var r := LowerUsageAmong(Range0(|counts|), counts, loads);
      if r == -1 then 0 else r
    else MinElement(counts)
  }

  // What the source's comment says of getLowerUsagePU(): a PU in use, as long as there is one
  ghost predicate PrefersUsed(counts: seq<int>, loads: seq<int>)
    requires Loads(|counts|, loads) && counts != []
  {
    (exists p :: 0 <= p < |counts| && counts[p] > 0) ==> counts[LowerUsage(counts, loads)] > 0
  }

  // Without load data the answer is in use exactly when every PU is, so the comment is right exactly when all
  // PUs are in use or none is
  lemma UsedWithoutLoads(counts: seq<int>)
    requires counts != [] && forall p :: 0 <= p < |counts| ==> counts[p] >= 0
    ensures counts[LowerUsage(counts, [])] > 0 <==> forall p :: 0 <= p < |counts| ==> counts[p] > 0
    ensures PrefersUsed(counts, []) <==>
            (forall p :: 0 <= p < |counts| ==> counts[p] > 0) || (forall p :: 0 <= p < |counts| ==> counts[p] == 0)
  {
    var r := MinElement(counts);
    assert LowerUsage(counts, []) == r;
  }

  // With load data the answer is in use exactly when some PU in use has a load below INT_MAX, or when no PU has
  // one and PU 0 is in use; so the comment is right exactly then, or when no PU is in use
  lemma UsedWithLoads(counts: seq<int>, loads: seq<int>)
    requires counts != [] && |loads| == |counts|
    ensures var someLow := exists p :: 0 <= p < |counts| && counts[p] > 0 && loads[p] < INT_MAX;
            var noneLow := forall p :: 0 <= p < |counts| ==> loads[p] >= INT_MAX;
            && (counts[LowerUsage(counts, loads)] > 0 <==> someLow || (noneLow && counts[0] > 0))
            && (PrefersUsed(counts, loads) <==>
                  (forall p :: 0 <= p < |counts| ==> counts[p] <= 0) || someLow || (noneLow && counts[0] > 0))
  {
    hide Least;
    var all, keys := Range0(|counts|), UsedLoads(counts, loads);
    LeastIsLeast(all, keys);
    LeastIsLeast(all, loads);
    var used, any := Least(all, keys), Least(all, loads);
    forall p | 0 <= p < |counts| ensures p in all {
      assert all[p] == p;
    }
    if used == -1 {
      forall p | 0 <= p < |counts| && counts[p] > 0 ensures loads[p] >= INT_MAX {
        assert p in all && keys[p] >= INT_MAX && keys[p] == loads[p];
      }
      if any != -1 {
        assert loads[any] < INT_MAX && counts[any] <= 0;
      }
    } else {
      assert keys[used] < INT_MAX && counts[used] > 0 && loads[used] < INT_MAX;
    }
  }

  // Which PU it is. With loads: the least loaded PU in use with a load below INT_MAX; if there is none, the least
  // loaded PU; if all loads are INT_MAX or more, PU 0. Without loads: the PU with the fewest apps. Always the first.
  lemma LowerUsageSpec(counts: seq<int>, loads: seq<int>)
    requires counts != [] && Loads(|counts|, loads)
    ensures var r, n := LowerUsage(counts, loads), |counts|;
            if loads == [] then
              forall p :: 0 <= p < n ==> counts[r] < counts[p] || (counts[r] == counts[p] && r <= p)
            else if exists p :: 0 <= p < n && counts[p] > 0 && loads[p] < INT_MAX then
              && counts[r] > 0 && loads[r] < INT_MAX
              && forall p :: 0 <= p < n && counts[p] > 0 ==> loads[r] < loads[p] || (loads[r] == loads[p] && r <= p)
            else if exists p :: 0 <= p < n && loads[p] < INT_MAX then
              forall p :: 0 <= p < n ==> loads[r] < loads[p] || (loads[r] == loads[p] && r <= p)
            else r == 0
  {
    if loads != [] {
      hide Least;
      var all, keys := Range0(|counts|), UsedLoads(counts, loads);
      LeastIsLeast(all, keys);
      LeastIsLeast(all, loads);
      forall p | 0 <= p < |counts|
        ensures p in all && keys[p] == if counts[p] > 0 then loads[p] else INT_MAX
      {
        assert all[p] == p;
      }
    }
  }

  // One app on PU 0 of two, no loads known: the answer is PU 1, which is not in use
  lemma IdlePUIsTaken()
    ensures LowerUsage([1, 0], []) == 1 && !PrefersUsed([1, 0], [])
  {
    assert MinElement([1, 0]) == 1;
    assert [1, 0][0] > 0;
  }

  method GetLowerUsage(counts: seq<int>, pus: seq<int>) returns (res: int)
    requires Loads(|counts|, pus) && counts != []
    ensures res == LowerUsage(counts, pus)
  {
    if pus != [] {
      var minUsedLoadIdx, minLoadIdx := LeastLoaded(Range0(|pus|), counts, pus);
      if minUsedLoadIdx != -1 {
        return minUsedLoadIdx;
      } else if minLoadIdx != -1 {
        return minLoadIdx;
      }
      res := 0;
    } else {
      res := MinElement(counts);
    }
  }

  // ---------- the nearest PUs ----------

  ghost predicate ClosestPair(pl: Platform, used: set<int>, avail: set<int>, u: int, p: int) {
    && u in used && p in avail
    && forall u', p' :: u' in used && p' in avail ==> pl.Distance(u, p) <= pl.Distance(u', p')
  }

  // The available PUs that some used PU is as close to as any used PU is to any available one
  ghost function Nearest(pl: Platform, used: set<int>, avail: set<int>): (r: set<int>)
    ensures r <= avail
  {
    set p | p in avail && exists u :: ClosestPair(pl, used, avail, u, p)
  }

  // best and res summarise the pairs examined so far
  ghost predicate Tracks(pl: Platform, done: set<(int, int)>, best: int, res: set<int>) {
    && (forall q :: q in done ==> best <= pl.Distance(q.0, q.1))
    && (forall p :: p in res ==> exists u :: (u, p) in done && pl.Distance(u, p) == best)
    && (forall q :: q in done && pl.Distance(q.0, q.1) == best ==> q.1 in res)
    && (done == {} ==> best == INT_MAX)
    && (done != {} ==> res != {})
  }

  lemma TrackStep(pl: Platform, done: set<(int, int)>, best: int, res: set<int>, u: int, p: int)
    requires pl.Valid() && Tracks(pl, done, best, res)
    ensures var d := pl.Distance(u, p);
            if d < best then Tracks(pl, done + {(u, p)}, d, {p})
            else if d == best then Tracks(pl, done + {(u, p)}, best, res + {p})
            else Tracks(pl, done + {(u, p)}, best, res)
  {
    var more := done + {(u, p)};
    assert (u, p) in more;
    if done == {} { assert pl.Distance(u, p) < best; }
    forall x | x in res ensures exists v :: (v, x) in more && pl.Distance(v, x) == best {
      var v :| (v, x) in done && pl.Distance(v, x) == best;
      assert (v, x) in more;
    }
  }

  // The inner loop of getNearestPUs: one used PU against every available one
  method ScanRow(pl: Platform, u: int, availPUs: seq<int>, best0: int, res0: set<int>, ghost done0: set<(int, int)>)
    returns (best: int, res: set<int>, ghost done: set<(int, int)>)
    requires pl.Valid() && Tracks(pl, done0, best0, res0)
    ensures Tracks(pl, done, best, res)
    ensures forall v, p :: (v, p) in done <==> (v, p) in done0 || (v == u && p in availPUs)
  {
    best, res, done := best0, res0, done0;
    for j := 0 to |availPUs|
      invariant Tracks(pl, done, best, res)
      invariant forall v, p :: (v, p) in done <==> (v, p) in done0 || (v == u && p in availPUs[..j])
    {
      var distance := pl.Distance(u, availPUs[j]);
      TrackStep(pl, done, best, res, u, availPUs[j]);
      if distance >= 0 {
        if distance < best {
          best := distance;
          res := {availPUs[j]};
        } else if distance == best {
          res := res + {availPUs[j]};
        }
      }
      done := done + {(u, availPUs[j])};
    }
  }

  method GetNearestPUs(pl: Platform, used: set<int>, avail: set<int>) returns (res: set<int>)
    requires pl.Valid()
    ensures res == Nearest(pl, used, avail)
  {
    var usedPUs, availPUs := Ascending(used), Ascending(avail);
    var best := INT_MAX;
    ghost var done: set<(int, int)> := {};
    res := {};
    for i := 0 to |usedPUs|
      invariant Tracks(pl, done, best, res)
      invariant forall u, p :: (u, p) in done <==> u in usedPUs[..i] && p in avail
    {
      best, res, done := ScanRow(pl, usedPUs[i], availPUs, best, res, done);
    }
    TrackedIsNearest(pl, used, avail, done, best, res);
  }

  lemma TrackedIsNearest(pl: Platform, used: set<int>, avail: set<int>, done: set<(int, int)>, best: int, res: set<int>)
    requires Tracks(pl, done, best, res)
    requires forall u, p :: (u, p) in done <==> u in used && p in avail
    ensures res == Nearest(pl, used, avail)
  {
    forall p ensures p in res <==> p in Nearest(pl, used, avail) {
      if p in res {
        var u :| (u, p) in done && pl.Distance(u, p) == best;
        forall u', p' | u' in used && p' in avail ensures pl.Distance(u, p) <= pl.Distance(u', p') {
          assert (u', p') in done;
        }
        assert ClosestPair(pl, used, avail, u, p);
      }
      if p in Nearest(pl, used, avail) {
        var u :| ClosestPair(pl, used, avail, u, p);
        assert (u, p) in done;
        var x := Pick(res);
        var v :| (v, x) in done && pl.Distance(v, x) == best;
      }
    }
  }

  // ---------- the PU to grant ----------

  function KonroUsed(counts: seq<int>): (s: set<int>)
    ensures forall p :: p in s <==> 0 <= p < |counts| && counts[p] > 0
  {
    set p | p in Below(|counts|) && counts[p] > 0
  }

  // The PUs getNewPU chooses from: those Konro already claims, and all others only if none is left
  function Candidates(pl: Platform, counts: seq<int>, used: set<int>): set<int> {
    if KonroUsed(counts) - used != {} then KonroUsed(counts) - used else pl.PuSet() - used
  }

  ghost function NewPU(pl: Platform, counts: seq<int>, loads: seq<int>, used: set<int>): (r: int)
    requires |counts| == pl.numPUs && Loads(pl.numPUs, loads)
    ensures r == -1 || (r in pl.PuSet() && r !in used)
  {
    var cands := Candidates(pl, counts, used);
    if cands == {} then -1
    else LowerUsageAmong(Ascending(Nearest(pl, used, cands)), counts, loads)
  }

  method GetNewPU(pl: Platform, counts: seq<int>, loads: seq<int>, vec: Cpuset) returns (res: int)
    requires pl.Valid() && |counts| == pl.numPUs && Loads(pl.numPUs, loads)
    ensures res == NewPU(pl, counts, loads, Members(vec))
  {
    res := -1;
    var usedPUs := ToSet(vec);
    var konroAvailablePUs := KonroUsed(counts) - usedPUs;
    if konroAvailablePUs != {} {
      var pus := GetNearestPUs(pl, usedPUs, konroAvailablePUs);
      res := GetLowerUsageAmong(pus, counts, loads);
    } else {
      var availPUs := pl.PuSet() - usedPUs;
      if availPUs != {} {
        var pus := GetNearestPUs(pl, usedPUs, availPUs);
        res := GetLowerUsageAmong(pus, counts, loads);
      }
    }
  }

  lemma {:induction false} ClosestPairExists(pl: Platform, used: set<int>, avail: set<int>)
    requires pl.Valid() && used != {} && avail != {}
    ensures exists u, p :: ClosestPair(pl, used, avail, u, p)
  {
    var u := Pick(used);
    var p := Pick(avail);
    while !ClosestPair(pl, used, avail, u, p)
      invariant u in used && p in avail
      decreases pl.Distance(u, p)
    {
      var u', p' :| u' in used && p' in avail && pl.Distance(u', p') < pl.Distance(u, p);
      u, p := u', p';
    }
  }

  lemma NearestExists(pl: Platform, used: set<int>, avail: set<int>)
    requires pl.Valid() && used != {} && avail != {}
    ensures Nearest(pl, used, avail) != {}
  {
    ClosestPairExists(pl, used, avail);
    var u, p :| ClosestPair(pl, used, avail, u, p);
    assert p in Nearest(pl, used, avail);
  }

  // What a nearest PU is ranked by: its load, or its number of apps when no load is known
  function Rank(counts: seq<int>, loads: seq<int>): seq<int> {
    if loads == [] then counts else loads
  }

  // The source prefers PUs already used by Konro twice, when it picks the candidates and when
  // it ranks them; the second preference never changes the choice
  lemma RankDecides(vec: seq<int>, counts: seq<int>, loads: seq<int>)
    requires Loads(|counts|, loads) && StrictlyAscending(vec)
    requires forall k :: 0 <= k < |vec| ==> 0 <= vec[k] < |counts|
    requires (forall x :: x in vec ==> counts[x] > 0) || (forall x :: x in vec ==> counts[x] <= 0)
    ensures LowerUsageAmong(vec, counts, loads) == Least(vec, Rank(counts, loads))
  {
    if loads != [] {
      var used := UsedLoads(counts, loads);
      LeastIsLeast(vec, used);
      LeastIsLeast(vec, loads);
      assert forall x :: x in vec ==> used[x] == if counts[x] > 0 then loads[x] else INT_MAX;
    }
  }

  // The same choice in the terms of the search itself
  lemma NewPUAmongCandidates(pl: Platform, counts: seq<int>, loads: seq<int>, used: set<int>)
    requires pl.Valid() && |counts| == pl.numPUs && Loads(pl.numPUs, loads)
    requires used != {} && used <= pl.PuSet()
    ensures var r := NewPU(pl, counts, loads, used);
            var cands := Candidates(pl, counts, used);
            var nearest := Nearest(pl, used, cands);
            var rank := Rank(counts, loads);
            && (cands == {} <==> used == pl.PuSet())
            && (cands == {} ==> r == -1)
            && (cands != {} ==> nearest != {})
            && (cands != {} ==> (r == -1 <==> forall p :: p in nearest ==> rank[p] >= INT_MAX))
            && (r != -1 ==>
                && r in pl.PuSet() && r !in used && r in nearest
                && ((exists p :: p in KonroUsed(counts) && p !in used) ==> counts[r] > 0)
                && (exists u :: ClosestPair(pl, used, cands, u, r))
                && (forall p :: p in nearest ==> rank[r] < rank[p] || (rank[r] == rank[p] && r <= p)))
  {
    hide Ascending, Least;
    var cands := Candidates(pl, counts, used);
    if cands != {} {
      NearestExists(pl, used, cands);
      var vec := Ascending(Nearest(pl, used, cands));
      RankDecides(vec, counts, loads);
      LeastIsLeast(vec, Rank(counts, loads));
    }
  }

  // ---------- the PU to grant, without naming the search ----------

  // What an app may be given: a PU it does not hold, and one that Konro has in use as long as there is such a one
  ghost predicate Available(numPUs: nat, counts: seq<int>, used: set<int>, p: int)
    requires |counts| == numPUs
  {
    && 0 <= p < numPUs && p !in used
    && ((exists q :: 0 <= q < numPUs && counts[q] > 0 && q !in used) ==> counts[p] > 0)
  }

  // No PU of the app is closer to any available PU than u is to p
  ghost predicate Closest(pl: Platform, counts: seq<int>, used: set<int>, u: int, p: int)
    requires |counts| == pl.numPUs
  {
    && u in used && Available(pl.numPUs, counts, used, p)
    && forall v, q :: v in used && Available(pl.numPUs, counts, used, q) ==> pl.Distance(u, p) <= pl.Distance(v, q)
  }

  ghost predicate IsNearest(pl: Platform, counts: seq<int>, used: set<int>, p: int)
    requires |counts| == pl.numPUs
  {
    exists u :: Closest(pl, counts, used, u, p)
  }

  lemma CandidatesAre(pl: Platform, counts: seq<int>, used: set<int>, p: int)
    requires |counts| == pl.numPUs
    ensures p in Candidates(pl, counts, used) <==> Available(pl.numPUs, counts, used, p)
  {
    var free := KonroUsed(counts) - used;
    if q :| 0 <= q < pl.numPUs && counts[q] > 0 && q !in used {
      assert q in free;
    } else {
      forall q ensures q !in free {
      }
    }
  }

  lemma NearestAre(pl: Platform, counts: seq<int>, used: set<int>, p: int)
    requires |counts| == pl.numPUs
    ensures p in Nearest(pl, used, Candidates(pl, counts, used)) <==> IsNearest(pl, counts, used, p)
  {
    hide Candidates, Available;
    var cands := Candidates(pl, counts, used);
    forall q ensures q in cands <==> Available(pl.numPUs, counts, used, q) {
      CandidatesAre(pl, counts, used, q);
    }
    forall u ensures ClosestPair(pl, used, cands, u, p) <==> Closest(pl, counts, used, u, p) {
    }
  }

  // The whole specification of getNewPU for an app that holds at least one PU. Some PU is available as long as the app
  // does not hold them all, and then some is nearest. The answer is -1 exactly when every nearest PU has a rank of
  // INT_MAX, in particular when there is none; otherwise it is the first nearest PU of least rank.
  lemma NewPUSpec(pl: Platform, counts: seq<int>, loads: seq<int>, used: set<int>)
    requires pl.Valid() && |counts| == pl.numPUs && Loads(pl.numPUs, loads)
    requires used != {} && used <= pl.PuSet()
    ensures (exists p :: Available(pl.numPUs, counts, used, p)) <==> used != pl.PuSet()
    ensures used != pl.PuSet() ==> exists p :: IsNearest(pl, counts, used, p)
    ensures var r := NewPU(pl, counts, loads, used);
            var rank := if loads == [] then counts else loads;
            && (r == -1 <==> forall p :: IsNearest(pl, counts, used, p) ==> rank[p] >= INT_MAX)
            && (r != -1 ==>
                  && IsNearest(pl, counts, used, r)
                  && forall p :: IsNearest(pl, counts, used, p) ==>
                       rank[r] < rank[p] || (rank[r] == rank[p] && r <= p))
  {
    hide Candidates, Nearest, Available, Closest, ClosestPair, NewPU;
    var cands := Candidates(pl, counts, used);
    var nearest := Nearest(pl, used, cands);
    NewPUAmongCandidates(pl, counts, loads, used);
    forall p ensures p in cands <==> Available(pl.numPUs, counts, used, p) {
      CandidatesAre(pl, counts, used, p);
    }
    forall p ensures p in nearest <==> IsNearest(pl, counts, used, p) {
      NearestAre(pl, counts, used, p);
    }
    if cands != {} {
      var p := Pick(cands);
      var q := Pick(nearest);
      assert Available(pl.numPUs, counts, used, p) && IsNearest(pl, counts, used, q);
    }
  }
}
