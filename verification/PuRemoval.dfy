/** Which processing unit an app gives up: pickWorstPU of
    rm/policymanager/policies/puprogressivepolicy.cpp tries every removal and adds up the
    distances between the PUs that would remain. */
module PuRemoval {
  import opened CpusetVector
  import opened PuSearch

  // The distance counted for the pair (j, k) when index rem is left out
  function Term(pl: Platform, vec: seq<int>, rem: int, j: nat, k: nat): int
    requires j < |vec| && k < |vec|
  {
    if j != rem && k != rem && j != k then pl.Distance(vec[j], vec[k]) else 0
  }

  // The pairs (j, j+1) .. (j, k-1)
  function Row(pl: Platform, vec: seq<int>, rem: int, j: nat, k: nat): int
    requires j < |vec| && k <= |vec|
  {
    if k <= j + 1 then 0 else Row(pl, vec, rem, j, k - 1) + Term(pl, vec, rem, j, k - 1)
  }

  // The pairs whose first index is below j
  function Rows(pl: Platform, vec: seq<int>, rem: int, j: nat): int
    requires j <= |vec|
  {
    if j == 0 then 0 else Rows(pl, vec, rem, j - 1) + Row(pl, vec, rem, j - 1, |vec|)
  }

  // The sum of all pairwise distances once index rem is left out; -1 leaves nothing out
  function TotalWithout(pl: Platform, vec: seq<int>, rem: int): int {
    Rows(pl, vec, rem, |vec|)
  }

  function Totals(pl: Platform, vec: seq<int>): (r: seq<int>)
    ensures |r| == |vec| && forall i :: 0 <= i < |vec| ==> r[i] == TotalWithout(pl, vec, i)
  {
    seq(|vec|, i => TotalWithout(pl, vec, i))
  }

  // The index whose removal leaves the least total, or -1
  function WorstIndex(pl: Platform, vec: seq<int>): (r: int)
    ensures -1 <= r < |vec|
  {
    Least(Range0(|vec|), Totals(pl, vec))
  }

  function WorstPU(pl: Platform, pus: set<int>): (r: int)
    ensures r == -1 || r in pus
  {
    var vec := Ascending(pus);
    if |pus| == 1 || WorstIndex(pl, vec) == -1 then -1 else vec[WorstIndex(pl, vec)]
  }

  method PickWorstIndex(pl: Platform, vec1: seq<int>) returns (bestTotalDistanceIdx: int)
    ensures bestTotalDistanceIdx == WorstIndex(pl, vec1)
  {
    var bestTotalDistance := INT_MAX;
    bestTotalDistanceIdx := -1;
    ghost var all := Range0(|vec1|);
    for removePUIdx := 0 to |vec1|
      invariant bestTotalDistanceIdx == Least(all[..removePUIdx], Totals(pl, vec1))
      invariant bestTotalDistance ==
        if bestTotalDistanceIdx == -1 then INT_MAX else TotalWithout(pl, vec1, bestTotalDistanceIdx)
    {
      var totalDistance := TotalDistance(pl, vec1, removePUIdx);
      if totalDistance < bestTotalDistance {
        bestTotalDistance := totalDistance;
        bestTotalDistanceIdx := removePUIdx;
      }
      assert all[..removePUIdx + 1][..removePUIdx] == all[..removePUIdx];
    }
    assert all[..|all|] == all;
  }

  // The two inner loops of the search
  method TotalDistance(pl: Platform, vec1: seq<int>, removePUIdx: nat) returns (totalDistance: int)
    ensures totalDistance == TotalWithout(pl, vec1, removePUIdx)
  {
    totalDistance := 0;
    for j := 0 to |vec1|
      invariant totalDistance == Rows(pl, vec1, removePUIdx, j)
    {
      for k := j + 1 to |vec1|
        invariant totalDistance == Rows(pl, vec1, removePUIdx, j) + Row(pl, vec1, removePUIdx, j, k)
      {
        if j != removePUIdx && k != removePUIdx && j != k {
          var distance := pl.Distance(vec1[j], vec1[k]);
          totalDistance := totalDistance + distance;
        }
      }
    }
  }

  method PickWorstPU(pl: Platform, vec: Cpuset) returns (res: int)
    requires Canonical(vec) && Shorts(vec)
    ensures res == WorstPU(pl, Members(vec))
  {
    CountIsCardinality(vec);
    var count := CountPUs(vec);
    if count == 1 {
      return -1;
    }
    var vec1 := ToVector(vec);
    FlattenIsAscending(vec);
    AscendingUnique(vec1, Ascending(Members(vec)));
    var bestTotalDistanceIdx := PickWorstIndex(pl, vec1);
    res := if bestTotalDistanceIdx != -1 then vec1[bestTotalDistanceIdx] else -1;
  }

  // ---------- a largest row sum ----------

  // The sum of the distances from index i to the indices below m
  function RowSum(pl: Platform, vec: seq<int>, i: nat, m: nat): int
    requires i < |vec| && m <= |vec|
  {
    if m == 0 then 0
    else RowSum(pl, vec, i, m - 1) + (if m - 1 == i then 0 else pl.Distance(vec[i], vec[m - 1]))
  }

  // Leaving out rem changes a row only at rem itself, and clears the row of rem
  lemma {:induction false} RowWithout(pl: Platform, vec: seq<int>, rem: nat, j: nat, k: nat)
    requires pl.Valid() && rem < |vec| && j < |vec| && k <= |vec|
    ensures j != rem ==>
              Row(pl, vec, -1, j, k) ==
              Row(pl, vec, rem, j, k) + (if j < rem < k then pl.Distance(vec[rem], vec[j]) else 0)
    ensures j == rem ==>
              && Row(pl, vec, rem, j, k) == 0
              && (j < k ==> Row(pl, vec, -1, j, k) == RowSum(pl, vec, rem, k) - RowSum(pl, vec, rem, rem))
    decreases k
  {
    if k > j + 1 {
      RowWithout(pl, vec, rem, j, k - 1);
      assert pl.Distance(vec[rem], vec[j]) == pl.Distance(vec[j], vec[rem]);
    } else if j == rem && j < k {
      assert k == rem + 1;
    }
  }

  lemma {:induction false} RowsWithout(pl: Platform, vec: seq<int>, rem: nat, j: nat)
    requires pl.Valid() && rem < |vec| && j <= |vec|
    ensures Rows(pl, vec, -1, j) ==
            Rows(pl, vec, rem, j) + (if j <= rem then RowSum(pl, vec, rem, j) else RowSum(pl, vec, rem, |vec|))
  {
    if j > 0 {
      RowsWithout(pl, vec, rem, j - 1);
      RowWithout(pl, vec, rem, j - 1, |vec|);
    }
  }

  // What remains after removing an element plus that element's distances is the grand total
  lemma TotalSplits(pl: Platform, vec: seq<int>, i: nat)
    requires pl.Valid() && i < |vec|
    ensures TotalWithout(pl, vec, -1) == TotalWithout(pl, vec, i) + RowSum(pl, vec, i, |vec|)
  {
    RowsWithout(pl, vec, i, |vec|);
  }

  lemma {:induction false} RowBounded(pl: Platform, vec: seq<int>, rem: int, j: nat, k: nat)
    requires pl.Valid() && j < |vec| && k <= |vec|
    ensures 0 <= Row(pl, vec, rem, j, k) <= k * pl.maxDistance
  {
    if k > j + 1 {
      RowBounded(pl, vec, rem, j, k - 1);
      assert 0 <= pl.Distance(vec[j], vec[k - 1]) <= pl.maxDistance;
      assert 0 <= Term(pl, vec, rem, j, k - 1) <= pl.maxDistance;
      assert k * pl.maxDistance == (k - 1) * pl.maxDistance + pl.maxDistance;
    }
  }

  lemma {:induction false} RowsBounded(pl: Platform, vec: seq<int>, rem: int, j: nat)
    requires pl.Valid() && j <= |vec|
    ensures 0 <= Rows(pl, vec, rem, j) <= j * (|vec| * pl.maxDistance)
  {
    if j > 0 {
      RowsBounded(pl, vec, rem, j - 1);
      RowBounded(pl, vec, rem, j - 1, |vec|);
      assert j * (|vec| * pl.maxDistance) == (j - 1) * (|vec| * pl.maxDistance) + |vec| * pl.maxDistance;
    }
  }

  lemma TotalsBelowIntMax(pl: Platform, vec: seq<int>)
    requires pl.Valid() && |vec| <= pl.numPUs
    ensures forall i :: 0 <= i < |vec| ==> 0 <= Totals(pl, vec)[i] < INT_MAX
  {
    forall i | 0 <= i < |vec| ensures 0 <= Totals(pl, vec)[i] < INT_MAX {
      RowsBounded(pl, vec, i, |vec|);
      ProductMonotone(|vec|, pl.numPUs, pl.maxDistance);
      ProductMonotone(|vec|, pl.numPUs, |vec| * pl.maxDistance);
      ProductMonotone(|vec| * pl.maxDistance, pl.numPUs * pl.maxDistance, pl.numPUs);
    }
  }

  lemma ProductMonotone(a: nat, b: nat, c: nat)
    requires a <= b
    ensures a * c <= b * c
  {
  }

  // pickWorstPU refuses to empty an app; from two PUs on it removes a PU whose removal leaves
  // the least total pairwise distance, which is exactly one whose distances to the others have
  // the largest sum, the lowest-numbered one among equals
  lemma WorstPUSpec(pl: Platform, pus: set<int>)
    requires pl.Valid() && pus != {} && pus <= pl.PuSet()
    ensures WorstPU(pl, pus) == -1 <==> |pus| == 1
    ensures |pus| != 1 ==>
              var vec := Ascending(pus);
              var w := WorstIndex(pl, vec);
              && 0 <= w < |vec| && WorstPU(pl, pus) == vec[w] && vec[w] in pus
              && forall i :: 0 <= i < |vec| ==>
                   && TotalWithout(pl, vec, w) <= TotalWithout(pl, vec, i)
                   && RowSum(pl, vec, w, |vec|) >= RowSum(pl, vec, i, |vec|)
                   && (RowSum(pl, vec, w, |vec|) == RowSum(pl, vec, i, |vec|) ==> w <= i)
  {
    var vec := Ascending(pus);
    var all := Range0(|vec|);
    var w := WorstIndex(pl, vec);
    AscendingSize(pus);
    SubsetOfBelow(pus, pl.numPUs);
    TotalsBelowIntMax(pl, vec);
    LeastIsLeast(all, Totals(pl, vec));
    assert vec != [] by { var x := Pick(pus); assert x in vec; }
    assert all[0] in all;
    forall i | 0 <= i < |vec|
      ensures TotalWithout(pl, vec, w) <= TotalWithout(pl, vec, i)
      ensures RowSum(pl, vec, w, |vec|) >= RowSum(pl, vec, i, |vec|)
      ensures RowSum(pl, vec, w, |vec|) == RowSum(pl, vec, i, |vec|) ==> w <= i
    {
      assert all[i] == i && i in all;
      TotalSplits(pl, vec, i);
      TotalSplits(pl, vec, w);
    }
  }
}
