/** The platform that the policies search is the one that the hardware tree describes:
    rm/platformdescription/platformdescription.cpp. */
module TopologyPlatform {

  import opened CpusetVector
  import opened PuSearch
  import T = Topology

  function Larger(a: nat, b: nat): nat {
    if a > b then a else b
  }

  // getNumProcessingUnits and getPUDistance over the PU objects of a tree in which they lie n levels deep
  ghost function PlatformOf(pus: seq<T.Obj>, n: nat): Platform
    requires T.Level(pus, n)
  {
    Platform(|pus|, (p: int, q: int) => T.PuDistanceSpec(pus, n, p, q), Larger(n, T.DISTANCE_TO_NOTHING))
  }

  // For any two OS indices, listed or not
  lemma DistanceIsBounded(pus: seq<T.Obj>, n: nat, p: int, q: int)
    requires T.Level(pus, n)
    ensures 0 <= T.PuDistanceSpec(pus, n, p, q) <= Larger(n, T.DISTANCE_TO_NOTHING)
    ensures T.PuDistanceSpec(pus, n, p, q) == T.PuDistanceSpec(pus, n, q, p)
  {
    if T.Find(pus, p) != null && T.Find(pus, q) != null {
      T.PuDistanceIsUltrametric(pus, n, p, q, q);
    }
  }

  // Such a platform is one on which the searches and their specifications work, as long as its PUs are shorts and
  // the distances between all of them add up to an int
  lemma TreeIsPlatform(pus: seq<T.Obj>, n: nat)
    requires T.Level(pus, n) && 0 < |pus| <= SHORT_MAX
    requires |pus| * (|pus| * Larger(n, T.DISTANCE_TO_NOTHING)) < INT_MAX
    ensures PlatformOf(pus, n).Valid()
    ensures forall p, q :: PlatformOf(pus, n).Distance(p, q) == T.PuDistanceSpec(pus, n, p, q)
  {
    hide T.PuDistanceSpec, Larger;
    var pl := PlatformOf(pus, n);
    forall p, q
      ensures 0 <= pl.Distance(p, q) <= pl.maxDistance && pl.Distance(p, q) == pl.Distance(q, p)
    {
      DistanceIsBounded(pus, n, p, q);
    }
    Multiples(|pus|, pl.maxDistance);
  }

  lemma Multiples(k: nat, d: nat)
    requires k > 0
    ensures d <= k * (k * d)
  {
    assert k * d >= d;
    assert k * (k * d) >= k * d;
  }
}
