/** The distance between two objects of the hardware tree, as in
    rm/platformdescription/platformdescription.cpp: both objects climb their parent chains in
    step until they meet. The tree itself is built by hwloc and never changes afterwards. */
module Topology {

  class Obj {
    const parent: Obj?
    const osIndex: int

    constructor (parent: Obj?, osIndex: int)
      ensures this.parent == parent && this.osIndex == osIndex
    {
      this.parent := parent;
      this.osIndex := osIndex;
    }
  }

  // o's parent chain ends after n objects, o included
  ghost predicate Chain(o: Obj?, n: nat) {
    if o == null then n == 0 else n > 0 && Chain(o.parent, n - 1)
  }

  // The k-th ancestor, null once the chain has ended
  ghost function Up(o: Obj?, k: nat): Obj? {
    if o == null || k == 0 then o else Up(o.parent, k - 1)
  }

  // The number of levels climbed before the two chains meet or one of them ends
  ghost function Distance(a: Obj?, b: Obj?, n: nat): (d: nat)
    requires Chain(a, n)
  {
    if a == b || a == null || b == null then 0 else 1 + Distance(a.parent, b.parent, n - 1)
  }

  const DISTANCE_TO_NOTHING := 10

  method ObjDistance(a: Obj?, b: Obj?, ghost n: nat) returns (distance: int)
    requires Chain(a, n)
    ensures distance == if a == null || b == null then 10 else Distance(a, b, n)
  {
    if a == null || b == null {
      return DISTANCE_TO_NOTHING;
    }
    var o1, o2 := a, b;
    ghost var left := n;
    distance := 0;
    while o1 != o2 && o1 != null && o2 != null
      invariant Chain(o1, left)
      invariant distance + Distance(o1, o2, left) == Distance(a, b, n)
      decreases left
    {
      o1 := o1.parent;
      o2 := o2.parent;
      left := left - 1;
      distance := distance + 1;
    }
  }

  // ---------- the distance is the height of the lowest common ancestor ----------

  // c is an ancestor of o (or o itself), i levels up
  ghost predicate IsAncestor(c: Obj?, o: Obj?, i: nat) {
    Up(o, i) == c
  }

  lemma {:induction false} ChainOfAncestor(o: Obj?, n: nat, i: nat)
    requires Chain(o, n)
    ensures Chain(Up(o, i), if i <= n then n - i else 0)
    decreases i
  {
    if o != null && i > 0 { ChainOfAncestor(o.parent, n - 1, i - 1); }
  }

  lemma {:induction false} ChainLengthIsUnique(o: Obj?, m: nat, n: nat)
    requires Chain(o, m) && Chain(o, n)
    ensures m == n
    decreases m
  {
    if o != null { ChainLengthIsUnique(o.parent, m - 1, n - 1); }
  }

  // The two d-th ancestors are the same object and no two earlier ones are
  lemma {:induction false} DistanceMeets(a: Obj?, b: Obj?, n: nat)
    requires Chain(a, n) && Chain(b, n)
    ensures Distance(a, b, n) <= n
    ensures Up(a, Distance(a, b, n)) == Up(b, Distance(a, b, n))
    ensures forall j: nat :: j < Distance(a, b, n) ==> Up(a, j) != Up(b, j)
  {
    if a != b {
      DistanceMeets(a.parent, b.parent, n - 1);
      forall j: nat | j < Distance(a, b, n) ensures Up(a, j) != Up(b, j) {
        if j > 0 { assert Up(a, j) == Up(a.parent, j - 1) && Up(b, j) == Up(b.parent, j - 1); }
      }
    }
  }

  // Every common ancestor of two objects of equal depth lies the same number of levels above
  // both, at least Distance levels up; the lowest one lies exactly that far
  lemma LowestCommonAncestor(a: Obj, b: Obj, n: nat, c: Obj, i: nat, j: nat)
    requires Chain(a, n) && Chain(b, n)
    requires IsAncestor(c, a, i) && IsAncestor(c, b, j)
    ensures i == j && Distance(a, b, n) <= i
  {
    ChainOfAncestor(a, n, i);
    ChainOfAncestor(b, n, j);
    ChainLengthIsUnique(c, if i <= n then n - i else 0, if j <= n then n - j else 0);
    DistanceMeets(a, b, n);
  }

  // ---------- an ultrametric ----------

  lemma {:induction false} DistanceSymmetric(a: Obj?, b: Obj?, m: nat, n: nat)
    requires Chain(a, m) && Chain(b, n)
    ensures Distance(a, b, m) == Distance(b, a, n)
    decreases m
  {
    if a != b && a != null && b != null { DistanceSymmetric(a.parent, b.parent, m - 1, n - 1); }
  }

  lemma ZeroOnlyWhenEqual(a: Obj, b: Obj, n: nat)
    requires Chain(a, n)
    ensures Distance(a, b, n) == 0 <==> a == b
  {
  }

  lemma {:induction false} Ultrametric(a: Obj?, b: Obj?, c: Obj?, n: nat)
    requires Chain(a, n) && Chain(b, n) && Chain(c, n)
    ensures Distance(a, c, n) <= Distance(a, b, n) || Distance(a, c, n) <= Distance(b, c, n)
  {
    if a != b && b != c && a != c {
      Ultrametric(a.parent, b.parent, c.parent, n - 1);
    }
  }

  // This only justifies the hypothesis of equal depth, which PU objects meet: in any tree, through the root two objects
  // with different parents look closer
  lemma DepthsMustAgree(root: Obj, a: Obj, c: Obj)
    requires Chain(root, 1) && Chain(a, 3) && Chain(c, 3) && a.parent != c.parent
    ensures Distance(a, root, 3) == 1 && Distance(root, c, 1) == 1
    ensures Distance(a, c, 3) >= 2
  {
    assert root.parent == null;
    assert a.parent != null && c.parent != null;
    assert a != root;
    assert c != root;
    assert Distance(a.parent, root.parent, 2) == 0;
    assert Distance(root.parent, c.parent, 0) == 0;
  }

  // ---------- processing units by OS index ----------

  function Find(pus: seq<Obj>, idx: int): (o: Obj?)
    ensures o != null ==> o in pus && o.osIndex == idx
    ensures o == null ==> forall p :: p in pus ==> p.osIndex != idx
  {
    if pus == [] then null
    else if pus[0].osIndex == idx then pus[0]
    else Find(pus[1..], idx)
  }

  method FindObjByOsIndex(pus: seq<Obj>, idx: int) returns (o: Obj?)
    ensures o == Find(pus, idx)
  {
    for k := 0 to |pus|
      invariant Find(pus, idx) == Find(pus[k..], idx)
    {
      if pus[k].osIndex == idx { return pus[k]; }
    }
    o := null;
  }

  // All processing units lie at the same depth of one tree
  ghost predicate Level(pus: seq<Obj>, n: nat) {
    forall o :: o in pus ==> Chain(o, n)
  }

  ghost function PuDistanceSpec(pus: seq<Obj>, n: nat, p: int, q: int): int
    requires Level(pus, n)
  {
    var a, b := Find(pus, p), Find(pus, q);
    if a == null || b == null then DISTANCE_TO_NOTHING else Distance(a, b, n)
  }

  method PuDistance(pus: seq<Obj>, ghost n: nat, p: int, q: int) returns (d: int)
    requires Level(pus, n)
    ensures d == PuDistanceSpec(pus, n, p, q)
    ensures (forall o :: o in pus ==> o.osIndex != p) || (forall o :: o in pus ==> o.osIndex != q) ==> d == 10
  {
    var o1 := FindObjByOsIndex(pus, p);
    var o2 := FindObjByOsIndex(pus, q);
    if o1 == null {
      return DISTANCE_TO_NOTHING;
    }
    d := ObjDistance(o1, o2, n);
  }

  // Between listed units the distance is an ultrametric bounded by the depth of the tree
  lemma PuDistanceIsUltrametric(pus: seq<Obj>, n: nat, p: int, q: int, r: int)
    requires Level(pus, n)
    requires Find(pus, p) != null && Find(pus, q) != null && Find(pus, r) != null
    ensures 0 <= PuDistanceSpec(pus, n, p, q) <= n
    ensures PuDistanceSpec(pus, n, p, q) == PuDistanceSpec(pus, n, q, p)
    ensures PuDistanceSpec(pus, n, p, q) == 0 <==> p == q
    ensures || PuDistanceSpec(pus, n, p, r) <= PuDistanceSpec(pus, n, p, q)
            || PuDistanceSpec(pus, n, p, r) <= PuDistanceSpec(pus, n, q, r)
  {
    var a, b, c := Find(pus, p), Find(pus, q), Find(pus, r);
    DistanceMeets(a, b, n);
    DistanceSymmetric(a, b, n, n);
    Ultrametric(a, b, c, n);
  }
}
