/** The composite SAI of rm/librmcommon/sai.cpp, and what heavier factors do to the containment state. */
module SaiTraces {
  import opened ContainmentState

  // SecurityFactors, and SaiWeights with one weight for each
  datatype Factors = Factors(
    fanout: real, halfOpen: real, forkRate: real, newExec: real,
    cpuBurst: real, egress: real, memGrowth: real, rawSocket: real)

  function Clamp01(v: real): real {
    if v < 0.0 then 0.0 else if v > 1.0 then 1.0 else v
  }

  function Part(weight: real, factor: real): real {
    weight * factor
  }

  function WeightedSum(f: Factors, w: Factors): real {
    Part(w.fanout, f.fanout) + Part(w.halfOpen, f.halfOpen) + Part(w.forkRate, f.forkRate)
    + Part(w.newExec, f.newExec) + Part(w.cpuBurst, f.cpuBurst) + Part(w.egress, f.egress)
    + Part(w.memGrowth, f.memGrowth) + Part(w.rawSocket, f.rawSocket)
  }

  // Over reals the sum is always finite
  function ComputeSai(f: Factors, w: Factors): (sai: real)
    ensures 0.0 <= sai <= 1.0
  {
    Clamp01(WeightedSum(f, w))
  }

  ghost predicate NonNegative(w: Factors) {
    && w.fanout >= 0.0 && w.halfOpen >= 0.0 && w.forkRate >= 0.0 && w.newExec >= 0.0
    && w.cpuBurst >= 0.0 && w.egress >= 0.0 && w.memGrowth >= 0.0 && w.rawSocket >= 0.0
  }

  // Every factor of f is at most that of g
  ghost predicate Lighter(f: Factors, g: Factors) {
    && f.fanout <= g.fanout && f.halfOpen <= g.halfOpen && f.forkRate <= g.forkRate && f.newExec <= g.newExec
    && f.cpuBurst <= g.cpuBurst && f.egress <= g.egress && f.memGrowth <= g.memGrowth && f.rawSocket <= g.rawSocket
  }

  lemma Scaled(w: real, a: real, b: real)
    requires w >= 0.0 && a <= b
    ensures Part(w, a) <= Part(w, b)
  {
    assert w * (b - a) >= 0.0;
  }

  lemma SaiMonotone(f: Factors, g: Factors, w: Factors)
    requires NonNegative(w) && Lighter(f, g)
    ensures ComputeSai(f, w) <= ComputeSai(g, w)
  {
    hide Part;
    Scaled(w.fanout, f.fanout, g.fanout);
    Scaled(w.halfOpen, f.halfOpen, g.halfOpen);
    Scaled(w.forkRate, f.forkRate, g.forkRate);
    Scaled(w.newExec, f.newExec, g.newExec);
    Scaled(w.cpuBurst, f.cpuBurst, g.cpuBurst);
    Scaled(w.egress, f.egress, g.egress);
    Scaled(w.memGrowth, f.memGrowth, g.memGrowth);
    Scaled(w.rawSocket, f.rawSocket, g.rawSocket);
  }

  function Samples(f: seq<Factors>, w: Factors, th: Thresholds, off: real): (r: seq<TrackerEvent>)
    ensures |r| == |f| && forall i :: 0 <= i < |f| ==> r[i] == Sample(ComputeSai(f[i], w), th, off)
  {
    seq(|f|, i requires 0 <= i < |f| => Sample(ComputeSai(f[i], w), th, off))
  }

  // A smaller SAI at every moment means a state that is at most as severe at every moment
  lemma {:induction false} SmallerSaiIsContainedLess(
    f: seq<Factors>, g: seq<Factors>, w: Factors, th: Thresholds, off: real, k: nat)
    requires |f| == |g| && k <= |f|
    requires forall i :: 0 <= i < |f| ==> ComputeSai(f[i], w) <= ComputeSai(g[i], w)
    ensures Severity(f, w, th, off, k) <= Severity(g, w, th, off, k)
  {
    var a, b := Samples(f, w, th, off), Samples(g, w, th, off);
    assert forall i :: 0 <= i < |a| ==> Milder(a[i], b[i]);
    TwoTraceMonotone(FRESH, FRESH, a, b, k);
  }

  // How severely an app with these factors is contained after k samples
  function Severity(f: seq<Factors>, w: Factors, th: Thresholds, off: real, k: nat): nat
    requires k <= |f|
  {
    Run(FRESH, Samples(f, w, th, off)[..k]).state.Rank()
  }

  // With weights of at least 0, an app whose factors are never above those of another is, at every moment, contained
  // at most as severely
  lemma {:induction false} LighterFactorsAreContainedLess(
    f: seq<Factors>, g: seq<Factors>, w: Factors, th: Thresholds, off: real, k: nat)
    requires NonNegative(w) && |f| == |g| && k <= |f|
    requires forall i :: 0 <= i < |f| ==> Lighter(f[i], g[i])
    ensures Run(FRESH, Samples(f, w, th, off)[..k]).state.Rank() <= Run(FRESH, Samples(g, w, th, off)[..k]).state.Rank()
  {
    forall i | 0 <= i < |f| ensures ComputeSai(f[i], w) <= ComputeSai(g[i], w) {
      SaiMonotone(f[i], g[i], w);
    }
    SmallerSaiIsContainedLess(f, g, w, th, off, k);
  }

  // ---------- which weights keep the order ----------

  // Factor number i, in the order of the source
  function At(f: Factors, i: nat): real
    requires i < 8
  {
    match i
    case 0 => f.fanout
    case 1 => f.halfOpen
    case 2 => f.forkRate
    case 3 => f.newExec
    case 4 => f.cpuBurst
    case 5 => f.egress
    case 6 => f.memGrowth
    case _ => f.rawSocket
  }

  // The sum of the first n factors, each times its weight
  function Dot(f: Factors, w: Factors, n: nat): real
    requires n <= 8
  {
    if n == 0 then 0.0 else Dot(f, w, n - 1) + At(w, n - 1) * At(f, n - 1)
  }

  // The SAI is the sum over all eight factors, cut to [0, 1]
  lemma SaiIsDot(f: Factors, w: Factors)
    ensures var sum, sai := Dot(f, w, 8), ComputeSai(f, w);
            sai == if sum < 0.0 then 0.0 else if sum > 1.0 then 1.0 else sum
  {
    assert Dot(f, w, 0) == 0.0;
    assert Dot(f, w, 1) == Part(w.fanout, f.fanout);
    assert Dot(f, w, 2) == Dot(f, w, 1) + Part(w.halfOpen, f.halfOpen);
    assert Dot(f, w, 3) == Dot(f, w, 2) + Part(w.forkRate, f.forkRate);
    assert Dot(f, w, 4) == Dot(f, w, 3) + Part(w.newExec, f.newExec);
    assert Dot(f, w, 5) == Dot(f, w, 4) + Part(w.cpuBurst, f.cpuBurst);
    assert Dot(f, w, 6) == Dot(f, w, 5) + Part(w.egress, f.egress);
    assert Dot(f, w, 7) == Dot(f, w, 6) + Part(w.memGrowth, f.memGrowth);
    assert Dot(f, w, 8) == Dot(f, w, 7) + Part(w.rawSocket, f.rawSocket);
  }


  function With(f: Factors, i: nat, x: real): Factors
    requires i < 8
  {
    match i
    case 0 => f.(fanout := x)
    case 1 => f.(halfOpen := x)
    case 2 => f.(forkRate := x)
    case 3 => f.(newExec := x)
    case 4 => f.(cpuBurst := x)
    case 5 => f.(egress := x)
    case 6 => f.(memGrowth := x)
    case _ => f.(rawSocket := x)
  }

  const NONE := Factors(0.0, 0.0, 0.0, 0.0, 0.0, 0.0, 0.0, 0.0)

  lemma NoFactors(w: Factors)
    ensures WeightedSum(NONE, w) == 0.0
  {
  }

  lemma NoPart(weight: real)
    ensures Part(weight, 0.0) == 0.0
  {
  }

  lemma WholePart(weight: real)
    ensures Part(weight, 1.0) == weight
  {
  }

  // Raising factor i from 0 adds its part
  lemma SumWith(f: Factors, w: Factors, i: nat, x: real)
    requires i < 8 && At(f, i) == 0.0
    ensures WeightedSum(With(f, i, x), w) == WeightedSum(f, w) + Part(At(w, i), x)
  {
    NoPart(At(w, i));
    hide Part;
  }

  // Factors as they are documented
  ghost predicate Unit(f: Factors) {
    forall i :: 0 <= i < 8 ==> 0.0 <= At(f, i) <= 1.0
  }

  ghost predicate NonPositive(w: Factors) {
    && w.fanout <= 0.0 && w.halfOpen <= 0.0 && w.forkRate <= 0.0 && w.newExec <= 0.0
    && w.cpuBurst <= 0.0 && w.egress <= 0.0 && w.memGrowth <= 0.0 && w.rawSocket <= 0.0
  }

  // Heavier factors never give a smaller SAI
  ghost predicate KeepsOrder(w: Factors) {
    forall f, g :: Lighter(f, g) ==> ComputeSai(f, w) <= ComputeSai(g, w)
  }

  ghost predicate KeepsUnitOrder(w: Factors) {
    forall f, g :: Unit(f) && Unit(g) && Lighter(f, g) ==> ComputeSai(f, w) <= ComputeSai(g, w)
  }

  lemma SomeWeight(w: Factors)
    ensures !NonNegative(w) ==> exists i :: 0 <= i < 8 && At(w, i) < 0.0
    ensures !NonPositive(w) ==> exists i :: 0 <= i < 8 && At(w, i) > 0.0
  {
    assert At(w, 0) == w.fanout && At(w, 1) == w.halfOpen && At(w, 2) == w.forkRate && At(w, 3) == w.newExec;
    assert At(w, 4) == w.cpuBurst && At(w, 5) == w.egress && At(w, 6) == w.memGrowth && At(w, 7) == w.rawSocket;
  }

  lemma NegativeBreaksOrder(w: Factors, i: nat) returns (f: Factors)
    requires i < 8 && At(w, i) < 0.0
    ensures Lighter(f, NONE) && ComputeSai(f, w) == 1.0 && ComputeSai(NONE, w) == 0.0
  {
    var x := 1.0 / At(w, i);
    f := With(NONE, i, x);
    NoFactors(w);
    SumWith(NONE, w, i, x);
    assert Part(At(w, i), x) == 1.0;
  }

  // Over any real factors the order is kept exactly by the weights that are not negative
  lemma OrderKept(w: Factors)
    ensures KeepsOrder(w) <==> NonNegative(w)
  {
    hide Part, WeightedSum, Clamp01;
    if NonNegative(w) {
      forall f, g | Lighter(f, g) ensures ComputeSai(f, w) <= ComputeSai(g, w) {
        SaiMonotone(f, g, w);
      }
    } else {
      SomeWeight(w);
      var i: nat :| i < 8 && At(w, i) < 0.0;
      var f := NegativeBreaksOrder(w, i);
    }
  }

  lemma NonPositiveSeesNothing(f: Factors, w: Factors)
    requires NonPositive(w) && Unit(f)
    ensures ComputeSai(f, w) == 0.0
  {
    assert At(f, 0) == f.fanout && At(f, 1) == f.halfOpen && At(f, 2) == f.forkRate && At(f, 3) == f.newExec;
    assert At(f, 4) == f.cpuBurst && At(f, 5) == f.egress && At(f, 6) == f.memGrowth && At(f, 7) == f.rawSocket;
    PartNonPositive(w.fanout, f.fanout);
    PartNonPositive(w.halfOpen, f.halfOpen);
    PartNonPositive(w.forkRate, f.forkRate);
    PartNonPositive(w.newExec, f.newExec);
    PartNonPositive(w.cpuBurst, f.cpuBurst);
    PartNonPositive(w.egress, f.egress);
    PartNonPositive(w.memGrowth, f.memGrowth);
    PartNonPositive(w.rawSocket, f.rawSocket);
    hide Part;
  }

  lemma PartNonPositive(weight: real, factor: real)
    requires weight <= 0.0 <= factor
    ensures Part(weight, factor) <= 0.0
  {
    assert (0.0 - weight) * factor >= 0.0;
  }

  // Factor j at x in ]0,1] is seen; raising factor i as well takes some of it away again
  lemma MixedBreaksOrder(w: Factors, i: nat, j: nat) returns (f: Factors, g: Factors)
    requires i < 8 && j < 8 && At(w, i) < 0.0 < At(w, j)
    ensures Unit(f) && Unit(g) && Lighter(f, g) && ComputeSai(f, w) > ComputeSai(g, w)
  {
    hide WeightedSum;
    var x := if At(w, j) > 1.0 then 1.0 / At(w, j) else 1.0;
    f := With(NONE, j, x);
    g := With(f, i, 1.0);
    SmallEnough(At(w, j), x);
    NoFactors(w);
    SumWith(NONE, w, j, x);
    SumWith(f, w, i, 1.0);
    WholePart(At(w, i));
    hide Part;
  }

  lemma SmallEnough(weight: real, x: real)
    requires weight > 0.0 && x == if weight > 1.0 then 1.0 / weight else 1.0
    ensures 0.0 < x <= 1.0 && 0.0 < Part(weight, x) <= 1.0
  {
    if weight > 1.0 {
      assert weight * x == 1.0;
      assert x > 0.0 && x <= 1.0;
    }
  }

  // Over factors in [0,1] the order is kept exactly if no weight is negative or no weight is positive; in the
  // second case every SAI is 0
  lemma UnitOrderKept(w: Factors)
    ensures KeepsUnitOrder(w) <==> NonNegative(w) || NonPositive(w)
  {
    hide Part, WeightedSum, Clamp01, Unit;
    if NonNegative(w) {
      forall f, g | Unit(f) && Unit(g) && Lighter(f, g) ensures ComputeSai(f, w) <= ComputeSai(g, w) {
        SaiMonotone(f, g, w);
      }
    } else if NonPositive(w) {
      forall f | Unit(f) ensures ComputeSai(f, w) == 0.0 {
        NonPositiveSeesNothing(f, w);
      }
    } else {
      SomeWeight(w);
      var i: nat :| i < 8 && At(w, i) < 0.0;
      var j: nat :| j < 8 && At(w, j) > 0.0;
      var f, g := MixedBreaksOrder(w, i, j);
    }
  }

  // ---------- and the containment ----------

  ghost predicate LighterTrace(f: seq<Factors>, g: seq<Factors>) {
    |f| == |g| && forall i :: 0 <= i < |f| ==> Unit(f[i]) && Unit(g[i]) && Lighter(f[i], g[i])
  }

  // Whatever the thresholds and the tolerance, lighter factors are contained at most as severely, always
  ghost predicate LighterIsGentler(w: Factors) {
    forall f, g, th: Thresholds, off: real, k: nat :: LighterTrace(f, g) && k <= |f| ==>
      Severity(f, w, th, off, k) <= Severity(g, w, th, off, k)
  }

  // One sample of each is enough to tell two values of the SAI apart
  lemma OneSampleTells(f: Factors, g: Factors, w: Factors)
    requires ComputeSai(f, w) > ComputeSai(g, w)
    ensures var th := Thresholds(ComputeSai(f, w), 2.0, 2.0, 1);
            Severity([f], w, th, 0.0, 1) == 1 && Severity([g], w, th, 0.0, 1) == 0
  {
    hide ComputeSai;
    var th := Thresholds(ComputeSai(f, w), 2.0, 2.0, 1);
    var a, b := Samples([f], w, th, 0.0), Samples([g], w, th, 0.0);
    assert a[..1] == a && b[..1] == b && a[..0] == [] && b[..0] == [];
    assert Run(FRESH, a[..0]) == FRESH && Run(FRESH, b[..0]) == FRESH;
  }

  // For factors in [0,1] that is so exactly if no weight is negative or no weight is positive
  lemma GentlerExactly(w: Factors)
    ensures LighterIsGentler(w) <==> NonNegative(w) || NonPositive(w)
  {
    hide ComputeSai, Unit, Severity, NonNegative, NonPositive, Lighter;
    UnitOrderKept(w);
    if KeepsUnitOrder(w) {
      forall f, g, th: Thresholds, off: real, k: nat | LighterTrace(f, g) && k <= |f|
        ensures Severity(f, w, th, off, k) <= Severity(g, w, th, off, k)
      {
        SmallerSaiIsContainedLess(f, g, w, th, off, k);
      }
    } else {
      var f, g :| Unit(f) && Unit(g) && Lighter(f, g) && ComputeSai(f, w) > ComputeSai(g, w);
      OneSampleTells(f, g, w);
      assert LighterTrace([f], [g]);
      assert Severity([f], w, Thresholds(ComputeSai(f, w), 2.0, 2.0, 1), 0.0, 1) >
             Severity([g], w, Thresholds(ComputeSai(f, w), 2.0, 2.0, 1), 0.0, 1);
    }
  }

  // A weight of at least 1 and a negative one of at least that size: factor j alone gives the largest SAI, and with
  // factor i as well, which is more activity, the SAI is 0
  lemma NegativeWeightsInvert(w: Factors, i: nat, j: nat)
    requires i < 8 && j < 8 && At(w, j) >= 1.0 && At(w, i) <= -At(w, j)
    ensures var f := With(NONE, j, 1.0);
            var g := With(f, i, 1.0);
            Lighter(f, g) && ComputeSai(f, w) == 1.0 && ComputeSai(g, w) == 0.0
  {
    hide Part, WeightedSum;
    NoFactors(w);
    SumWith(NONE, w, j, 1.0);
    SumWith(With(NONE, j, 1.0), w, i, 1.0);
    WholePart(At(w, j));
    WholePart(At(w, i));
  }
}
