/** Sets of processing units (PUs) kept as a vector of closed ranges of PU numbers, as in
    rm/librmcommon/cpusetvector.cpp. `std::set<short>` is a Dafny set walked in ascending order. */
module CpusetVector {

  datatype Range = Range(first: int, last: int)

  type Cpuset = seq<Range>

  const SHORT_MAX := 32767

  // The value a C++ short holds after it is assigned n
  function AsShort(n: int): int {
    if -32768 <= n <= SHORT_MAX then n else (n + 32768) % 65536 - 32768
  }

  // ---------- the set a vector stands for ----------

  function Span(r: Range): (s: set<int>)
    ensures forall i :: i in s <==> r.first <= i <= r.last
    decreases r.last - r.first
  {
    if r.last < r.first then {} else Span(Range(r.first, r.last - 1)) + {r.last}
  }

  lemma {:induction false} SpanSize(r: Range)
    requires r.first <= r.last
    ensures |Span(r)| == r.last - r.first + 1
    decreases r.last - r.first
  {
    if r.first < r.last { SpanSize(Range(r.first, r.last - 1)); }
  }

  function Members(vec: Cpuset): set<int> {
    if vec == [] then {} else Members(vec[..|vec| - 1]) + Span(vec[|vec| - 1])
  }

  lemma {:induction false} MembersAreInRanges(vec: Cpuset, i: int)
    ensures i in Members(vec) <==> exists k :: 0 <= k < |vec| && vec[k].first <= i <= vec[k].last
  {
    if vec != [] {
      var n := |vec| - 1;
      MembersAreInRanges(vec[..n], i);
      if i in Members(vec[..n]) {
        var k :| 0 <= k < n && vec[..n][k].first <= i <= vec[..n][k].last;
        assert vec[k].first <= i <= vec[k].last;
      }
      if k :| 0 <= k < |vec| && vec[k].first <= i <= vec[k].last && k < n {
        assert vec[..n][k].first <= i <= vec[..n][k].last;
      }
    }
  }

  // Sorted, disjoint and non-adjacent non-empty ranges
  ghost predicate Canonical(vec: Cpuset) {
    && (forall k :: 0 <= k < |vec| ==> vec[k].first <= vec[k].last)
    && (forall j, k :: 0 <= j < k < |vec| ==> vec[j].last + 1 < vec[k].first)
  }

  lemma CanonicalPrefix(vec: Cpuset, n: nat)
    requires Canonical(vec) && n <= |vec|
    ensures Canonical(vec[..n])
  {
  }

  // Every member of a canonical vector is below its last bound
  lemma MembersBounded(vec: Cpuset, i: int)
    requires Canonical(vec) && i in Members(vec)
    ensures vec != [] && vec[0].first <= i <= vec[|vec| - 1].last
  {
    MembersAreInRanges(vec, i);
    var k :| 0 <= k < |vec| && vec[k].first <= i <= vec[k].last;
  }

  // ---------- the ascending walk over a set ----------

  ghost predicate StrictlyAscending(r: seq<int>) {
    forall j, k :: 0 <= j < k < |r| ==> r[j] < r[k]
  }

  lemma Pick<T>(s: set<T>) returns (e: T)
    requires s != {}
    ensures e in s
  {
    e :| e in s;
  }

  lemma {:induction false} LeastExists(s: set<int>)
    requires s != {}
    ensures exists m :: m in s && forall x :: x in s ==> m <= x
  {
    var e := Pick(s);
    var rest := s - {e};
    assert forall x :: x in s <==> x == e || x in rest;
    if rest != {} {
      LeastExists(rest);
      var m :| m in rest && forall x :: x in rest ==> m <= x;
      if e < m {
        assert forall x :: x in s ==> e <= x;
      } else {
        assert forall x :: x in s ==> m <= x;
      }
    } else {
      assert forall x :: x in s ==> e <= x;
    }
  }

  lemma ConsLeast(s: set<int>, m: int, rest: seq<int>)
    requires m in s && forall x :: x in s ==> m <= x
    requires StrictlyAscending(rest)
    requires forall x :: x in rest <==> x in s - {m}
    ensures StrictlyAscending([m] + rest)
    ensures forall x :: x in [m] + rest <==> x in s
    ensures forall k :: 0 <= k < |[m] + rest| ==> ([m] + rest)[k] in s
  {
    var r := [m] + rest;
    forall k | 0 <= k < |r| ensures r[k] in s && (k > 0 ==> m < r[k]) {
      if k > 0 { assert r[k] == rest[k - 1] && rest[k - 1] in rest; }
    }
  }

  function Ascending(s: set<int>): (r: seq<int>)
    ensures StrictlyAscending(r)
    ensures forall x :: x in r <==> x in s
    ensures forall k :: 0 <= k < |r| ==> r[k] in s
  {
    if s == {} then [] else
      LeastExists(s);
      var m :| m in s && forall x :: x in s ==> m <= x;
      var rest := Ascending(s - {m});
      ConsLeast(s, m, rest);
      [m] + rest
  }

  lemma {:induction false} AscendingSize(s: set<int>)
    ensures |Ascending(s)| == |s|
  {
    if s != {} {
      LeastExists(s);
      var m :| m in s && (forall x :: x in s ==> m <= x) && Ascending(s) == [m] + Ascending(s - {m});
      AscendingSize(s - {m});
    }
  }

  // Taking the largest element off an ascending list takes it out of its elements
  lemma DropLast(a: seq<int>, x: int)
    requires StrictlyAscending(a) && a != []
    ensures var m := |a| - 1;
            && StrictlyAscending(a[..m])
            && (x in a[..m] <==> x in a && x != a[m])
            && (x in a ==> x <= a[m])
  {
    var m := |a| - 1;
    assert a == a[..m] + [a[m]];
  }

  // A set has only one ascending list
  lemma {:induction false} AscendingUnique(a: seq<int>, b: seq<int>)
    requires StrictlyAscending(a) && StrictlyAscending(b)
    requires forall x :: x in a <==> x in b
    ensures a == b
  {
    if a == [] {
      assert forall k :: 0 <= k < |b| ==> b[k] in b;
    } else {
      assert a[0] in a;
      var m, n := |a| - 1, |b| - 1;
      assert a[m] in a && b[n] in b;
      DropLast(a, b[n]);
      DropLast(b, a[m]);
      forall x ensures x in a[..m] <==> x in b[..n] {
        DropLast(a, x);
        DropLast(b, x);
      }
      AscendingUnique(a[..m], b[..n]);
      assert a == a[..m] + [a[m]] && b == b[..n] + [b[n]];
    }
  }

  // ---------- conversions ----------

  method ToSet(vec: Cpuset) returns (res: set<int>)
    ensures res == Members(vec)
  {
    res := {};
    for c := 0 to |vec|
      invariant res == Members(vec[..c])
    {
      var before := res;
      var i := vec[c].first;
      while i <= vec[c].last
        invariant i >= vec[c].first
        invariant forall x :: x in res <==> x in before || (vec[c].first <= x < i && x <= vec[c].last)
      {
        res := res + {i};
        i := i + 1;
      }
      assert vec[..c + 1][..c] == vec[..c];
      assert res == before + Span(vec[c]);
    }
    assert vec[..|vec|] == vec;
  }

  // The ranges built from an ascending list of PUs
  function Ranges(pus: seq<int>): (res: Cpuset)
    ensures pus == [] <==> res == []
    ensures pus != [] ==> res[|res| - 1].last == pus[|pus| - 1]
  {
    if pus == [] then [] else
      var n := |pus| - 1;
      var res := Ranges(pus[..n]);
      if n > 0 && pus[n] == pus[n - 1] + 1
      then res[|res| - 1 := res[|res| - 1].(last := pus[n])]
      else res + [Range(pus[n], pus[n])]
  }

  lemma PushMembers(vec: Cpuset, r: Range)
    ensures Members(vec + [r]) == Members(vec) + Span(r)
  {
    assert (vec + [r])[..|vec|] == vec;
  }

  lemma GrowMembers(vec: Cpuset, pu: int)
    requires vec != [] && vec[|vec| - 1].first <= vec[|vec| - 1].last && pu == vec[|vec| - 1].last + 1
    ensures Members(vec[|vec| - 1 := vec[|vec| - 1].(last := pu)]) == Members(vec) + {pu}
  {
    var n := |vec| - 1;
    var res := vec[n := vec[n].(last := pu)];
    assert res[..n] == vec[..n];
    assert Span(res[n]) == Span(vec[n]) + {pu};
  }

  lemma SinglePU(pu: int)
    ensures Canonical([Range(pu, pu)]) && Members([Range(pu, pu)]) == {pu}
  {
    PushMembers([], Range(pu, pu));
    assert [] + [Range(pu, pu)] == [Range(pu, pu)];
  }

  // Whatever the list, the ranges cover its numbers and no others
  lemma {:induction false} RangesHoldTheList(pus: seq<int>)
    ensures forall x :: x in Members(Ranges(pus)) <==> x in pus
    ensures pus != [] ==> var r := Ranges(pus); r[|r| - 1].first <= r[|r| - 1].last
  {
    if pus != [] {
      var n := |pus| - 1;
      RangesHoldTheList(pus[..n]);
      assert pus == pus[..n] + [pus[n]];
      if n > 0 && pus[n] == pus[n - 1] + 1 {
        GrowMembers(Ranges(pus[..n]), pus[n]);
      } else {
        PushMembers(Ranges(pus[..n]), Range(pus[n], pus[n]));
      }
    }
  }

  // Without its last number a canonical result is canonical
  lemma RangesShrink(before: Cpuset, res: Cpuset, pu: int)
    requires before != [] && Canonical(res) && before[|before| - 1].first <= before[|before| - 1].last
    requires || res == before + [Range(pu, pu)]
             || (before[|before| - 1].last < pu && res == before[|before| - 1 := before[|before| - 1].(last := pu)])
    ensures Canonical(before)
  {
    assert forall k :: 0 <= k < |before| ==> before[k].first == res[k].first && before[k].last <= res[k].last;
  }

  lemma AscendsAtEnd(pus: seq<int>)
    requires |pus| > 1 && StrictlyAscending(pus[..|pus| - 1]) && pus[|pus| - 2] < pus[|pus| - 1]
    ensures StrictlyAscending(pus)
  {
    var n := |pus| - 1;
    forall k | 0 <= k < n ensures pus[k] <= pus[n - 1] {
      assert pus[..n][k] == pus[k] && pus[..n][n - 1] == pus[n - 1];
    }
    forall j, k | 0 <= j < k < n ensures pus[j] < pus[k] {
      assert pus[..n][j] < pus[..n][k];
    }
  }

  lemma {:induction false} AscendingGivesCanonical(pus: seq<int>)
    requires StrictlyAscending(pus)
    ensures Canonical(Ranges(pus))
  {
    if pus != [] { AscendingGivesCanonical(pus[..|pus| - 1]); }
  }

  lemma {:induction false} OnlyAscendingGivesCanonical(pus: seq<int>)
    requires Canonical(Ranges(pus))
    ensures StrictlyAscending(pus)
  {
    if |pus| > 1 {
      var n := |pus| - 1;
      var before, res := Ranges(pus[..n]), Ranges(pus);
      RangesHoldTheList(pus[..n]);
      assert before[|before| - 1].last == pus[n - 1];
      RangesShrink(before, res, pus[n]);
      OnlyAscendingGivesCanonical(pus[..n]);
      LastIsAbove(before, res, pus[n - 1], pus[n]);
      AscendsAtEnd(pus);
    }
  }

  lemma LastIsAbove(before: Cpuset, res: Cpuset, last: int, pu: int)
    requires before != [] && before[|before| - 1].last == last && Canonical(res)
    requires if pu == last + 1 then res == before[|before| - 1 := before[|before| - 1].(last := pu)]
             else res == before + [Range(pu, pu)]
    ensures last < pu
  {
    if pu != last + 1 {
      assert res[|before| - 1] == before[|before| - 1] && res[|before|] == Range(pu, pu);
    }
  }

  // The result is sorted, disjoint and non-adjacent exactly when the list ascends without repetitions
  lemma RangesAreCanonical(pus: seq<int>)
    ensures Canonical(Ranges(pus)) <==> StrictlyAscending(pus)
  {
    if StrictlyAscending(pus) { AscendingGivesCanonical(pus); }
    if Canonical(Ranges(pus)) { OnlyAscendingGivesCanonical(pus); }
  }

  // The ranges of a set are canonical and stand for the set
  lemma RangesOfSet(puSet: set<int>)
    ensures Canonical(Ranges(Ascending(puSet))) && Members(Ranges(Ascending(puSet))) == puSet
  {
    hide Canonical, Ranges, Ascending, Members;
    var pus := Ascending(puSet);
    RangesAreCanonical(pus);
    RangesHoldTheList(pus);
    forall x ensures x in Members(Ranges(pus)) <==> x in puSet {
      assert x in pus <==> x in puSet;
    }
  }

  // The only set the source cannot convert is one whose least element is -9: it follows the
  // sentinel -10 and the code then indexes the empty result.
  method ToCpusetVector(puSet: set<int>) returns (res: Cpuset)
    requires -9 in puSet ==> exists q :: q in puSet && q < -9
    ensures Canonical(res) && Members(res) == puSet
  {
    hide Members, Ranges, Canonical;
    var pus := Ascending(puSet);
    forall q | q in puSet ensures pus[0] <= q { assert q in pus; }
    res := ToCpusetVectorInOrder(pus);
    RangesOfSet(puSet);
  }

  method ToCpusetVectorInOrder(pus: seq<int>) returns (res: Cpuset)
    requires pus != [] ==> pus[0] != -9
    ensures res == Ranges(pus)
  {
    var lastPu := -10;
    res := [];
    for n := 0 to |pus|
      invariant res == Ranges(pus[..n])
      invariant lastPu == if n == 0 then -10 else pus[n - 1]
    {
      var pu := pus[n];
      assert pus[..n + 1][..n] == pus[..n];
      if pu == lastPu + 1 {
        res := res[|res| - 1 := res[|res| - 1].(last := pu)];
      } else {
        res := res + [Range(pu, pu)];
      }
      lastPu := pu;
    }
    assert pus[..|pus|] == pus;
  }

  // ---------- vectors in any order, with repetitions ----------

  ghost predicate Ordered(v: seq<int>) {
    forall j, k :: 0 <= j < k < |v| ==> v[j] <= v[k]
  }

  function InsertInOrder(v: seq<int>, x: int): seq<int> {
    if v != [] && v[|v| - 1] > x then InsertInOrder(v[..|v| - 1], x) + [v[|v| - 1]] else v + [x]
  }

  // std::sort
  function Sorted(v: seq<int>): seq<int> {
    if v == [] then [] else InsertInOrder(Sorted(v[..|v| - 1]), v[|v| - 1])
  }

  lemma {:induction false} InsertKeepsElements(v: seq<int>, x: int)
    ensures multiset(InsertInOrder(v, x)) == multiset(v) + multiset{x}
    ensures forall y :: y in InsertInOrder(v, x) <==> y in v || y == x
  {
    if v != [] {
      var n := |v| - 1;
      assert v == v[..n] + [v[n]];
      if v[n] > x { InsertKeepsElements(v[..n], x); }
    }
  }

  lemma {:induction false} InsertKeepsOrder(v: seq<int>, x: int)
    requires Ordered(v)
    ensures Ordered(InsertInOrder(v, x))
  {
    if v != [] {
      var n := |v| - 1;
      if v[n] > x {
        var r := InsertInOrder(v[..n], x);
        InsertKeepsOrder(v[..n], x);
        InsertKeepsElements(v[..n], x);
        forall k | 0 <= k < |r| ensures r[k] <= v[n] {
          assert r[k] in r;
        }
      } else {
        assert forall k :: 0 <= k < |v| ==> v[k] <= v[n];
      }
    }
  }

  lemma {:induction false} SortedIs(v: seq<int>)
    ensures Ordered(Sorted(v)) && multiset(Sorted(v)) == multiset(v)
  {
    if v != [] {
      var n := |v| - 1;
      SortedIs(v[..n]);
      InsertKeepsOrder(Sorted(v[..n]), v[n]);
      InsertKeepsElements(Sorted(v[..n]), v[n]);
      assert v == v[..n] + [v[n]];
    }
  }

  ghost predicate NoRepeats(v: seq<int>) {
    forall j, k :: 0 <= j < k < |v| ==> v[j] != v[k]
  }

  lemma {:induction false} RepeatsAreCounted(v: seq<int>)
    ensures NoRepeats(v) <==> forall x :: multiset(v)[x] <= 1
  {
    if v != [] {
      var n := |v| - 1;
      RepeatsAreCounted(v[..n]);
      assert v == v[..n] + [v[n]];
      assert forall k :: 0 <= k < n ==> v[..n][k] == v[k];
      assert NoRepeats(v) <==> NoRepeats(v[..n]) && v[n] !in v[..n];
      assert multiset(v) == multiset(v[..n]) + multiset{v[n]};
      assert v[n] in v[..n] <==> multiset(v[..n])[v[n]] >= 1;
      assert multiset(v)[v[n]] == multiset(v[..n])[v[n]] + 1;
      assert forall x :: multiset(v[..n])[x] <= multiset(v)[x];
    }
  }

  // toCpusetVector of a vector: the members are its elements; the result is canonical exactly if none is repeated,
  // since a repeated PU starts a second range
  method ToCpusetVectorOfVector(puVec: seq<int>) returns (res: Cpuset)
    requires -9 in puVec ==> exists q :: q in puVec && q < -9
    ensures forall x :: x in Members(res) <==> x in puVec
    ensures Canonical(res) <==> NoRepeats(puVec)
  {
    var pus := Sorted(puVec);
    SortedIs(puVec);
    SameElements(puVec, pus);
    assert pus != [] ==> forall q :: q in pus ==> pus[0] <= q;
    res := ToCpusetVectorInOrder(pus);
    RangesHoldTheList(pus);
    RangesAreCanonical(pus);
    RepeatsAreCounted(puVec);
    RepeatsAreCounted(pus);
    OrderedWithoutRepeats(pus);
  }

  lemma SameElements(a: seq<int>, b: seq<int>)
    requires multiset(a) == multiset(b)
    ensures forall x :: x in a <==> x in b
  {
    assert forall x :: x in a <==> x in multiset(a);
    assert forall x :: x in b <==> x in multiset(b);
  }

  lemma OrderedWithoutRepeats(v: seq<int>)
    requires Ordered(v)
    ensures NoRepeats(v) <==> StrictlyAscending(v)
  {
  }

  // The linear vector of PUs: "1-3,5" becomes 1,2,3,5
  function Flatten(vec: Cpuset): seq<int> {
    if vec == [] then []
    else var r := vec[|vec| - 1];
         Flatten(vec[..|vec| - 1]) + Stretch(r)
  }

  function Stretch(r: Range): (s: seq<int>)
    ensures |s| == if r.first <= r.last then r.last - r.first + 1 else 0
    ensures forall i :: 0 <= i < |s| ==> s[i] == r.first + i
    ensures forall x :: x in s <==> x in Span(r)
  {
    var s := if r.first <= r.last then seq(r.last - r.first + 1, i => r.first + i) else [];
    assert forall x :: x in Span(r) ==> s[x - r.first] == x;
    s
  }

  method ToVector(vec: Cpuset) returns (res: seq<int>)
    ensures res == Flatten(vec)
  {
    res := [];
    for c := 0 to |vec|
      invariant res == Flatten(vec[..c])
    {
      var r := vec[c];
      ghost var before := res;
      var i := r.first;
      while i <= r.last
        invariant r.first <= i && (r.first <= r.last ==> i <= r.last + 1) && (r.last < r.first ==> i == r.first)
        invariant res == before + Stretch(Range(r.first, i - 1))
      {
        res := res + [i];
        i := i + 1;
      }
      assert vec[..c + 1][..c] == vec[..c];
    }
    assert vec[..|vec|] == vec;
  }

  // All members before the last range lie below it
  lemma {:induction false} PrefixBelow(vec: Cpuset)
    requires Canonical(vec) && vec != []
    ensures var n := |vec| - 1;
            && (forall x :: x in Members(vec[..n]) ==> x < vec[n].first)
            && |Members(vec)| == |Members(vec[..n])| + vec[n].last - vec[n].first + 1
  {
    var n := |vec| - 1;
    CanonicalPrefix(vec, n);
    forall x | x in Members(vec[..n]) ensures x < vec[n].first {
      MembersBounded(vec[..n], x);
    }
    assert Members(vec[..n]) * Span(vec[n]) == {};
    SpanSize(vec[n]);
  }

  lemma AscendingConcat(a: seq<int>, b: seq<int>, sa: set<int>, sb: set<int>, mid: int)
    requires StrictlyAscending(a) && StrictlyAscending(b)
    requires forall x :: x in a <==> x in sa
    requires forall x :: x in b <==> x in sb
    requires (forall x :: x in sa ==> x < mid) && (forall x :: x in sb ==> mid <= x)
    ensures StrictlyAscending(a + b)
    ensures forall x :: x in a + b <==> x in sa + sb
  {
    forall j, k | 0 <= j < k < |a + b| ensures (a + b)[j] < (a + b)[k] {
      if j < |a| <= k { assert a[j] in a && b[k - |a|] in b; }
    }
  }

  // A canonical vector flattens to its members, each once, in ascending order
  lemma {:induction false} FlattenIsAscending(vec: Cpuset)
    requires Canonical(vec)
    ensures StrictlyAscending(Flatten(vec))
    ensures forall x :: x in Flatten(vec) <==> x in Members(vec)
    ensures |Flatten(vec)| == |Members(vec)|
  {
    if vec != [] {
      var n := |vec| - 1;
      CanonicalPrefix(vec, n);
      FlattenIsAscending(vec[..n]);
      var r := vec[n];
      PrefixBelow(vec);
      AscendingConcat(Flatten(vec[..n]), Stretch(r), Members(vec[..n]), Span(r), r.first);
    }
  }

  // ---------- counting ----------

  // The accumulator is handed to the summing function as a short at every range
  function CountFold(vec: Cpuset): int {
    if vec == [] then 0
    else var r := vec[|vec| - 1]; AsShort(CountFold(vec[..|vec| - 1])) + (r.last - r.first + 1)
  }

  method CountPUs(vec: Cpuset) returns (n: int)
    ensures n == CountFold(vec)
  {
    n := 0;
    for k := 0 to |vec|
      invariant n == CountFold(vec[..k])
    {
      n := AsShort(n) + (vec[k].last - vec[k].first + 1);
      assert vec[..k + 1][..k] == vec[..k];
    }
    assert vec[..|vec|] == vec;
  }

  ghost predicate Shorts(vec: Cpuset) {
    forall k :: 0 <= k < |vec| ==> 0 <= vec[k].first && vec[k].last <= SHORT_MAX
  }

  // The count without the squeeze
  function Width(vec: Cpuset): int {
    if vec == [] then 0
    else var r := vec[|vec| - 1]; Width(vec[..|vec| - 1]) + (r.last - r.first + 1)
  }

  lemma {:induction false} WidthIsBounded(vec: Cpuset)
    requires Canonical(vec) && Shorts(vec) && vec != []
    ensures 0 < Width(vec) <= vec[|vec| - 1].last + 1
  {
    var n := |vec| - 1;
    if n > 0 {
      WidthIsBounded(vec[..n]);
      assert vec[..n][n - 1] == vec[n - 1];
    }
  }

  lemma {:induction false} WidthIsCardinality(vec: Cpuset)
    requires Canonical(vec)
    ensures Width(vec) == |Members(vec)|
  {
    if vec != [] {
      CanonicalPrefix(vec, |vec| - 1);
      WidthIsCardinality(vec[..|vec| - 1]);
      PrefixBelow(vec);
    }
  }

  lemma {:induction false} CountIsWidth(vec: Cpuset)
    requires Canonical(vec) && Shorts(vec)
    ensures CountFold(vec) == Width(vec)
  {
    if vec != [] {
      var n := |vec| - 1;
      CountIsWidth(vec[..n]);
      if n > 0 {
        WidthIsBounded(vec[..n]);
        assert vec[..n][n - 1].last == vec[n - 1].last < vec[n].first;
      }
    }
  }

  // Even though every partial count is squeezed through a short, the count of a canonical
  // vector of non-negative shorts is exact: only the full range 0-32767 counts 32768, and it
  // is a single range, so that count is never squeezed again.
  lemma CountIsCardinality(vec: Cpuset)
    requires Canonical(vec) && Shorts(vec)
    ensures CountFold(vec) == |Members(vec)|
  {
    CountIsWidth(vec);
    WidthIsCardinality(vec);
  }

  // ---------- adding and removing one PU ----------

  method RemovePU(vec: Cpuset, pu: int) returns (ok: bool, res: Cpuset)
    requires forall x :: x in Members(vec) ==> 0 <= x
    ensures ok <==> pu != -1
    ensures !ok ==> res == vec
    ensures ok ==> Canonical(res) && Members(res) == Members(vec) - {pu}
  {
    if pu == -1 { return false, vec; }
    var puSet := ToSet(vec);
    puSet := puSet - {pu};
    res := ToCpusetVector(puSet);
    ok := true;
  }

  method AddPU(vec: Cpuset, pu: int) returns (ok: bool, res: Cpuset)
    requires forall x :: x in Members(vec) ==> 0 <= x
    requires pu != -9
    ensures ok <==> pu != -1
    ensures !ok ==> res == vec
    ensures ok ==> Canonical(res) && Members(res) == Members(vec) + {pu}
  {
    if pu == -1 { return false, vec; }
    var puSet := ToSet(vec);
    puSet := puSet + {pu};
    res := ToCpusetVector(puSet);
    ok := true;
  }

  // ---------- the canonical form ----------

  // Two canonical vectors for the same set are the same vector
  lemma {:induction false} CanonicalUnique(a: Cpuset, b: Cpuset)
    requires Canonical(a) && Canonical(b) && Members(a) == Members(b)
    ensures a == b
    decreases |a|
  {
    hide Members, Span, Canonical;
    EmptyMembers(a);
    EmptyMembers(b);
    if a != [] {
      var m, n := |a| - 1, |b| - 1;
      LastRangeAgrees(a, b);
      LastRangeAgrees(b, a);
      assert a[m] == b[n];
      CanonicalPrefix(a, m);
      CanonicalPrefix(b, n);
      PrefixMembers(a);
      PrefixMembers(b);
      assert Members(a[..m]) == Members(b[..n]);
      CanonicalUnique(a[..m], b[..n]);
      assert a == a[..m] + [a[m]];
      assert b == b[..n] + [b[n]];
    }
  }

  lemma BoundsAreMembers(vec: Cpuset, k: nat)
    requires Canonical(vec) && k < |vec|
    ensures vec[k].first in Members(vec) && vec[k].last in Members(vec)
  {
    MembersAreInRanges(vec, vec[k].first);
    MembersAreInRanges(vec, vec[k].last);
  }

  lemma EmptyMembers(vec: Cpuset)
    requires Canonical(vec)
    ensures Members(vec) == {} <==> vec == []
  {
    if vec != [] { BoundsAreMembers(vec, 0); }
  }

  // The number just below a canonical range is not a member
  lemma GapBelow(vec: Cpuset, k: nat)
    requires Canonical(vec) && k < |vec|
    ensures vec[k].first - 1 !in Members(vec)
  {
    var g := vec[k].first - 1;
    MembersAreInRanges(vec, g);
    assert forall j :: 0 <= j < |vec| ==> !(vec[j].first <= g <= vec[j].last);
  }

  lemma PrefixMembers(vec: Cpuset)
    requires Canonical(vec) && vec != []
    ensures Members(vec[..|vec| - 1]) == Members(vec) - Span(vec[|vec| - 1])
  {
    var n := |vec| - 1;
    PrefixBelow(vec);
  }

  lemma LastRangeAgrees(a: Cpuset, b: Cpuset)
    requires Canonical(a) && Canonical(b) && Members(a) == Members(b) && a != [] && b != []
    ensures a[|a| - 1].last == b[|b| - 1].last
    ensures a[|a| - 1].first <= b[|b| - 1].first
  {
    var m, n := |a| - 1, |b| - 1;
    BoundsAreMembers(a, m);
    BoundsAreMembers(b, n);
    MembersBounded(a, b[n].last);
    MembersBounded(b, a[m].last);
    GapBelow(a, m);
    MembersAreInRanges(b, a[m].first - 1);
    if b[n].first < a[m].first {
      assert b[n].first <= a[m].first - 1 <= b[n].last;
    }
  }

  // No vector at all, canonical or not, names the same set with fewer ranges
  lemma CanonicalIsFewest(c: Cpuset, v: Cpuset)
    requires Canonical(c) && Members(c) == Members(v)
    ensures |c| <= |v|
  {
    var hits := Hits(c, v, |c|);
    DistinctBelow(hits, |v|);
  }

  // For each canonical range, an index of v whose range covers its first element; all distinct
  lemma {:induction false} Hits(c: Cpuset, v: Cpuset, n: nat) returns (hits: seq<int>)
    requires Canonical(c) && Members(c) == Members(v) && n <= |c|
    ensures |hits| == n
    ensures forall k :: 0 <= k < n ==> 0 <= hits[k] < |v| && v[hits[k]].first <= c[k].first <= v[hits[k]].last
    ensures forall j, k :: 0 <= j < k < n ==> hits[j] != hits[k]
  {
    if n == 0 { return []; }
    hits := Hits(c, v, n - 1);
    var k := n - 1;
    BoundsAreMembers(c, k);
    MembersAreInRanges(v, c[k].first);
    var h :| 0 <= h < |v| && v[h].first <= c[k].first <= v[h].last;
    forall j | 0 <= j < k ensures hits[j] != h {
      if hits[j] == h {
        GapBelow(c, k);
        MembersAreInRanges(v, c[k].first - 1);
        assert false;
      }
    }
    hits := hits + [h];
  }

  lemma {:induction false} DistinctBelow(s: seq<int>, n: nat)
    requires forall k :: 0 <= k < |s| ==> 0 <= s[k] < n
    requires forall j, k :: 0 <= j < k < |s| ==> s[j] != s[k]
    ensures |s| <= n
  {
    if s == [] {
    } else if n - 1 !in s {
      assert s[0] < n;
      DistinctBelow(s, n - 1);
    } else {
      var i :| 0 <= i < |s| && s[i] == n - 1;
      var rest := s[..i] + s[i + 1..];
      forall j, k | 0 <= j < k < |rest| ensures rest[j] != rest[k] {
        assert rest[j] == s[if j < i then j else j + 1];
        assert rest[k] == s[if k < i then k else k + 1];
      }
      forall k | 0 <= k < |rest| ensures 0 <= rest[k] < n - 1 {
        assert rest[k] == s[if k < i then k else k + 1];
      }
      DistinctBelow(rest, n - 1);
    }
  }

  // A canonical vector is exactly what the source builds from the set it stands for
  method RoundTrip(vec: Cpuset) returns (res: Cpuset)
    requires Canonical(vec) && forall x :: x in Members(vec) ==> 0 <= x
    ensures res == vec
  {
    var s := ToSet(vec);
    res := ToCpusetVector(s);
    CanonicalUnique(res, vec);
  }
}
