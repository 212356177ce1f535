/** The ordered map of lib/mini/ini.h: a list of items and a table from key to position. */
module IniEntries {

  // What an INIMap holds, in order of insertion
  type Entries<T> = seq<(string, T)>

  ghost predicate Distinct<T>(e: Entries<T>) {
    forall i, j :: 0 <= i < j < |e| ==> e[i].0 != e[j].0
  }

  // Position of key, the length when it is not there
  function Find<T>(e: Entries<T>, key: string): (n: nat)
    ensures n <= |e| && (n < |e| ==> e[n].0 == key)
    ensures forall k :: 0 <= k < n ==> e[k].0 != key
  {
    if e == [] || e[0].0 == key then 0 else 1 + Find(e[1..], key)
  }

  predicate Has<T>(e: Entries<T>, key: string) {
    Find(e, key) < |e|
  }

  function Get<T>(e: Entries<T>, key: string, none: T): T {
    if Has(e, key) then e[Find(e, key)].1 else none
  }

  // A key keeps its place when its value changes, and a new key goes last
  function Put<T>(e: Entries<T>, key: string, value: T): Entries<T> {
    if Has(e, key) then e[Find(e, key) := (key, value)] else e + [(key, value)]
  }

  function Without<T>(e: Entries<T>, key: string): Entries<T> {
    if Has(e, key) then e[..Find(e, key)] + e[Find(e, key) + 1..] else e
  }

  lemma FindIs<T>(e: Entries<T>, i: nat)
    requires Distinct(e) && i < |e|
    ensures Find(e, e[i].0) == i
  {
  }

  lemma PutAt<T>(e: Entries<T>, key: string, value: T)
    ensures var p := Put(e, key, value);
            && Find(p, key) == Find(e, key) < |p|
            && p[Find(e, key)] == (key, value)
            && (forall i :: 0 <= i < |e| && i != Find(e, key) ==> p[i] == e[i])
  {
    var p := Put(e, key, value);
    var f, g := Find(e, key), Find(p, key);
    assert p[f].0 == key;
    assert forall k :: 0 <= k < f ==> p[k].0 == e[k].0;
  }

  // Put changes one key and leaves the others as they were
  lemma PutFacts<T>(e: Entries<T>, key: string, value: T, none: T)
    ensures Distinct(e) ==> Distinct(Put(e, key, value))
    ensures forall k :: Has(Put(e, key, value), k) <==> k == key || Has(e, k)
    ensures forall k :: Get(Put(e, key, value), k, none) == if k == key then value else Get(e, k, none)
  {
    var p := Put(e, key, value);
    PutAt(e, key, value);
    forall k | k != key ensures Has(p, k) <==> Has(e, k) ensures Has(e, k) ==> Find(p, k) == Find(e, k) {
      var f, g := Find(e, k), Find(p, k);
      if f < |e| { assert p[f].0 == k; }
      if g < |p| { assert g != Find(e, key); }
    }
  }

  // Removing takes out one key and keeps the order and the values of the others
  lemma WithoutFacts<T>(e: Entries<T>, key: string, none: T)
    requires Distinct(e)
    ensures Distinct(Without(e, key))
    ensures forall k :: Has(Without(e, key), k) <==> k != key && Has(e, k)
    ensures forall k :: k != key ==> Get(Without(e, key), k, none) == Get(e, k, none)
  {
    var w, at := Without(e, key), Find(e, key);
    if at < |e| {
      assert forall i :: 0 <= i < |w| ==> w[i] == if i < at then e[i] else e[i + 1];
      assert Distinct(w);
      forall k | k != key
        ensures Has(w, k) <==> Has(e, k)
        ensures Has(e, k) ==> w[Find(w, k)] == e[Find(e, k)]
      {
        var f, g := Find(e, k), Find(w, k);
        if f < |e| {
          var g' := if f < at then f else f - 1;
          assert w[g'] == e[f];
          FindIs(w, g');
        }
        if g < |w| { assert e[if g < at then g else g + 1].0 == k; }
      }
      assert forall g :: 0 <= g < |w| ==> w[g].0 != key;
    }
  }
}

// The table that goes with a list
module IniTable {

  import opened IniText
  import opened IniEntries

  ghost predicate KeysAreNormal<T>(data: Entries<T>) {
    forall i :: 0 <= i < |data| ==> Norm(data[i].0) == data[i].0
  }

  // The table holds exactly the keys of the list, each with its position
  ghost predicate Agree<T>(data: Entries<T>, table: map<string, nat>) {
    && (forall i :: 0 <= i < |data| ==> data[i].0 in table && table[data[i].0] == i)
    && (forall k :: k in table ==> table[k] < |data| && data[table[k]].0 == k)
  }

  // An agreeing table answers every question about the list
  lemma TableFinds<T>(data: Entries<T>, table: map<string, nat>, key: string)
    requires Agree(data, table)
    ensures Distinct(data)
    ensures key in table <==> Has(data, key)
    ensures key in table ==> table[key] == Find(data, key)
  {
    if key in table { FindIs(data, table[key]); }
  }

  lemma PutAgrees<T>(data: Entries<T>, table: map<string, nat>, key: string, value: T)
    requires Agree(data, table)
    ensures Agree(Put(data, key, value), if key in table then table else table[key := |data|])
  {
    TableFinds(data, table, key);
    PutAt(data, key, value);
  }

  lemma PutKeepsNormal<T>(data: Entries<T>, key: string, value: T)
    requires KeysAreNormal(data) && Norm(key) == key
    ensures KeysAreNormal(Put(data, key, value))
  {
    PutAt(data, key, value);
    var p := Put(data, key, value);
    forall i | 0 <= i < |p| ensures Norm(p[i].0) == p[i].0 {
      assert p[i] == if i == Find(data, key) then (key, value) else data[i];
    }
  }

  // A table with key taken out and every later position moved down by one
  ghost predicate Closed(table: map<string, nat>, key: string, index: nat, after: map<string, nat>) {
    && after.Keys == table.Keys - {key}
    && forall j :: j in after ==> after[j] == if table[j] > index then table[j] - 1 else table[j]
  }

  lemma PositionsDiffer<T>(data: Entries<T>, table: map<string, nat>, key: string)
    requires Agree(data, table) && key in table
    ensures forall j :: j in table && j != key ==> table[j] != table[key]
    ensures Without(data, key) == data[..table[key]] + data[table[key] + 1..]
  {
    TableFinds(data, table, key);
  }

  // What is left of the list, item by item
  lemma WithoutItems<T>(data: Entries<T>, table: map<string, nat>, key: string)
    requires Agree(data, table) && key in table
    ensures var w, at := Without(data, key), table[key];
            |w| == |data| - 1 && forall i :: 0 <= i < |w| ==> w[i] == data[if i < at then i else i + 1]
  {
    hide Without, Agree, Find;
    PositionsDiffer(data, table, key);
    AgreesAt(data, table, key);
    CutItems(data, table[key]);
  }

  lemma AgreesAt<T>(data: Entries<T>, table: map<string, nat>, key: string)
    requires Agree(data, table) && key in table
    ensures table[key] < |data|
  {
  }

  lemma CutItems<T>(e: seq<T>, at: nat)
    requires at < |e|
    ensures var w := e[..at] + e[at + 1..];
            |w| == |e| - 1 && forall i :: 0 <= i < |w| ==> w[i] == e[if i < at then i else i + 1]
  {
  }

  lemma WithoutAgrees<T>(data: Entries<T>, table: map<string, nat>, key: string, after: map<string, nat>)
    requires Agree(data, table) && key in table && Closed(table, key, table[key], after)
    ensures Agree(Without(data, key), after)
  {
    WithoutItems(data, table, key);
    var at := table[key];
    var w := Without(data, key);
    forall i | 0 <= i < |w| ensures w[i].0 in after && after[w[i].0] == i {
      var was := if i < at then i else i + 1;
      assert w[i] == data[was] && table[data[was].0] == was;
    }
    forall k | k in after ensures after[k] < |w| && w[after[k]].0 == k {
      assert data[table[k]].0 == k;
    }
  }

  lemma WithoutKeepsNormal<T>(data: Entries<T>, key: string)
    requires KeysAreNormal(data)
    ensures KeysAreNormal(Without(data, key))
  {
    var w, at := Without(data, key), Find(data, key);
    forall i | 0 <= i < |w| ensures Norm(w[i].0) == w[i].0 {
      assert w[i] == data[if i < at then i else i + 1];
    }
  }
}

module IniMapClass {

  import opened IniText
  import opened IniEntries
  import opened IniTable

  class IniMap<T> {
    var dataIndexMap: map<string, nat>
    var data: Entries<T>
    const empty: T

    ghost predicate Valid()
      reads this
    {
      Agree(data, dataIndexMap) && KeysAreNormal(data)
    }

    constructor (empty: T)
      ensures Valid() && data == [] && this.empty == empty
    {
      this.empty := empty;
      data := [];
      dataIndexMap := map[];
    }

    constructor Copy(other: IniMap<T>)
      requires other.Valid()
      ensures Valid() && data == other.data && empty == other.empty
    {
      empty := other.empty;
      data := [];
      dataIndexMap := other.dataIndexMap;
      new;
      var dataSize := |other.data|;
      for i := 0 to dataSize
        invariant data == other.data[..i] && dataIndexMap == other.dataIndexMap
      {
        data := data + [other.data[i]];
      }
    }

    method SetEmpty(key: string) returns (index: nat)
      requires Valid() && key !in dataIndexMap && Norm(key) == key
      modifies this
      ensures Valid() && data == Put(old(data), key, empty) && index == Find(data, key) < |data|
    {
      TableFinds(data, dataIndexMap, key);
      PutAgrees(data, dataIndexMap, key, empty);
      PutKeepsNormal(data, key, empty);
      PutAt(data, key, empty);
      index := |data|;
      dataIndexMap := dataIndexMap[key := index];
      data := data + [(key, empty)];
    }

    // operator[]: the position whose item the caller may then assign to
    method Index(k: string) returns (index: nat)
      requires Valid()
      modifies this
      ensures Valid() && index == Find(data, Norm(k)) < |data|
      ensures data == if Has(old(data), Norm(k)) then old(data) else Put(old(data), Norm(k), empty)
    {
      var key := Norm(k);
      NormIsIdempotent(k);
      TableFinds(data, dataIndexMap, key);
      if key in dataIndexMap {
        index := dataIndexMap[key];
      } else {
        index := SetEmpty(key);
      }
    }

    method GetValue(k: string) returns (value: T)
      requires Valid()
      ensures value == Get(data, Norm(k), empty)
    {
      var key := Norm(k);
      TableFinds(data, dataIndexMap, key);
      if key !in dataIndexMap {
        return empty;
      }
      value := data[dataIndexMap[key]].1;
    }

    method HasKey(k: string) returns (has: bool)
      requires Valid()
      ensures has == Has(data, Norm(k))
    {
      var key := Norm(k);
      TableFinds(data, dataIndexMap, key);
      has := key in dataIndexMap;
    }

    method Set(k: string, obj: T)
      requires Valid()
      modifies this
      ensures Valid() && data == Put(old(data), Norm(k), obj)
    {
      var key := Norm(k);
      NormIsIdempotent(k);
      TableFinds(data, dataIndexMap, key);
      PutAgrees(data, dataIndexMap, key, obj);
      PutKeepsNormal(data, key, obj);
      if key in dataIndexMap {
        data := data[dataIndexMap[key] := (key, obj)];
      } else {
        dataIndexMap := dataIndexMap[key := |data|];
        data := data + [(key, obj)];
      }
    }

    method SetAll(multiArgs: seq<(string, T)>)
      requires Valid()
      modifies this
      ensures Valid() && data == PutAll(old(data), multiArgs)
    {
      for i := 0 to |multiArgs|
        invariant Valid() && data == PutAll(old(data), multiArgs[..i])
      {
        Set(multiArgs[i].0, multiArgs[i].1);
        assert multiArgs[..i + 1][..i] == multiArgs[..i];
      }
      assert multiArgs[..|multiArgs|] == multiArgs;
    }

    // Every position after the removed one moves down by one
    method Remove(k: string) returns (removed: bool)
      requires Valid()
      modifies this
      ensures Valid() && data == Without(old(data), Norm(k)) && removed == Has(old(data), Norm(k))
    {
      var key := Norm(k);
      TableFinds(data, dataIndexMap, key);
      if key !in dataIndexMap {
        return false;
      }
      var index := dataIndexMap[key];
      ghost var before, list := dataIndexMap, data;
      PositionsDiffer(list, before, key);
      data := data[..index] + data[index + 1..];
      dataIndexMap := dataIndexMap - {key};
      MoveDown(index, before, key);
      WithoutAgrees(list, before, key, dataIndexMap);
      WithoutKeepsNormal(list, key);
      removed := true;
    }

    // The loop over the whole table, in no particular order
    method MoveDown(index: nat, ghost before: map<string, nat>, ghost key: string)
      requires dataIndexMap == before - {key} && key in before && before[key] == index
      requires forall j :: j in before && j != key ==> before[j] != index
      modifies this`dataIndexMap
      ensures Closed(before, key, index, dataIndexMap)
    {
      var todo := dataIndexMap.Keys;
      while todo != {}
        invariant dataIndexMap.Keys == before.Keys - {key} && todo <= dataIndexMap.Keys
        invariant forall j :: j in dataIndexMap ==>
          dataIndexMap[j] == if j !in todo && before[j] > index then before[j] - 1 else before[j]
        decreases |todo|
      {
        var it2 :| it2 in todo;
        if dataIndexMap[it2] > index {
          dataIndexMap := dataIndexMap[it2 := dataIndexMap[it2] - 1];
        }
        todo := todo - {it2};
      }
    }

    method Clear()
      modifies this
      ensures Valid() && data == []
    {
      data := [];
      dataIndexMap := map[];
    }
  }

  function PutAll<T>(e: Entries<T>, items: seq<(string, T)>): Entries<T> {
    if items == [] then e
    else
      var last := items[|items| - 1];
      Put(PutAll(e, items[..|items| - 1]), Norm(last.0), last.1)
  }
}
