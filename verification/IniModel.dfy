/** What an INI structure says once the order of its items is forgotten. */
module IniModel {

  import opened IniText
  import opened IniLines
  import opened IniEntries
  import opened IniFile
  import opened IniRewrite
  import opened IniTable

  type Model = map<string, map<string, string>>

  function KeySet<T>(e: Entries<T>): set<string> {
    set i | 0 <= i < |e| :: e[i].0
  }

  lemma KeySetIs<T>(e: Entries<T>, key: string)
    ensures key in KeySet(e) <==> Has(e, key)
  {
    if Has(e, key) { assert e[Find(e, key)].0 == key; }
  }

  ghost function AsMap(items: Entries<string>): map<string, string> {
    map k | k in KeySet(items) :: Get(items, k, "")
  }

  ghost function View(data: Sections): Model {
    map s | s in KeySet(data) :: AsMap(Get(data, s, []))
  }

  lemma PutView(items: Entries<string>, key: string, value: string)
    ensures AsMap(Put(items, key, value)) == AsMap(items)[key := value]
  {
    PutFacts(items, key, value, "");
    forall k ensures k in KeySet(items) <==> Has(items, k) { KeySetIs(items, k); }
    var p := Put(items, key, value);
    forall k ensures k in KeySet(p) <==> Has(p, k) { KeySetIs(p, k); }
  }

  lemma PutSectionView(data: Sections, section: string, items: Entries<string>)
    ensures View(Put(data, section, items)) == View(data)[section := AsMap(items)]
  {
    PutFacts(data, section, items, []);
    forall k ensures k in KeySet(data) <==> Has(data, k) { KeySetIs(data, k); }
    var p := Put(data, section, items);
    forall k ensures k in KeySet(p) <==> Has(p, k) { KeySetIs(p, k); }
  }

  function Entered(m: Model, section: string): Model {
    if section in m then m else m[section := map[]]
  }

  function Stored(m: Model, section: string, key: string, value: string): Model {
    m[section := (if section in m then m[section] else map[])[key := value]]
  }

  lemma EnterView(data: Sections, section: string)
    ensures View(Enter(data, section)) == Entered(View(data), section)
  {
    KeySetIs(data, section);
    PutSectionView(data, section, []);
  }

  lemma GetView(data: Sections, section: string)
    ensures section in View(data) <==> Has(data, section)
    ensures AsMap(Get(data, section, [])) == if section in View(data) then View(data)[section] else map[]
  {
    KeySetIs(data, section);
  }

  lemma StoreView(data: Sections, section: string, key: string, value: string)
    ensures View(Store(data, section, key, value)) == Stored(View(data), section, key, value)
  {
    var items := Get(data, section, []);
    GetView(data, section);
    PutView(items, key, value);
    PutSectionView(data, section, Put(items, key, value));
  }

  // ---------- reading, seen through the view ----------

  ghost function After(m: Model, section: string, inside: bool, line: string): Model {
    match ParseLine(line)
    case Section(name) => Entered(m, Norm(name))
    case KeyValue(key, value) => if inside then Stored(m, section, Norm(key), value) else m
    case _ => m
  }

  lemma StepView(r: Reading, line: string)
    ensures View(Step(r, line).data) == After(View(r.data), r.section, r.inside, line)
  {
    match ParseLine(line) {
      case Section(name) => EnterView(r.data, Norm(name));
      case KeyValue(key, value) => StoreView(r.data, r.section, Norm(key), value);
      case _ =>
    }
  }

  // The second model has everything the first has
  ghost predicate Covers(big: Model, small: Model) {
    forall s :: s in small ==> s in big && small[s].Keys <= big[s].Keys
  }

  // Reading further never forgets a section or a key
  lemma {:induction false} ReadingGrows(lines: seq<string>, n: nat)
    requires n <= |lines|
    ensures Covers(View(Read(lines).data), View(Read(lines[..n]).data))
    decreases |lines| - n
  {
    if n == |lines| {
      assert lines[..n] == lines;
    } else {
      ReadingGrows(lines, n + 1);
      assert lines[..n + 1] == lines[..n] + [lines[n]];
      ReadOne(START, lines[..n], lines[n]);
      StepView(Read(lines[..n]), lines[n]);
    }
  }

  // ---------- what every structure that was read looks like ----------

  ghost predicate Tidy<T>(e: Entries<T>) {
    Distinct(e) && KeysAreNormal(e)
  }

  ghost predicate AllTidy(data: Sections) {
    Tidy(data) && forall i :: 0 <= i < |data| ==> Tidy(data[i].1)
  }

  lemma PutIsTidy<T>(e: Entries<T>, key: string, value: T)
    requires Tidy(e) && Norm(key) == key
    ensures Tidy(Put(e, key, value))
  {
    PutFacts(e, key, value, value);
    PutKeepsNormal(e, key, value);
  }

  lemma PutSectionIsTidy(data: Sections, section: string, items: Entries<string>)
    requires AllTidy(data) && Norm(section) == section && Tidy(items)
    ensures AllTidy(Put(data, section, items))
  {
    hide Tidy, Norm;
    PutIsTidy(data, section, items);
    PutAt(data, section, items);
    var p := Put(data, section, items);
    forall i | 0 <= i < |p| ensures Tidy(p[i].1) {
      assert p[i] == if i == Find(data, section) then (section, items) else data[i];
    }
  }

  lemma ItemsAreTidy(data: Sections, section: string)
    requires AllTidy(data)
    ensures Tidy(Get(data, section, []))
  {
  }

  // Whatever the file, keys and names are distinct and normalised in the structure that is read from it
  lemma {:induction false} ReadingIsTidy(lines: seq<string>)
    ensures AllTidy(Read(lines).data) && Norm(Read(lines).section) == Read(lines).section
  {
    hide AllTidy, Norm, ParseLine, Put, Get;
    if lines == [] {
      NothingIsTidy();
    } else {
      var r, line := Read(lines[..|lines| - 1]), lines[|lines| - 1];
      ReadingIsTidy(lines[..|lines| - 1]);
      match ParseLine(line) {
        case Section(name) =>
          NormIsIdempotent(name);
          EmptyIsTidy();
          PutSectionIsTidy(r.data, Norm(name), []);
        case KeyValue(key, value) =>
          NormIsIdempotent(key);
          ItemsAreTidy(r.data, r.section);
          PutIsTidy(Get(r.data, r.section, []), Norm(key), value);
          PutSectionIsTidy(r.data, r.section, Put(Get(r.data, r.section, []), Norm(key), value));
        case _ =>
      }
    }
  }

  // What an item looks like that was read from a line
  ghost predicate AsRead(key: string, value: string) {
    BracketAllows(key, value) && Trim(value) == value
  }

  ghost predicate AllAsRead(items: Entries<string>) {
    forall i :: 0 <= i < |items| ==> AsRead(items[i].0, items[i].1)
  }

  lemma ItemAsRead(line: string)
    requires ParseLine(line).KeyValue?
    ensures AsRead(Norm(ParseLine(line).key), ParseLine(line).value)
  {
    hide Norm;
    NormIsIdempotent(ParseLine(line).key);
    ReadValueIsAllowed(line);
    var x := ShapeOf(line);
    TrimIsTrimmed(line[EqualsAt(line) + 1..x]);
  }

  lemma PutIsAsRead(items: Entries<string>, key: string, value: string)
    requires AllAsRead(items) && AsRead(key, value)
    ensures AllAsRead(Put(items, key, value))
  {
    hide AsRead;
    PutAt(items, key, value);
    var p := Put(items, key, value);
    forall i | 0 <= i < |p| ensures AsRead(p[i].0, p[i].1) {
      assert p[i] == if i == Find(items, key) then (key, value) else items[i];
    }
  }

  lemma PutSectionIsAsRead(data: Sections, section: string, items: Entries<string>)
    requires AllAsRead(items) && forall i :: 0 <= i < |data| ==> AllAsRead(data[i].1)
    ensures var p := Put(data, section, items);
            forall i :: 0 <= i < |p| ==> AllAsRead(p[i].1)
  {
    hide AllAsRead;
    PutAt(data, section, items);
    var p := Put(data, section, items);
    forall i | 0 <= i < |p| ensures AllAsRead(p[i].1) {
      assert p[i] == if i == Find(data, section) then (section, items) else data[i];
    }
  }

  // Whatever the file, that holds for all items that are read from it
  lemma {:induction false} ReadingIsAsRead(lines: seq<string>)
    ensures forall i :: 0 <= i < |Read(lines).data| ==> AllAsRead(Read(lines).data[i].1)
  {
    hide AsRead, Norm, ParseLine, Put;
    if lines == [] {
    } else {
      var r, line := Read(lines[..|lines| - 1]), lines[|lines| - 1];
      ReadingIsAsRead(lines[..|lines| - 1]);
      match ParseLine(line) {
        case Section(name) => PutSectionIsAsRead(r.data, Norm(name), []);
        case KeyValue(key, value) =>
          ItemAsRead(line);
          PutIsAsRead(Get(r.data, r.section, []), Norm(key), value);
          PutSectionIsAsRead(r.data, r.section, Put(Get(r.data, r.section, []), Norm(key), value));
        case _ =>
      }
    }
  }

  lemma NothingIsTidy()
    ensures AllTidy([]) && Norm("") == ""
  {
  }

  lemma EmptyIsTidy()
    ensures Tidy<string>([])
  {
  }

  // ---------- items ----------

  // What the key lines of items say
  ghost function Said(items: Entries<string>): map<string, string> {
    AsMap(Trims(items))
  }

  lemma SaidIs(items: Entries<string>, key: string)
    requires Distinct(items)
    ensures key in Said(items) <==> Has(items, key)
    ensures Has(items, key) ==> Said(items)[key] == Trim(Get(items, key, ""))
  {
    var t := Trims(items);
    TrimsFacts(items);
    KeySetIs(t, key);
    var f, g := Find(items, key), Find(t, key);
    if f < |items| { assert t[f].0 == key; }
    if g < |t| { assert items[g].0 == key; }
  }

  lemma SaidMore(items: Entries<string>, key: string, value: string)
    requires !Has(items, key)
    ensures Said(items + [(key, value)]) == Said(items)[key := Trim(value)]
  {
    var all := items + [(key, value)];
    assert all[..|items|] == items;
    TrimsFacts(items);
    assert !Has(Trims(items), key);
    PutView(Trims(items), key, Trim(value));
  }

  lemma ReadItem(r: Reading, item: (string, string), pretty: bool)
    requires r.inside && Norm(item.0) == item.0 && Writable(item.0, item.1, pretty)
    ensures var r' := Step(r, KeyLine(item.0, item.1, pretty));
            && r'.inside && r'.section == r.section
            && View(r'.data) == Stored(View(r.data), r.section, item.0, Trim(item.1))
  {
    NormalIsTrimmed(item.0);
    KeyLineReads(item.0, item.1, pretty);
    StepView(r, KeyLine(item.0, item.1, pretty));
  }

  ghost function Added(m: Model, section: string, said: map<string, string>): Model
    requires section in m
  {
    m[section := m[section] + said]
  }

  lemma AddedMore(m: Model, section: string, said: map<string, string>, key: string, value: string)
    requires section in m
    ensures Stored(Added(m, section, said), section, key, value) == Added(m, section, said[key := value])
  {
    assert (m[section] + said)[key := value] == m[section] + said[key := value];
  }

  lemma AddedNothing(m: Model, section: string)
    requires section in m
    ensures Added(m, section, Said([])) == m
  {
    assert Said([]) == map[];
    assert m[section] + map[] == m[section];
  }

  // Reading key lines inside a section adds what they say to it
  lemma {:induction false} ReadItems(r: Reading, items: Entries<string>, pretty: bool)
    requires r.inside && r.section in View(r.data) && ItemsReadBack(items, pretty)
    ensures var r' := ReadFrom(r, KeyLines(items, pretty));
            && r'.inside && r'.section == r.section
            && View(r'.data) == Added(View(r.data), r.section, Said(items))
  {
    var m := View(r.data);
    if items == [] {
      AddedNothing(m, r.section);
    } else {
      var before, last := items[..|items| - 1], items[|items| - 1];
      ReadItems(r, before, pretty);
      ReadOne(r, KeyLines(before, pretty), KeyLine(last.0, last.1, pretty));
      ReadItem(ReadFrom(r, KeyLines(before, pretty)), last, pretty);
      assert items == before + [(last.0, last.1)];
      SaidMore(before, last.0, last.1);
      AddedMore(m, r.section, Said(before), last.0, Trim(last.1));
    }
  }

  // A section that was not there yet is added with what its lines say
  lemma ReadBlockView(r: Reading, section: (string, Entries<string>), pretty: bool)
    requires section.0 !in View(r.data) && Norm(section.0) == section.0 && ';' !in section.0
    requires ItemsReadBack(section.1, pretty)
    ensures View(ReadFrom(r, Block(section, pretty)).data) == View(r.data)[section.0 := Said(section.1)]
  {
    KeySetIs(r.data, section.0);
    ReadBlock(r, section, pretty);
    PutSectionView(r.data, section.0, Trims(section.1));
  }
}
