/** Reading back what the lazy writer puts out, against what was asked for. */
module IniMeaning {

  import opened IniText
  import opened IniLines
  import opened IniEntries
  import opened IniFile
  import IniTable
  import opened IniModel
  import opened IniRewrite
  import opened IniLazy

  type Items = map<string, string>

  // A line with this old value ends up with the wanted one: it is left alone, or the new value replaces all of it
  ghost predicate Fine(old': string, wanted: string) {
    old' == wanted || !StartsEscaped(old')
  }

  // ---------- what may be written ----------

  // What the writer needs of the items of a section the old file has: an item with a new key must read back from a
  // line of its own, and one with an old key is only put behind it, where a bracket excludes some values
  ghost predicate ItemsFit(items: Entries<string>, old': Entries<string>, pretty: bool) {
    && Distinct(items)
    && forall i :: 0 <= i < |items| ==>
         && Norm(items[i].0) == items[i].0
         && (if Has(old', items[i].0) then BracketAllows(items[i].0, items[i].1)
             else Writable(items[i].0, items[i].1, pretty))
  }

  ghost predicate Fits(data: Sections, original: Sections, pretty: bool) {
    && Distinct(data)
    && forall i :: 0 <= i < |data| ==>
         && Norm(data[i].0) == data[i].0
         && (if Has(original, data[i].0) then ItemsFit(data[i].1, Get(original, data[i].0, []), pretty)
             else ';' !in data[i].0 && ItemsReadBack(data[i].1, pretty))
  }

  // What a caller has to see to: an item that is as it was read needs nothing at all
  ghost predicate ItemsSuit(items: Entries<string>, old': Entries<string>, pretty: bool) {
    && Distinct(items)
    && forall i :: 0 <= i < |items| ==>
         && Norm(items[i].0) == items[i].0
         && (if Has(old', items[i].0)
             then items[i].1 != Get(old', items[i].0, "") ==> BracketAllows(items[i].0, items[i].1)
             else Writable(items[i].0, items[i].1, pretty))
  }

  ghost predicate Suits(data: Sections, original: Sections, pretty: bool) {
    && Distinct(data)
    && forall i :: 0 <= i < |data| ==>
         && Norm(data[i].0) == data[i].0
         && (if Has(original, data[i].0) then ItemsSuit(data[i].1, Get(original, data[i].0, []), pretty)
             else ';' !in data[i].0 && ItemsReadBack(data[i].1, pretty))
  }

  // Data whose items all read back from lines of their own suit any file
  lemma ReadsBackSuits(data: Sections, original: Sections, pretty: bool)
    requires ReadsBack(data, pretty)
    ensures Suits(data, original, pretty)
  {
    forall i | 0 <= i < |data| ensures ItemsSuit(data[i].1, Get(original, data[i].0, []), pretty) {
      var items := data[i].1;
      assert ItemsReadBack(items, pretty);
      forall j | 0 <= j < |items| ensures BracketAllows(items[j].0, items[j].1) {
        assert Norm(items[j].0) == items[j].0 && Writable(items[j].0, items[j].1, pretty);
      }
    }
  }

  lemma SuitsFits(file: seq<string>, data: Sections, pretty: bool)
    requires Suits(data, Read(file).data, pretty)
    ensures Fits(data, Read(file).data, pretty)
  {
    hide Norm, BracketAllows, Writable, Read, AsRead, ItemsReadBack;
    var original := Read(file).data;
    ReadingIsAsRead(file);
    forall i | 0 <= i < |data| && Has(original, data[i].0)
      ensures ItemsFit(data[i].1, Get(original, data[i].0, []), pretty)
    {
      assert ItemsSuit(data[i].1, Get(original, data[i].0, []), pretty);
      SuitingItemsFit(data[i].1, Get(original, data[i].0, []), pretty);
    }
  }

  lemma SuitingItemsFit(items: Entries<string>, old': Entries<string>, pretty: bool)
    requires ItemsSuit(items, old', pretty) && AllAsRead(old')
    ensures ItemsFit(items, old', pretty)
  {
    hide Norm, BracketAllows, Writable;
    forall i | 0 <= i < |items| && Has(old', items[i].0) ensures BracketAllows(items[i].0, items[i].1) {
      var at := Find(old', items[i].0);
      assert AsRead(old'[at].0, old'[at].1);
    }
  }

  // ---------- one section ----------

  // What has been written of a section, against the old lines read so far (old'), the wanted items, the whole
  // original and whether its new keys are still to come
  ghost predicate Right(have: Items, old': Items, want: Items, orig: Items, open: bool) {
    && have.Keys <= want.Keys && old'.Keys <= orig.Keys
    && (forall k :: k in want && k in old' ==>
          k in have && (have[k] == Trim(want[k]) <==> Fine(old'[k], want[k])))
    && (forall k :: k in want && k !in orig ==>
          (k in have || open) && (k in have ==> have[k] == Trim(want[k])))
  }

  lemma TakenIsRight(have: Items, old': Items, want: Items, orig: Items, open: bool, k: string, v: string, w: string)
    requires Right(have, old', want, orig, open) && k in want && k in orig
    requires w == Trim(want[k]) <==> Fine(v, want[k])
    ensures Right(have[k := w], old'[k := v], want, orig, open)
  {
  }

  lemma DroppedIsRight(have: Items, old': Items, want: Items, orig: Items, open: bool, k: string, v: string)
    requires Right(have, old', want, orig, open) && k !in want && k in orig
    ensures Right(have, old'[k := v], want, orig, open)
  {
  }

  ghost predicate SaysNew(said: Items, want: Items, orig: Items) {
    forall k :: (k in said <==> k in want && k !in orig) && (k in said ==> said[k] == Trim(want[k]))
  }

  lemma FlushedIsRight(have: Items, old': Items, want: Items, orig: Items, open: bool, said: Items)
    requires Right(have, old', want, orig, open) && SaysNew(said, want, orig)
    ensures Right(have + said, old', want, orig, false)
  {
  }

  // ---------- all sections ----------

  ghost predicate AllRight(m: Model, old': Model, want: Model, orig: Model, open: bool, section: string) {
    && (forall s :: s in m <==> s in old' && s in want)
    && Covers(orig, old')
    && (forall s :: s in m ==> Right(m[s], old'[s], want[s], orig[s], open && s == section))
  }

  lemma EnteredIsRight(m: Model, old': Model, want: Model, orig: Model, section: string, next: string)
    requires AllRight(m, old', want, orig, false, section) && next in want
    requires Covers(orig, Entered(old', next))
    ensures AllRight(Entered(m, next), Entered(old', next), want, orig, true, next)
  {
    var m', o' := Entered(m, next), Entered(old', next);
    forall s | s in m' ensures Right(m'[s], o'[s], want[s], orig[s], s == next) {
      if s in m {
        assert Right(m[s], old'[s], want[s], orig[s], false);
        assert m'[s] == m[s] && o'[s] == old'[s];
      }
    }
  }

  lemma SkippedIsRight(m: Model, old': Model, want: Model, orig: Model, section: string, next: string)
    requires AllRight(m, old', want, orig, false, section) && next !in want
    requires Covers(orig, Entered(old', next))
    ensures AllRight(m, Entered(old', next), want, orig, false, next)
  {
    var o' := Entered(old', next);
    forall s | s in m ensures Right(m[s], o'[s], want[s], orig[s], false) {
      assert Right(m[s], old'[s], want[s], orig[s], false);
      assert o'[s] == old'[s];
    }
  }

  lemma KeyTakenIsRight(
    m: Model, old': Model, want: Model, orig: Model, section: string, k: string, v: string, w: string)
    requires AllRight(m, old', want, orig, true, section) && section in m && k in want[section]
    requires Covers(orig, Stored(old', section, k, v))
    requires w == Trim(want[section][k]) <==> Fine(v, want[section][k])
    ensures AllRight(Stored(m, section, k, w), Stored(old', section, k, v), want, orig, true, section)
  {
    var m', o' := Stored(m, section, k, w), Stored(old', section, k, v);
    assert k in o'[section];
    TakenIsRight(m[section], old'[section], want[section], orig[section], true, k, v, w);
    forall s | s in m' && s != section ensures Right(m'[s], o'[s], want[s], orig[s], false) {
      assert Right(m[s], old'[s], want[s], orig[s], false);
    }
  }

  lemma KeyDroppedIsRight(
    m: Model, old': Model, want: Model, orig: Model, open: bool, section: string, k: string, v: string)
    requires AllRight(m, old', want, orig, open, section) && section in old'
    requires section in want ==> k !in want[section]
    requires Covers(orig, Stored(old', section, k, v))
    ensures AllRight(m, Stored(old', section, k, v), want, orig, open, section)
  {
    var o' := Stored(old', section, k, v);
    assert k in o'[section];
    forall s | s in m ensures Right(m[s], o'[s], want[s], orig[s], open && s == section) {
      assert Right(m[s], old'[s], want[s], orig[s], open && s == section);
      if s == section {
        DroppedIsRight(m[s], old'[s], want[s], orig[s], open, k, v);
      }
    }
  }

  lemma AddedIsRight(m: Model, old': Model, want: Model, orig: Model, section: string, said: Items)
    requires AllRight(m, old', want, orig, true, section) && section in m
    requires SaysNew(said, want[section], orig[section])
    ensures AllRight(Added(m, section, said), old', want, orig, false, section)
  {
    var m' := Added(m, section, said);
    FlushedIsRight(m[section], old'[section], want[section], orig[section], true, said);
    forall s | s in m' && s != section ensures Right(m'[s], old'[s], want[s], orig[s], false) {
      assert Right(m[s], old'[s], want[s], orig[s], false);
    }
  }

  // ---------- the new keys of a section ----------

  lemma HasMore(items: Entries<string>, last: (string, string), key: string)
    requires !Has(items, last.0)
    ensures Has(items + [last], key) <==> key == last.0 || Has(items, key)
    ensures Get(items + [last], key, "") == if key == last.0 then last.1 else Get(items, key, "")
  {
    assert items + [last] == Put(items, last.0, last.1);
    PutFacts(items, last.0, last.1, "");
  }

  lemma {:induction false} MissingIs(items: Entries<string>, original: Entries<string>, key: string)
    requires Distinct(items) && IniTable.KeysAreNormal(items)
    ensures Has(Missing(items, original), key) <==> Has(items, key) && !Has(original, key)
    ensures Has(Missing(items, original), key) ==> Get(Missing(items, original), key, "") == Get(items, key, "")
  {
    if items != [] {
      var before, last := items[..|items| - 1], items[|items| - 1];
      assert items == before + [last];
      MissingIs(before, original, key);
      MissingIs(before, original, last.0);
      assert !Has(before, last.0);
      HasMore(before, last, key);
      HasMore(Missing(before, original), last, key);
      assert Missing(before, original) + [] == Missing(before, original);
    }
  }

  lemma {:induction false} MissingReadsBack(items: Entries<string>, original: Entries<string>, pretty: bool)
    requires ItemsFit(items, original, pretty)
    ensures ItemsReadBack(Missing(items, original), pretty)
  {
    hide Norm, Writable;
    if items != [] {
      var before, last := items[..|items| - 1], items[|items| - 1];
      MissingReadsBack(before, original, pretty);
      MissingIs(before, original, last.0);
      assert !Has(before, last.0);
    }
  }

  lemma GetIs(items: Entries<string>, key: string)
    ensures key in AsMap(items) <==> Has(items, key)
    ensures Has(items, key) ==> AsMap(items)[key] == Get(items, key, "")
  {
    KeySetIs(items, key);
  }

  lemma MissingSaysNew(items: Entries<string>, original: Entries<string>, pretty: bool)
    requires ItemsFit(items, original, pretty)
    ensures SaysNew(Said(Missing(items, original)), AsMap(items), AsMap(original))
  {
    var new' := Missing(items, original);
    MissingReadsBack(items, original, pretty);
    forall k
      ensures k in Said(new') <==> k in AsMap(items) && k !in AsMap(original)
      ensures k in Said(new') ==> Said(new')[k] == Trim(AsMap(items)[k])
    {
      MissingIs(items, original, k);
      SaidIs(new', k);
      GetIs(items, k);
      GetIs(original, k);
    }
  }

  lemma SectionFits(data: Sections, original: Sections, pretty: bool, section: string)
    requires Fits(data, original, pretty) && Has(original, section)
    ensures ItemsFit(Get(data, section, []), Get(original, section, []), pretty)
  {
  }

  // ---------- one draft ----------

  // Comments and blank lines
  ghost predicate Neutral(lines: seq<string>) {
    forall i :: 0 <= i < |lines| ==> ParseLine(lines[i]).Blank? || ParseLine(lines[i]).Comment?
  }

  lemma {:induction false} NeutralReads(r: Reading, lines: seq<string>)
    requires Neutral(lines)
    ensures ReadFrom(r, lines) == r
  {
    if lines != [] { NeutralReads(r, lines[..|lines| - 1]); }
  }

  // Where the draft and the two readings are: r reads the output, q the old lines
  ghost predicate InPlace(d: Draft, r: Reading, q: Reading, want: Model) {
    && (d.parsing ==> r.inside && r.section == d.section && r.section in View(r.data)
                      && d.section in want && !d.skipping)
    && (d.skipping ==> d.section !in want)
    && (d.parsing || d.skipping ==> q.section == d.section)
    && (q.inside <==> d.parsing || d.skipping)
    && (q.inside ==> q.section in View(q.data))
    && (!q.inside ==> View(q.data) == map[])
  }

  ghost predicate Follows(d: Draft, q: Reading, want: Model, orig: Model) {
    && Neutral(d.tail)
    && InPlace(d, Read(Output(d)), q, want)
    && AllRight(View(Read(Output(d)).data), View(q.data), want, orig, d.parsing, d.section)
  }

  lemma FlushReads(d: Draft, data: Sections, original: Sections, pretty: bool)
    requires Neutral(d.tail)
    ensures Read(Output(Flush(d, data, original, pretty)))
         == ReadFrom(Read(Output(d)), KeyLines(NewItems(data, original, d.section), pretty))
  {
    var add := KeyLines(NewItems(data, original, d.section), pretty);
    ReadOn(START, d.head, d.tail);
    NeutralReads(Read(d.head), d.tail);
    ReadOn(START, d.head + add, d.tail);
    ReadOn(START, d.head, add);
    NeutralReads(Read(d.head + add), d.tail);
  }

  // Closing a section writes its new keys
  lemma ClosedIsRight(d: Draft, q: Reading, data: Sections, original: Sections, pretty: bool)
    requires Fits(data, original, pretty) && Follows(d, q, View(data), View(original))
    ensures var c := Closed(d, data, original, pretty);
            && c == d.(head := c.head, parsing := false)
            && AllRight(View(Read(Output(c)).data), View(q.data), View(data), View(original), false, c.section)
  {
    if d.parsing {
      var r, s := Read(Output(d)), d.section;
      var items, old' := Get(data, s, []), Get(original, s, []);
      assert s in View(original);
      GetView(data, s);
      GetView(original, s);
      SectionFits(data, original, pretty, s);
      MissingSaysNew(items, old', pretty);
      MissingReadsBack(items, old', pretty);
      FlushReads(d, data, original, pretty);
      ReadItems(r, Missing(items, old'), pretty);
      AddedIsRight(View(r.data), View(q.data), View(data), View(original), s, Said(Missing(items, old')));
      assert Output(Closed(d, data, original, pretty)) == Output(Flush(d, data, original, pretty));
    }
  }

  // ---------- one line of the old file ----------

  lemma SectionFollows(d: Draft, q: Reading, line: string, data: Sections, original: Sections, pretty: bool)
    requires Fits(data, original, pretty) && Follows(d, q, View(data), View(original))
    requires ParseLine(line).Section? && Covers(View(original), View(Step(q, line).data))
    ensures Follows(Sketch(d, line, data, original, pretty), Step(q, line), View(data), View(original))
  {
    hide ParseLine, Norm, Find, View, Right, Closed;
    var c, next := Closed(d, data, original, pretty), Norm(ParseLine(line).name);
    var d' := Header(c, next, line, data);
    var m, old' := View(Read(Output(c)).data), View(q.data);
    ClosedIsRight(d, q, data, original, pretty);
    GetView(data, next);
    StepView(q, line);
    if Has(data, next) {
      ReadOne(START, Output(c), line);
      assert Output(d') == Output(c) + [line];
      StepView(Read(Output(c)), line);
      EnteredIsRight(m, old', View(data), View(original), c.section, next);
    } else {
      assert Output(d') == Output(c);
      SkippedIsRight(m, old', View(data), View(original), c.section, next);
    }
  }

  lemma ParsedValueIsTrimmed(line: string)
    requires ParseLine(line).KeyValue?
    ensures Trim(ParseLine(line).value) == ParseLine(line).value
  {
    var x := ShapeOf(line);
    TrimIsTrimmed(line[EqualsAt(line) + 1..x]);
  }

  // The line that goes out for a wanted key: the same key, and the wanted value exactly when the old one is fine
  lemma OutputItem(line: string, items: Entries<string>, pretty: bool) returns (out: string)
    requires ParseLine(line).KeyValue? && Has(items, Norm(ParseLine(line).key))
    requires BracketAllows(Norm(ParseLine(line).key), Get(items, Norm(ParseLine(line).key), ""))
    ensures EqualsAt(line) < |line|
    ensures var p, wanted := ParseLine(line), Get(items, Norm(ParseLine(line).key), "");
            && out == (if p.value == wanted then line else Rewritten(line, Trim(wanted), pretty))
            && ParseLine(out).KeyValue? && ParseLine(out).key == p.key
            && (ParseLine(out).value == Trim(wanted) <==> Fine(p.value, wanted))
  {
    var p := ParseLine(line);
    var at := Find(items, Norm(p.key));
    var wanted := items[at].1;
    HasSign(line);
    ParsedValueIsTrimmed(line);
    out := if p.value == wanted then line else Rewritten(line, Trim(wanted), pretty);
    if p.value != wanted {
      TrimIsTrimmed(wanted);
      ValueKeepsOut(wanted, ';');
      ValueKeepsOut(wanted, ']');
      NormIsIdempotent(p.key);
      RewrittenReads(line, Trim(wanted), pretty);
    }
  }

  lemma OldKeyFits(data: Sections, original: Sections, pretty: bool, section: string, key: string)
    requires Fits(data, original, pretty)
    requires section in View(original) && key in View(original)[section] && Has(Get(data, section, []), key)
    ensures BracketAllows(key, Get(Get(data, section, []), key, ""))
  {
    hide Norm, BracketAllows, Writable;
    var items, old' := Get(data, section, []), Get(original, section, []);
    GetView(original, section);
    GetIs(old', key);
    SectionFits(data, original, pretty, section);
    assert items[Find(items, key)].0 == key;
  }

  lemma ItemFollows(d: Draft, q: Reading, line: string, data: Sections, original: Sections, pretty: bool)
    requires Fits(data, original, pretty) && Follows(d, q, View(data), View(original))
    requires ParseLine(line).KeyValue? && q.inside && Covers(View(original), View(Step(q, line).data))
    ensures Follows(Sketch(d, line, data, original, pretty), Step(q, line), View(data), View(original))
  {
    hide ParseLine, Norm, Find, View, Right, Rewritten;
    var p := ParseLine(line);
    var key, items := Norm(p.key), Get(data, d.section, []);
    var m, old' := View(Read(Output(d)).data), View(q.data);
    var d' := Item(d, line, data, pretty);
    GetView(data, d.section);
    GetIs(items, key);
    StepView(q, line);
    if d.skipping || !Has(items, key) {
      assert d' == d;
      KeyDroppedIsRight(m, old', View(data), View(original), d.parsing, d.section, key, p.value);
    } else {
      OldKeyFits(data, original, pretty, d.section, key);
      var out := OutputItem(line, items, pretty);
      assert Output(d') == Output(d) + [out];
      ReadOne(START, Output(d), out);
      StepView(Read(Output(d)), out);
      KeyTakenIsRight(m, old', View(data), View(original), d.section, key, p.value, ParseLine(out).value);
    }
  }

  lemma OtherFollows(d: Draft, q: Reading, line: string, data: Sections, original: Sections, pretty: bool)
    requires Follows(d, q, View(data), View(original)) && (ParseLine(line).Blank? || ParseLine(line).Comment?)
    ensures Follows(Sketch(d, line, data, original, pretty), Step(q, line), View(data), View(original))
  {
    hide ParseLine, View, Right;
    var d' := Sketch(d, line, data, original, pretty);
    if !(d.discard && line == "") {
      assert Output(d') == Output(d) + [line];
      ReadOne(START, Output(d), line);
    }
  }

  // ---------- all lines of the old file ----------

  lemma StartFollows(want: Model, orig: Model)
    ensures Follows(BLANK, START, want, orig)
  {
    assert Output(BLANK) == [];
    assert View([]) == map[];
  }

  lemma LineFollows(d: Draft, q: Reading, line: string, data: Sections, original: Sections, pretty: bool)
    requires Fits(data, original, pretty) && Follows(d, q, View(data), View(original))
    requires Keeps(q.inside, line) && Covers(View(original), View(Step(q, line).data))
    ensures Follows(Sketch(d, line, data, original, pretty), Step(q, line), View(data), View(original))
  {
    hide Follows, Covers, View, Fits, Sketch, Step;
    match ParseLine(line) {
      case Section(_) => SectionFollows(d, q, line, data, original, pretty);
      case KeyValue(_, _) => ItemFollows(d, q, line, data, original, pretty);
      case _ => OtherFollows(d, q, line, data, original, pretty);
    }
  }

  // After any part of the old file the draft says what the wanted items and the lines read so far make of it
  lemma {:induction false} DraftFollows(file: seq<string>, n: nat, data: Sections, pretty: bool)
    requires Fits(data, Read(file).data, pretty) && n <= |file|
    ensures var original := Read(file).data;
            Follows(Draw(Kept(file[..n]), data, original, pretty), Read(file[..n]), View(data), View(original))
  {
    hide Follows, Covers, View, Fits, Sketch, Step, ParseLine;
    var original := Read(file).data;
    if n == 0 {
      StartFollows(View(data), View(original));
    } else {
      var before, line := file[..n - 1], file[n - 1];
      assert file[..n] == before + [line];
      DraftFollows(file, n - 1, data, pretty);
      ReadingGrows(file, n);
      ReadOne(START, before, line);
      KeptMore(before, line);
      if Keeps(Read(before).inside, line) {
        assert (Kept(before) + [line])[..|Kept(before)|] == Kept(before);
        LineFollows(Draw(Kept(before), data, original, pretty), Read(before), line, data, original, pretty);
      } else {
        NotKeptReads(Read(before), line);
      }
    }
  }

  lemma KeptMore(before: seq<string>, line: string)
    ensures Kept(before + [line]) == if Keeps(Read(before).inside, line) then Kept(before) + [line] else Kept(before)
  {
    assert (before + [line])[..|before|] == before;
  }

  lemma NotKeptReads(r: Reading, line: string)
    requires !Keeps(r.inside, line)
    ensures Step(r, line) == r
  {
  }

  // Every section of the original that is wanted has exactly the wanted keys, new values as wanted, and old ones
  // exactly where the line was fine
  ghost predicate Revision(m: Model, want: Model, orig: Model) {
    && (forall s :: s in m <==> s in orig && s in want)
    && (forall s :: s in m ==> Right(m[s], orig[s], want[s], orig[s], false))
  }

  lemma RevisedReads(file: seq<string>, data: Sections, pretty: bool)
    requires Fits(data, Read(file).data, pretty)
    ensures var original := Read(file).data;
            Revision(View(Read(Revised(Kept(file), data, original, pretty)).data), View(data), View(original))
  {
    var original := Read(file).data;
    DraftFollows(file, |file|, data, pretty);
    assert file[..|file|] == file;
    var d := Draw(Kept(file), data, original, pretty);
    if d.parsing {
      ClosedIsRight(d, Read(file), data, original, pretty);
      assert Output(Closed(d, data, original, pretty)) == Output(Flush(d, data, original, pretty));
    } else {
      UnparsedEnds(d, Read(file), data, pretty);
    }
  }

  // Outside a kept section nothing is added at the end
  lemma UnparsedEnds(d: Draft, q: Reading, data: Sections, pretty: bool)
    requires Follows(d, q, View(data), View(q.data)) && !d.parsing
    ensures Output(Flush(d, data, q.data, pretty)) == Output(d)
  {
    GetView(data, d.section);
    GetView(q.data, d.section);
    assert NewItems(data, q.data, d.section) == [];
    assert d.head + [] == d.head;
  }

  // ---------- sections the original does not have ----------

  // After the sections of data: those of base, and the ones that were not in the original
  ghost predicate Grown(m: Model, base: Model, data: Sections, orig: Model) {
    && (forall s :: s in m <==> s in base || (s in View(data) && s !in orig))
    && (forall s :: s in base ==> m[s] == base[s])
    && (forall s :: s in m && s !in base ==> m[s] == Said(Get(data, s, [])))
  }

  lemma SectionMore(data: Sections, last: (string, Entries<string>), s: string)
    requires !Has(data, last.0)
    ensures s in View(data + [last]) <==> s == last.0 || s in View(data)
    ensures Get(data + [last], s, []) == if s == last.0 then last.1 else Get(data, s, [])
  {
    assert data + [last] == Put(data, last.0, last.1);
    PutFacts(data, last.0, last.1, []);
    PutSectionView(data, last.0, last.1);
  }

  lemma GapReads(r: Reading, out: seq<string>, pretty: bool)
    ensures ReadFrom(r, Gap(out, pretty)) == r
  {
    BlankLineReads(r);
  }

  lemma BlockAppended(out: seq<string>, section: (string, Entries<string>), pretty: bool)
    requires section.0 !in View(Read(out).data) && Norm(section.0) == section.0 && ';' !in section.0
    requires ItemsReadBack(section.1, pretty)
    ensures View(Read(out + Gap(out, pretty) + Block(section, pretty)).data)
         == View(Read(out).data)[section.0 := Said(section.1)]
  {
    ReadOn(START, out, Gap(out, pretty));
    GapReads(Read(out), out, pretty);
    ReadOn(START, out + Gap(out, pretty), Block(section, pretty));
    ReadBlockView(Read(out), section, pretty);
  }

  lemma NothingGrown(m: Model, orig: Model)
    ensures Grown(m, m, [], orig)
  {
  }

  lemma GrownBySkipped(m: Model, base: Model, data: Sections, last: (string, Entries<string>), orig: Model)
    requires Grown(m, base, data, orig) && !Has(data, last.0) && last.0 in orig
    ensures Grown(m, base, data + [last], orig)
  {
    hide View, Said, Get, Has;
    forall s
      ensures s in View(data + [last]) <==> s == last.0 || s in View(data)
      ensures Get(data + [last], s, []) == if s == last.0 then last.1 else Get(data, s, [])
    {
      SectionMore(data, last, s);
    }
  }

  lemma GrownByBlock(m: Model, base: Model, data: Sections, last: (string, Entries<string>), orig: Model)
    requires Grown(m, base, data, orig) && !Has(data, last.0) && last.0 !in orig && last.0 !in m
    ensures Grown(m[last.0 := Said(last.1)], base, data + [last], orig)
  {
    hide View, Said, Get, Has;
    forall s
      ensures s in View(data + [last]) <==> s == last.0 || s in View(data)
      ensures Get(data + [last], s, []) == if s == last.0 then last.1 else Get(data, s, [])
    {
      SectionMore(data, last, s);
    }
  }

  lemma {:induction false} ExtendedReads(out: seq<string>, data: Sections, original: Sections, pretty: bool)
    requires Fits(data, original, pretty)
    requires forall s :: s in View(Read(out).data) ==> s in View(original)
    ensures Grown(View(Read(Extended(out, data, original, pretty)).data), View(Read(out).data), data, View(original))
  {
    hide Grown, View, Block, Fits;
    var base, orig := View(Read(out).data), View(original);
    if data == [] {
      NothingGrown(base, orig);
    } else {
      var init, last := data[..|data| - 1], data[|data| - 1];
      var before := Extended(out, init, original, pretty);
      FitsInit(data, original, pretty);
      assert data == init + [last];
      ExtendedReads(out, init, original, pretty);
      GetView(original, last.0);
      if Has(original, last.0) {
        GrownBySkipped(View(Read(before).data), base, init, last, orig);
      } else {
        NotYet(View(Read(before).data), base, init, last, orig);
        BlockAppended(before, last, pretty);
        GrownByBlock(View(Read(before).data), base, init, last, orig);
      }
    }
  }

  lemma FitsInit(data: Sections, original: Sections, pretty: bool)
    requires Fits(data, original, pretty) && data != []
    ensures var init, last := data[..|data| - 1], data[|data| - 1];
            && Fits(init, original, pretty) && !Has(init, last.0) && Norm(last.0) == last.0
            && (!Has(original, last.0) ==> ';' !in last.0 && ItemsReadBack(last.1, pretty))
  {
  }

  lemma NotYet(m: Model, base: Model, data: Sections, last: (string, Entries<string>), orig: Model)
    requires Grown(m, base, data, orig) && !Has(data, last.0) && last.0 !in orig
    requires forall s :: s in base ==> s in orig
    ensures last.0 !in m
  {
    GetView(data, last.0);
  }

  // ---------- the meaning of the whole output ----------

  // The output has exactly the wanted sections and keys; every value is the wanted one, trimmed,
  // exactly if every old line was fine
  ghost predicate SameKeys(m: Model, want: Model) {
    && (forall s :: s in m <==> s in want)
    && (forall s :: s in m ==> m[s].Keys == want[s].Keys)
  }

  ghost predicate SameValues(m: Model, want: Model)
    requires SameKeys(m, want)
  {
    forall s, k :: s in want && k in want[s] ==> m[s][k] == Trim(want[s][k])
  }

  // What a caller can look at before writing: no wanted item that changes an old value which starts
  // with an escaped equals sign
  ghost predicate ChangesAreFine(want: Model, orig: Model) {
    forall s, k :: s in want && s in orig && k in want[s] && k in orig[s] ==> Fine(orig[s][k], want[s][k])
  }

  lemma SaidSection(data: Sections, s: string)
    requires s in View(data) && Distinct(Get(data, s, []))
    ensures Said(Get(data, s, [])).Keys == View(data)[s].Keys
    ensures forall k :: k in View(data)[s] ==> Said(Get(data, s, []))[k] == Trim(View(data)[s][k])
  {
    var items := Get(data, s, []);
    GetView(data, s);
    forall k
      ensures k in Said(items) <==> k in AsMap(items)
      ensures k in AsMap(items) ==> Said(items)[k] == Trim(AsMap(items)[k])
    {
      SaidIs(items, k);
      GetIs(items, k);
    }
  }

  lemma ItemsAreDistinct(data: Sections, original: Sections, pretty: bool, section: string)
    requires Fits(data, original, pretty)
    ensures Distinct(Get(data, section, []))
  {
    hide Norm, BracketAllows, Writable;
    if Has(data, section) {
      var at := Find(data, section);
      assert ItemsFit(data[at].1, Get(original, data[at].0, []), pretty) || ItemsReadBack(data[at].1, pretty);
    }
  }

  lemma AllKeysThere(m: Model, base: Model, data: Sections, original: Sections, pretty: bool)
    requires Fits(data, original, pretty)
    requires Revision(base, View(data), View(original)) && Grown(m, base, data, View(original))
    ensures SameKeys(m, View(data))
    ensures SameValues(m, View(data)) <==> ChangesAreFine(View(data), View(original))
  {
    hide Fits, View;
    var want, orig := View(data), View(original);
    forall s | s in m
      ensures m[s].Keys == want[s].Keys
      ensures forall k :: k in want[s] ==>
        && k in m[s]
        && (m[s][k] == Trim(want[s][k]) <==> (s in orig && k in orig[s] ==> Fine(orig[s][k], want[s][k])))
    {
      if s in base {
        assert Right(base[s], orig[s], want[s], orig[s], false);
      } else {
        ItemsAreDistinct(data, original, pretty, s);
        SaidSection(data, s);
      }
    }
  }

  // Reading back the lines of the lazy output gives the wanted sections and keys, and gives the wanted values
  // exactly if no changed old value starts with an escaped equals sign
  lemma LazyOutputMeaning(file: seq<string>, data: Sections, pretty: bool)
    requires Suits(data, Read(file).data, pretty)
    ensures var original := Read(file).data;
            var m := View(Read(LazyOutput(Kept(file), data, original, pretty)).data);
            && SameKeys(m, View(data))
            && (SameValues(m, View(data)) <==> ChangesAreFine(View(data), View(original)))
  {
    hide Suits, Fits, View, Read, Right, SameValues, ChangesAreFine, SameKeys;
    var original := Read(file).data;
    SuitsFits(file, data, pretty);
    var out := Revised(Kept(file), data, original, pretty);
    var base := View(Read(out).data);
    RevisedReads(file, data, pretty);
    ExtendedReads(out, data, original, pretty);
    AllKeysThere(View(Read(LazyOutput(Kept(file), data, original, pretty)).data), base, data, original, pretty);
  }
}
