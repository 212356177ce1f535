/** Writing back what was read: which lines of the file come out as they were. */
module IniUnchanged {

  import opened IniText
  import opened IniLines
  import opened IniEntries
  import opened IniSplit
  import opened IniFile
  import opened IniModel
  import opened IniRewrite
  import opened IniLazy
  import opened IniWriter

  // The value a key line has in the end: the last one of its key in its section
  function Final(r: Reading, line: string, data: Sections): string
    requires ParseLine(line).KeyValue?
  {
    Get(Get(data, r.section, []), Norm(ParseLine(line).key), "")
  }

  // What becomes of a line
  function Redone(r: Reading, line: string, data: Sections, pretty: bool): string {
    if !ParseLine(line).KeyValue? || ParseLine(line).value == Final(r, line, data) then line
    else
      HasSign(line);
      Rewritten(line, Trim(Final(r, line, data)), pretty)
  }

  function RedoneAll(lines: seq<string>, data: Sections, pretty: bool): (r: seq<string>)
    ensures |r| == |lines|
  {
    if lines == [] then []
    else
      var before, last := lines[..|lines| - 1], lines[|lines| - 1];
      RedoneAll(before, data, pretty) + [Redone(Read(before), last, data, pretty)]
  }

  lemma {:induction false} RedoneAllAt(lines: seq<string>, data: Sections, pretty: bool, i: nat)
    requires i < |lines|
    ensures RedoneAll(lines, data, pretty)[i] == Redone(Read(lines[..i]), lines[i], data, pretty)
  {
    var before := lines[..|lines| - 1];
    if i < |before| {
      RedoneAllAt(before, data, pretty, i);
      assert before[..i] == lines[..i];
    }
  }

  // ---------- nothing is new ----------

  // All keys are there already
  ghost predicate Known<T>(e: Entries<T>, original: Entries<T>) {
    forall i :: 0 <= i < |e| ==> Has(original, Norm(e[i].0))
  }

  lemma TidyIsKnown<T>(e: Entries<T>)
    requires Tidy(e)
    ensures Known(e, e)
  {
    forall i | 0 <= i < |e| ensures Has(e, Norm(e[i].0)) {
      FindIs(e, i);
    }
  }

  lemma {:induction false} NothingMissing(items: Entries<string>, original: Entries<string>)
    requires Known(items, original)
    ensures Missing(items, original) == []
  {
    if items != [] { NothingMissing(items[..|items| - 1], original); }
  }

  lemma {:induction false} NothingExtended(out: seq<string>, data: Sections, original: Sections, pretty: bool)
    requires Known(data, original)
    ensures Extended(out, data, original, pretty) == out
  {
    if data != [] { NothingExtended(out, data[..|data| - 1], original, pretty); }
  }

  lemma FlushesNothing(d: Draft, data: Sections, pretty: bool)
    requires AllTidy(data)
    ensures Flush(d, data, data, pretty) == d
  {
    ItemsAreTidy(data, d.section);
    TidyIsKnown(Get(data, d.section, []));
    NothingMissing(Get(data, d.section, []), Get(data, d.section, []));
    assert d.head + KeyLines([], pretty) == d.head;
  }

  // ---------- line by line ----------

  ghost predicate AllKept(lines: seq<string>) {
    forall i :: 0 <= i < |lines| ==> Keeps(Read(lines[..i]).inside, lines[i])
  }

  lemma {:induction false} KeptIsAllKept(file: seq<string>)
    ensures AllKept(Kept(file))
  {
    hide Keeps;
    if file != [] {
      var before := file[..|file| - 1];
      var kept := Kept(before);
      KeptIsAllKept(before);
      KeptReadsTheSame(before);
      forall i | 0 <= i < |Kept(file)| ensures Keeps(Read(Kept(file)[..i]).inside, Kept(file)[i]) {
        assert i <= |kept| && Kept(file)[..i] == kept[..i];
        assert i == |kept| ==> kept[..i] == kept;
      }
    }
  }

  // The draft is a copy so far
  ghost predicate Copies(d: Draft, r: Reading, redone: seq<string>) {
    && Output(d) == redone && !d.skipping && !d.discard
    && d.parsing == r.inside && (r.inside ==> d.section == r.section)
  }

  // Section and key of a line that was read further on
  lemma LineIsKnown(r: Reading, line: string, data: Sections)
    requires Covers(View(data), View(Step(r, line).data)) && Keeps(r.inside, line)
    ensures ParseLine(line).Section? ==> Has(data, Norm(ParseLine(line).name))
    ensures ParseLine(line).KeyValue? ==>
              Has(data, r.section) && Has(Get(data, r.section, []), Norm(ParseLine(line).key))
  {
    hide Norm;
    var p, after := ParseLine(line), View(Step(r, line).data);
    StepView(r, line);
    if p.Section? {
      assert Norm(p.name) in after;
      GetView(data, Norm(p.name));
    } else if p.KeyValue? {
      assert r.section in after && Norm(p.key) in after[r.section];
      GetView(data, r.section);
      KeySetIs(Get(data, r.section, []), Norm(p.key));
    }
  }

  lemma LineIsCopied(d: Draft, r: Reading, redone: seq<string>, line: string, data: Sections, pretty: bool)
    requires AllTidy(data) && Copies(d, r, redone)
    requires Covers(View(data), View(Step(r, line).data)) && Keeps(r.inside, line)
    ensures Copies(Sketch(d, line, data, data, pretty), Step(r, line), redone + [Redone(r, line, data, pretty)])
  {
    hide Norm, Find, ParseLine, AllTidy, View, Flush, Rewritten;
    FlushesNothing(d, data, pretty);
    LineIsKnown(r, line, data);
    match ParseLine(line) {
      case Section(_) =>
      case KeyValue(_, _) =>
        var d' := Item(d, line, data, pretty);
        assert Output(d') == Output(d) + [Redone(r, line, data, pretty)];
      case _ =>
        assert d.head + (d.tail + [line]) == d.head + d.tail + [line];
    }
  }

  lemma {:induction false} LinesAreCopied(lines: seq<string>, n: nat, pretty: bool)
    requires AllKept(lines) && n <= |lines|
    ensures var data := Read(lines).data;
            Copies(Draw(lines[..n], data, data, pretty), Read(lines[..n]), RedoneAll(lines[..n], data, pretty))
  {
    hide Sketch, Step, Covers, View, Keeps, Redone, AllTidy;
    var data := Read(lines).data;
    if n > 0 {
      var before, line := lines[..n - 1], lines[n - 1];
      assert lines[..n] == before + [line] && lines[..n][..n - 1] == before;
      LinesAreCopied(lines, n - 1, pretty);
      ReadingIsTidy(lines);
      ReadingGrows(lines, n);
      ReadOne(START, before, line);
      LineIsCopied(Draw(before, data, data, pretty), Read(before), RedoneAll(before, data, pretty), line, data, pretty);
    }
  }

  lemma UnchangedOutput(lines: seq<string>, pretty: bool)
    requires AllKept(lines)
    ensures var data := Read(lines).data;
            LazyOutput(lines, data, data, pretty) == RedoneAll(lines, data, pretty)
  {
    hide Draw, Flush, Read, AllTidy;
    var data := Read(lines).data;
    ReadingIsTidy(lines);
    assert lines[..|lines|] == lines;
    LinesAreCopied(lines, |lines|, pretty);
    FlushesNothing(Draw(lines, data, data, pretty), data, pretty);
    NamesAreKnown(data);
    NothingExtended(Revised(lines, data, data, pretty), data, data, pretty);
  }

  lemma NamesAreKnown(data: Sections)
    requires AllTidy(data)
    ensures Known(data, data)
  {
    TidyIsKnown(data);
  }

  // ---------- which lines stay ----------

  // A line stays if it has the value of its key already, or if it has it behind an escaped equals sign
  ghost predicate Stays(r: Reading, line: string, data: Sections) {
    var p := ParseLine(line);
    p.KeyValue? ==>
      var final := Final(r, line, data);
      || p.value == final
      || (StartsEscaped(p.value) && EqualsAt(line) < |line| && line[ValueAt(line)..] == final)
  }

  lemma RedoneIsSame(r: Reading, line: string, data: Sections, pretty: bool)
    requires ParseLine(line).KeyValue? ==> AsRead(Norm(ParseLine(line).key), Final(r, line, data))
    ensures Redone(r, line, data, pretty) == line <==> Stays(r, line, data)
  {
    hide Norm, EqualsAt, ValueAt, StartsEscaped;
    var p := ParseLine(line);
    if p.KeyValue? && p.value != Final(r, line, data) {
      HasSign(line);
      NormIsIdempotent(p.key);
      TrimIsTrimmed(Final(r, line, data));
      RewrittenReads(line, Final(r, line, data), pretty);
      if StartsEscaped(p.value) { RewrittenIsSame(line, Final(r, line, data), pretty); }
    }
  }

  lemma RewrittenIsSame(line: string, value: string, pretty: bool)
    requires ParseLine(line).KeyValue? && StartsEscaped(ParseLine(line).value) && EqualsAt(line) < |line|
    ensures Rewritten(line, value, pretty) == line <==> line[ValueAt(line)..] == value
  {
    var x := ShapeOf(line);
    var j := NonSpaceFrom(line, EqualsAt(line) + 1);
    ValueStart(line, x, ParseLine(line).key, ParseLine(line).value);
    GapEnds(line, j);
    var at := ValueAt(line);
    assert at > EqualsAt(line) + 1;
    assert line[..at] + "" + value == line[..at] + value;
    assert line == line[..at] + line[at..];
    assert (line[..at] + value)[at..] == value;
  }

  lemma FinalIsAsRead(lines: seq<string>, i: nat)
    requires AllKept(lines) && i < |lines| && ParseLine(lines[i]).KeyValue?
    ensures AsRead(Norm(ParseLine(lines[i]).key), Final(Read(lines[..i]), lines[i], Read(lines).data))
  {
    hide Norm, ParseLine, AsRead;
    var data, r, line := Read(lines).data, Read(lines[..i]), lines[i];
    assert lines[..i + 1] == lines[..i] + [line];
    ReadOne(START, lines[..i], line);
    ReadingGrows(lines, i + 1);
    LineIsKnown(r, line, data);
    ReadingIsAsRead(lines);
    var items := Get(data, r.section, []);
    assert AllAsRead(items);
    assert items[Find(items, Norm(ParseLine(line).key))].0 == Norm(ParseLine(line).key);
  }

  // Writing back the data that were read from a file puts out as many lines as were kept of it, and changes
  // exactly the key lines that say something else than the file does in the end
  lemma UnchangedDataKeepsLines(file: seq<string>, pretty: bool)
    ensures var kept, data := Kept(file), Read(file).data;
            var out := LazyOutput(kept, data, data, pretty);
            && |out| == |kept|
            && (forall i :: 0 <= i < |kept| ==> (out[i] == kept[i] <==> Stays(Read(kept[..i]), kept[i], data)))
  {
    hide LazyOutput, Read, Stays, AsRead;
    var kept, data := Kept(file), Read(file).data;
    KeptReadsTheSame(file);
    KeptIsAllKept(file);
    UnchangedOutput(kept, pretty);
    forall i | 0 <= i < |kept|
      ensures RedoneAll(kept, data, pretty)[i] == kept[i] <==> Stays(Read(kept[..i]), kept[i], data)
    {
      RedoneAllAt(kept, data, pretty, i);
      if ParseLine(kept[i]).KeyValue? { FinalIsAsRead(kept, i); }
      RedoneIsSame(Read(kept[..i]), kept[i], data, pretty);
    }
  }

  // ---------- the text ----------

  lemma {:induction false} ScanJoins(text: string)
    requires '\r' !in text && '\0' !in text
    ensures var s := ScanText(text);
            Join(s.lines + [s.buffer]) == text
  {
    hide Join;
    if text == "" {
      JoinOne("");
      assert [] + [""] == [""];
    } else {
      var before, c := text[..|text| - 1], text[|text| - 1];
      var s := ScanText(before);
      assert text == before + [c];
      ScanJoins(before);
      JoinMore(s.lines, s.buffer, c);
    }
  }

  lemma JoinOne(line: string)
    ensures Join([line]) == line
  {
  }

  lemma JoinMore(lines: seq<string>, buffer: string, c: char)
    ensures Join(lines + [buffer] + [""]) == Join(lines + [buffer]) + "\n"
    ensures Join(lines + [buffer + [c]]) == Join(lines + [buffer]) + [c]
  {
    var a, b := lines + [buffer], lines + [buffer + [c]];
    assert (a + [""])[..|a|] == a && Join(a) + "\n" + "" == Join(a) + "\n";
    assert a[..|lines|] == lines && b[..|lines|] == lines;
  }

  lemma LinesJoined(text: string)
    requires '\r' !in text && '\0' !in text
    ensures Join(Lines(text)) == text
  {
    if text == "" {
      assert Join([]) == "";
    } else {
      ScanJoins(text);
    }
  }

  // A file of which every line is kept and stays, without CR or NUL, is written back character for character
  lemma UnchangedText(text: string, pretty: bool)
    requires '\r' !in text && '\0' !in text
    requires Kept(Lines(text)) == Lines(text)
    ensures var lines, data := Lines(text), Read(Lines(text)).data;
            (forall i :: 0 <= i < |lines| ==> Stays(Read(lines[..i]), lines[i], data)) ==>
              NewContents(Present(text), data, pretty) == text
  {
    hide LazyOutput, Read, Stays, Join;
    var lines, data := Lines(text), Read(Lines(text)).data;
    UnchangedDataKeepsLines(lines, pretty);
    LinesJoined(text);
    if forall i :: 0 <= i < |lines| ==> Stays(Read(lines[..i]), lines[i], data) {
      var out := LazyOutput(lines, data, data, pretty);
      assert forall i :: 0 <= i < |lines| ==> out[i] == lines[i];
      assert out == lines;
    }
  }
}
