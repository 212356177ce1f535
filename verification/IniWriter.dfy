/** INIWriter::operator<<: from the old text and the wanted structure to the new text, and back. */
module IniWriter {

  import opened IniText
  import opened IniLines
  import opened IniEntries
  import opened IniMapClass
  import opened IniSplit
  import opened IniFile
  import opened IniModel
  import opened IniRewrite
  import opened IniLazy
  import opened IniMeaning

  // What stat and the open stream find under the file's name
  datatype File = Absent | Present(contents: string)

  function NewContents(file: File, data: Sections, pretty: bool): string {
    match file
    case Absent => Join(Blocks(data, pretty))
    case Present(text) =>
      var fileLines := Lines(text);
      Join(LazyOutput(Kept(fileLines), data, Read(fileLines).data, pretty))
  }

  method WriteLines(output: seq<string>) returns (stream: string)
    ensures stream == Join(output)
  {
    stream := "";
    if |output| > 0 {
      var line := 0;
      while true
        invariant 0 <= line < |output| && stream == Opened(output[..line])
        decreases |output| - line
      {
        assert output[..line + 1] == output[..line] + [output[line]];
        JoinNext(output[..line], output[line]);
        stream := stream + output[line];
        line := line + 1;
        if line == |output| {
          assert output[..line] == output;
          break;
        }
        stream := stream + "\n";
      }
    }
  }

  method Write(file: File, data: IniMap<Entries<string>>, prettyPrint: bool) returns (stream: string)
    requires data.Valid() && data.empty == []
    ensures stream == NewContents(file, data.data, prettyPrint)
  {
    if file.Absent? {
      stream := Generate(data, prettyPrint);
      return;
    }
    var originalData := new IniMap<Entries<string>>([]);
    var fileLines := ReadFile(file.contents);
    var lineData := ReadInto(originalData, fileLines);
    var output := GetLazyOutput(lineData, data, originalData, prettyPrint);
    stream := WriteLines(output);
  }

  // ---------- no line of the output holds a line end ----------

  lemma PlainRewritten(line: string, value: string, pretty: bool)
    requires Plain(line) && Plain(value) && EqualsAt(line) < |line|
    ensures Plain(Rewritten(line, value, pretty))
  {
  }

  lemma PlainTrim(s: string)
    requires Plain(s)
    ensures Plain(Trim(s))
  {
    var w, z := TrimParts(s);
    forall k | 0 <= k < |Trim(s)| ensures Trim(s)[k] == s[|w| + k] {
    }
  }

  lemma {:induction false} PlainMissing(items: Entries<string>, original: Entries<string>)
    requires PlainItems(items)
    ensures PlainItems(Missing(items, original))
  {
    if items != [] { PlainMissing(items[..|items| - 1], original); }
  }

  lemma PlainSection(data: Sections, section: string)
    requires PlainData(data)
    ensures PlainItems(Get(data, section, []))
  {
  }

  lemma PlainFlush(d: Draft, data: Sections, original: Sections, pretty: bool)
    requires PlainData(data) && AllPlain(Output(d))
    ensures AllPlain(Output(Flush(d, data, original, pretty)))
  {
    PlainSection(data, d.section);
    PlainMissing(Get(data, d.section, []), Get(original, d.section, []));
    PlainKeyLines(NewItems(data, original, d.section), pretty);
    assert forall i :: 0 <= i < |d.head| ==> d.head[i] == Output(d)[i];
    assert forall i :: 0 <= i < |d.tail| ==> d.tail[i] == Output(d)[|d.head| + i];
  }

  lemma PlainItem(d: Draft, line: string, data: Sections, pretty: bool)
    requires PlainData(data) && AllPlain(Output(d)) && Plain(line) && ParseLine(line).KeyValue?
    ensures AllPlain(Output(Item(d, line, data, pretty)))
  {
    hide ParseLine, Norm, Rewritten, Find, Plain, Trim;
    HasSign(line);
    var items, key := Get(data, d.section, []), Norm(ParseLine(line).key);
    PlainSection(data, d.section);
    if Has(items, key) {
      assert Plain(items[Find(items, key)].1);
      var wanted := Get(items, key, "");
      PlainTrim(wanted);
      PlainRewritten(line, Trim(wanted), pretty);
    }
  }

  lemma {:induction false} PlainDraw(lines: seq<string>, data: Sections, original: Sections, pretty: bool)
    requires PlainData(data) && AllPlain(lines)
    ensures AllPlain(Output(Draw(lines, data, original, pretty)))
  {
    if lines != [] {
      var before, line := lines[..|lines| - 1], lines[|lines| - 1];
      var d := Draw(before, data, original, pretty);
      PlainDraw(before, data, original, pretty);
      PlainSketch(d, line, data, original, pretty);
    }
  }

  lemma PlainSketch(d: Draft, line: string, data: Sections, original: Sections, pretty: bool)
    requires PlainData(data) && AllPlain(Output(d)) && Plain(line)
    ensures AllPlain(Output(Sketch(d, line, data, original, pretty)))
  {
    hide ParseLine, Plain, PlainData, Item, Norm, Flush;
    match ParseLine(line) {
      case Section(_) =>
        PlainFlush(d, data, original, pretty);
        SketchSection(d, line, data, original, pretty);
      case KeyValue(_, _) => PlainItem(d, line, data, pretty);
      case _ => SketchOther(d, line, data, original, pretty);
    }
  }

  lemma {:induction false} PlainKept(lines: seq<string>)
    requires AllPlain(lines)
    ensures AllPlain(Kept(lines))
  {
    if lines != [] { PlainKept(lines[..|lines| - 1]); }
  }

  lemma PlainBlock(section: (string, Entries<string>), pretty: bool)
    requires Plain(section.0) && PlainItems(section.1)
    ensures AllPlain(Block(section, pretty))
  {
    PlainKeyLines(section.1, pretty);
  }

  lemma {:induction false} PlainExtended(out: seq<string>, data: Sections, original: Sections, pretty: bool)
    requires PlainData(data) && AllPlain(out)
    ensures AllPlain(Extended(out, data, original, pretty))
  {
    if data != [] {
      PlainExtended(out, data[..|data| - 1], original, pretty);
      PlainBlock(data[|data| - 1], pretty);
    }
  }

  lemma PlainOutput(lines: seq<string>, data: Sections, original: Sections, pretty: bool)
    requires PlainData(data) && AllPlain(lines)
    ensures AllPlain(LazyOutput(lines, data, original, pretty))
  {
    PlainDraw(lines, data, original, pretty);
    PlainFlush(Draw(lines, data, original, pretty), data, original, pretty);
    PlainExtended(Revised(lines, data, original, pretty), data, original, pretty);
  }

  // ---------- reading the new text ----------

  // Text made of plain lines reads as the lines do; one empty line makes an empty file
  lemma TextReads(lines: seq<string>)
    requires AllPlain(lines)
    ensures Read(Lines(Join(lines))) == Read(lines)
  {
    LinesRoundTrip(lines);
    if lines == [""] { BlankLineReads(START); }
  }

  lemma GeneratedMeaning(data: Sections, pretty: bool)
    requires ReadsBack(data, pretty)
    ensures SameKeys(View(TrimsAll(data)), View(data)) && SameValues(View(TrimsAll(data)), View(data))
  {
    var all := TrimsAll(data);
    TrimsAllFacts(data);
    forall s
      ensures s in View(all) <==> s in View(data)
      ensures s in View(data) ==> View(all)[s] == Said(Get(data, s, []))
    {
      GetView(all, s);
      GetView(data, s);
      if Has(data, s) {
        FindIs(all, Find(data, s));
      }
      if Has(all, s) {
        assert data[Find(all, s)].0 == s;
      }
    }
    forall s | s in View(data)
      ensures View(all)[s].Keys == View(data)[s].Keys
      ensures forall k :: k in View(data)[s] ==> View(all)[s][k] == Trim(View(data)[s][k])
    {
      SaidSection(data, s);
    }
  }

  // What the file says before it is written
  function Original(file: File): Sections {
    match file
    case Absent => []
    case Present(text) => Read(Lines(text)).data
  }

  lemma SuitsNothing(data: Sections, pretty: bool)
    requires Suits(data, [], pretty)
    ensures ReadsBack(data, pretty)
  {
    assert forall i :: 0 <= i < |data| ==> !Has<Entries<string>>([], data[i].0);
  }

  // Whatever the old file holds: reading the new file gives exactly the wanted sections and keys, and gives the
  // wanted values, trimmed, exactly if no changed old value starts with an escaped equals sign
  lemma WritePreservesMeaning(file: File, data: Sections, pretty: bool)
    requires Suits(data, Original(file), pretty) && PlainData(data)
    ensures var m, want := View(Read(Lines(NewContents(file, data, pretty))).data), View(data);
            && SameKeys(m, want)
            && (SameValues(m, want) <==> ChangesAreFine(want, View(Original(file))))
  {
    hide ReadsBack, Suits, PlainData, SameKeys, SameValues, ChangesAreFine, View, Read, LazyOutput;
    match file {
      case Absent =>
        SuitsNothing(data, pretty);
        GeneratedFileRoundTrip(data, pretty);
        GeneratedMeaning(data, pretty);
        NothingChanges(View(data));
      case Present(text) =>
        var lines := Lines(text);
        var original := Read(lines).data;
        LinesArePlain(text);
        PlainKept(lines);
        PlainOutput(Kept(lines), data, original, pretty);
        TextReads(LazyOutput(Kept(lines), data, original, pretty));
        LazyOutputMeaning(lines, data, pretty);
    }
  }

  lemma NothingChanges(want: Model)
    ensures ChangesAreFine(want, View([]))
  {
  }
}
