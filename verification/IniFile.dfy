/** Whole files in lib/mini/ini.h: splitting into lines, the reader and the generator. */
module IniSplit {

  // ---------- text and lines ----------

  // Neither a line end nor a character the reader drops
  ghost predicate Plain(s: string) {
    forall k :: 0 <= k < |s| ==> s[k] != '\n' && s[k] != '\r' && s[k] != '\0'
  }

  ghost predicate AllPlain(lines: seq<string>) {
    forall i :: 0 <= i < |lines| ==> Plain(lines[i])
  }

  // Finished lines and the line being collected, after some text
  datatype Scan = Scan(lines: seq<string>, buffer: string)

  function ScanText(text: string): Scan {
    if text == "" then Scan([], "")
    else
      var s, c := ScanText(text[..|text| - 1]), text[|text| - 1];
      if c == '\n' then Scan(s.lines + [s.buffer], "")
      else if c == '\0' || c == '\r' then s
      else Scan(s.lines, s.buffer + [c])
  }

  // An empty file has no lines; any other has one more than it has line ends
  function Lines(text: string): seq<string> {
    if text == "" then [] else ScanText(text).lines + [ScanText(text).buffer]
  }

  method ReadFile(fileContents: string) returns (output: seq<string>)
    ensures output == Lines(fileContents)
  {
    output := [];
    var fileSize := |fileContents|;
    if fileSize == 0 {
      return;
    }
    var buffer := "";
    for i := 0 to fileSize
      invariant Scan(output, buffer) == ScanText(fileContents[..i])
    {
      var c := fileContents[i];
      assert fileContents[..i + 1][..i] == fileContents[..i];
      if c == '\n' {
        output := output + [buffer];
        buffer := "";
        continue;
      }
      if c != '\0' && c != '\r' {
        buffer := buffer + [c];
      }
    }
    assert fileContents[..fileSize] == fileContents;
    output := output + [buffer];
  }

  function Join(lines: seq<string>): string {
    if lines == [] then ""
    else if |lines| == 1 then lines[0]
    else Join(lines[..|lines| - 1]) + "\n" + lines[|lines| - 1]
  }

  lemma {:induction false} ScanIsPlain(text: string)
    ensures AllPlain(ScanText(text).lines) && Plain(ScanText(text).buffer)
  {
    if text != "" { ScanIsPlain(text[..|text| - 1]); }
  }

  lemma LinesArePlain(text: string)
    ensures AllPlain(Lines(text))
  {
    ScanIsPlain(text);
  }

  lemma {:induction false} ScanPlain(text: string, more: string)
    requires Plain(more)
    ensures ScanText(text + more) == Scan(ScanText(text).lines, ScanText(text).buffer + more)
  {
    if more == "" {
      assert text + more == text;
    } else {
      var n := |more| - 1;
      assert (text + more)[..|text + more| - 1] == text + more[..n];
      ScanPlain(text, more[..n]);
      assert more == more[..n] + [more[n]];
    }
  }

  lemma {:induction false} ScanJoined(lines: seq<string>)
    requires lines != [] && AllPlain(lines)
    ensures ScanText(Join(lines)) == Scan(lines[..|lines| - 1], lines[|lines| - 1])
  {
    var n := |lines| - 1;
    if n == 0 {
      ScanPlain("", lines[0]);
      assert "" + lines[0] == lines[0];
    } else {
      ScanJoined(lines[..n]);
      var upTo := Join(lines[..n]) + "\n";
      assert upTo[..|upTo| - 1] == Join(lines[..n]);
      assert lines[..n] == lines[..n][..n - 1] + [lines[..n][n - 1]];
      ScanPlain(upTo, lines[n]);
    }
  }

  lemma JoinIsEmpty(lines: seq<string>)
    ensures Join(lines) == "" <==> lines == [] || lines == [""]
  {
  }

  // Lines come back from the text exactly when none holds a line end or a dropped character,
  // and they are not one empty line
  lemma LinesRoundTrip(lines: seq<string>)
    ensures Lines(Join(lines)) == lines <==> AllPlain(lines) && lines != [""]
  {
    JoinIsEmpty(lines);
    if AllPlain(lines) && lines != [] {
      ScanJoined(lines);
      assert lines == lines[..|lines| - 1] + [lines[|lines| - 1]];
    } else {
      LinesArePlain(Join(lines));
    }
  }
}

module IniFile {

  import opened IniText
  import opened IniLines
  import opened IniEntries
  import opened IniMapClass
  import opened IniSplit

  type Sections = Entries<Entries<string>>

  // ---------- the reader ----------

  // What has been read, and the section that keys go to (its name as the map holds it)
  datatype Reading = Reading(data: Sections, section: string, inside: bool)

  const START := Reading([], "", false)

  // data[section]
  function Enter(data: Sections, section: string): Sections {
    if Has(data, section) then data else Put(data, section, [])
  }

  // data[section][key] = value
  function Store(data: Sections, section: string, key: string, value: string): Sections {
    Put(data, section, Put(Get(data, section, []), key, value))
  }

  function Step(r: Reading, line: string): Reading {
    match ParseLine(line)
    case Section(name) => Reading(Enter(r.data, Norm(name)), Norm(name), true)
    case KeyValue(key, value) =>
      if r.inside then r.(data := Store(r.data, r.section, Norm(key), value)) else r
    case _ => r
  }

  function ReadFrom(r: Reading, lines: seq<string>): Reading {
    if lines == [] then r else Step(ReadFrom(r, lines[..|lines| - 1]), lines[|lines| - 1])
  }

  function Read(lines: seq<string>): Reading {
    ReadFrom(START, lines)
  }

  lemma ReadOne(r: Reading, lines: seq<string>, line: string)
    ensures ReadFrom(r, lines + [line]) == Step(ReadFrom(r, lines), line)
  {
    assert (lines + [line])[..|lines|] == lines;
  }

  lemma {:induction false} ReadOn(r: Reading, a: seq<string>, b: seq<string>)
    ensures ReadFrom(r, a + b) == ReadFrom(ReadFrom(r, a), b)
  {
    if b == [] {
      assert a + b == a;
    } else {
      var n := |b| - 1;
      ReadOn(r, a, b[..n]);
      assert a + b == (a + b[..n]) + [b[n]];
      ReadOne(r, a + b[..n], b[n]);
    }
  }

  // Lines a lazy write starts from: none that mean nothing, and no keys before the first section
  predicate Keeps(inside: bool, line: string) {
    match ParseLine(line)
    case Unknown => false
    case KeyValue(_, _) => inside
    case _ => true
  }

  function Kept(lines: seq<string>): seq<string> {
    if lines == [] then []
    else
      var before, last := lines[..|lines| - 1], lines[|lines| - 1];
      Kept(before) + (if Keeps(Read(before).inside, last) then [last] else [])
  }

  // The lines that are kept read as the whole file does
  lemma {:induction false} KeptReadsTheSame(lines: seq<string>)
    ensures Read(Kept(lines)) == Read(lines)
  {
    if lines != [] {
      var before, last := lines[..|lines| - 1], lines[|lines| - 1];
      KeptReadsTheSame(before);
      ReadOne(START, Kept(before), last);
      assert Kept(before) + [] == Kept(before);
    }
  }

  // operator>> with the line data kept
  method ReadInto(data: IniMap<Entries<string>>, fileLines: seq<string>) returns (lineData: seq<string>)
    requires data.Valid() && data.data == [] && data.empty == []
    modifies data
    ensures data.Valid() && data.data == Read(fileLines).data
    ensures lineData == Kept(fileLines)
  {
    hide ParseLine, Find;
    lineData := [];
    var section, inSection := "", false;
    for i := 0 to |fileLines|
      invariant data.Valid()
      invariant Reading(data.data, Norm(section), inSection) == Read(fileLines[..i])
      invariant inSection ==> Has(data.data, Norm(section))
      invariant lineData == Kept(fileLines[..i])
    {
      var line := fileLines[i];
      assert fileLines[..i + 1][..i] == fileLines[..i];
      var parseResult := Parse(line);
      ghost var wasInside := inSection;
      if parseResult.Section? {
        inSection := true;
        section := parseResult.name;
        var at := data.Index(section);
      } else if inSection && parseResult.KeyValue? {
        StoreInto(data, section, parseResult.key, parseResult.value);
      }
      if parseResult != Unknown && (inSection || !parseResult.KeyValue?) {
        lineData := lineData + [line];
      }
    }
    assert fileLines[..|fileLines|] == fileLines;
  }

  // data[section][key] = value: the inner map is a value, replaced as a whole
  method StoreInto(data: IniMap<Entries<string>>, section: string, key: string, value: string)
    requires data.Valid() && data.empty == [] && Has(data.data, Norm(section))
    modifies data
    ensures data.Valid() && data.data == Store(old(data.data), Norm(section), Norm(key), value)
    ensures Has(data.data, Norm(section))
  {
    var items := data.GetValue(section);
    PutAt(data.data, Norm(section), Put(items, Norm(key), value));
    data.Set(section, Put(items, Norm(key), value));
  }

  // ---------- the generator ----------

  function KeyLines(items: Entries<string>, pretty: bool): seq<string> {
    if items == [] then []
    else
      var last := items[|items| - 1];
      KeyLines(items[..|items| - 1], pretty) + [KeyLine(last.0, last.1, pretty)]
  }

  function Block(section: (string, Entries<string>), pretty: bool): seq<string> {
    [SectionLine(section.0)] + KeyLines(section.1, pretty)
  }

  // With pretty printing an empty line stands between sections
  function Blocks(data: Sections, pretty: bool): seq<string> {
    if data == [] then []
    else if |data| == 1 then Block(data[0], pretty)
    else Blocks(data[..|data| - 1], pretty) + (if pretty then [""] else []) + Block(data[|data| - 1], pretty)
  }

  // Lines before the block of the next section
  function Before(data: Sections, pretty: bool): seq<string> {
    if data == [] then [] else Blocks(data, pretty) + (if pretty then [""] else [])
  }

  lemma NextBlock(data: Sections, it: nat, pretty: bool)
    requires it < |data|
    ensures Blocks(data[..it + 1], pretty) == Before(data[..it], pretty) + Block(data[it], pretty)
  {
    assert data[..it + 1][..it] == data[..it];
  }

  // A stream that stands at the start of the line after the given ones
  function Opened(lines: seq<string>): string {
    if lines == [] then "" else Join(lines) + "\n"
  }

  lemma JoinNext(lines: seq<string>, line: string)
    ensures Join(lines + [line]) == Opened(lines) + line
  {
    assert (lines + [line])[..|lines|] == lines;
    assert "" + line == line;
  }

  lemma Regrouped(stream: string, a: string, b: string, c: string)
    ensures stream + a + b + c == stream + (a + b + c)
  {
  }

  lemma NextKeyLine(lines: seq<string>, items: Entries<string>, it: nat, pretty: bool)
    requires it < |items|
    ensures lines + KeyLines(items[..it + 1], pretty)
         == lines + KeyLines(items[..it], pretty) + [KeyLine(items[it].0, items[it].1, pretty)]
  {
    assert items[..it + 1][..it] == items[..it];
  }

  // The keys of one section, from the start of a line
  method GenerateItems(collection: Entries<string>, prettyPrint: bool, s: string, ghost lines: seq<string>)
    returns (stream: string)
    requires collection != [] && lines != [] && s == Opened(lines)
    ensures stream == Join(lines + KeyLines(collection, prettyPrint))
  {
    stream := s;
    var it2 := 0;
    assert lines + KeyLines(collection[..0], prettyPrint) == lines;
    while true
      invariant 0 <= it2 < |collection|
      invariant stream == Opened(lines + KeyLines(collection[..it2], prettyPrint))
      decreases |collection| - it2
    {
      var key := ReplaceAll(collection[it2].0, "=", ESCAPED_EQ);
      var value := Trim(collection[it2].1);
      Regrouped(stream, key, if prettyPrint then " = " else "=", value);
      NextKeyLine(lines, collection, it2, prettyPrint);
      JoinNext(lines + KeyLines(collection[..it2], prettyPrint),
               KeyLine(collection[it2].0, collection[it2].1, prettyPrint));
      stream := stream + key + (if prettyPrint then " = " else "=") + value;
      it2 := it2 + 1;
      if it2 == |collection| {
        break;
      }
      stream := stream + "\n";
    }
    assert collection[..|collection|] == collection;
  }

  lemma BlockJoined(lines: seq<string>, section: (string, Entries<string>), pretty: bool)
    ensures lines + Block(section, pretty) == lines + [SectionLine(section.0)] + KeyLines(section.1, pretty)
    ensures section.1 == [] ==> lines + Block(section, pretty) == lines + [SectionLine(section.0)]
  {
  }

  // One section, from the start of a line
  method GenerateSection(it: (string, Entries<string>), prettyPrint: bool, s: string, ghost lines: seq<string>)
    returns (stream: string)
    requires s == Opened(lines)
    ensures stream == Join(lines + Block(it, prettyPrint))
  {
    var section, collection := it.0, it.1;
    Regrouped(s, "[", section, "]");
    JoinNext(lines, SectionLine(section));
    BlockJoined(lines, it, prettyPrint);
    stream := s + "[" + section + "]";
    if |collection| > 0 {
      stream := stream + "\n";
      stream := GenerateItems(collection, prettyPrint, stream, lines + [SectionLine(section)]);
    }
  }

  lemma BetweenSections(data: Sections, pretty: bool)
    requires data != []
    ensures Opened(Before(data, pretty)) == Join(Blocks(data, pretty)) + "\n" + (if pretty then "\n" else "")
  {
    if pretty {
      JoinNext(Blocks(data, pretty), "");
      assert Opened(Blocks(data, pretty)) + "" == Opened(Blocks(data, pretty));
    } else {
      assert Blocks(data, pretty) + [] == Blocks(data, pretty) != [];
      assert Join(Blocks(data, pretty)) + "\n" + "" == Join(Blocks(data, pretty)) + "\n";
    }
  }

  // operator<<: the text goes straight to the stream, line ends between the lines
  method Generate(data: IniMap<Entries<string>>, prettyPrint: bool) returns (stream: string)
    ensures stream == Join(Blocks(data.data, prettyPrint))
  {
    stream := "";
    var sections := data.data;
    if |sections| == 0 {
      return;
    }
    var it := 0;
    while true
      invariant 0 <= it < |sections|
      invariant stream == Opened(Before(sections[..it], prettyPrint))
      decreases |sections| - it
    {
      NextBlock(sections, it, prettyPrint);
      stream := GenerateSection(sections[it], prettyPrint, stream, Before(sections[..it], prettyPrint));
      it := it + 1;
      if it == |sections| {
        assert sections[..it] == sections;
        return;
      }
      BetweenSections(sections[..it], prettyPrint);
      stream := stream + "\n";
      if prettyPrint {
        stream := stream + "\n";
      }
    }
  }

  // ---------- reading what was generated ----------

  // What a written map reads back as
  function Trims(items: Entries<string>): Entries<string> {
    if items == [] then []
    else Trims(items[..|items| - 1]) + [(items[|items| - 1].0, Trim(items[|items| - 1].1))]
  }

  function TrimsAll(data: Sections): Sections {
    if data == [] then []
    else TrimsAll(data[..|data| - 1]) + [(data[|data| - 1].0, Trims(data[|data| - 1].1))]
  }

  // Items with their keys as INIMap holds them, each of which reads back from its line
  ghost predicate ItemsReadBack(items: Entries<string>, pretty: bool) {
    && Distinct(items)
    && forall i :: 0 <= i < |items| ==>
         Norm(items[i].0) == items[i].0 && Writable(items[i].0, items[i].1, pretty)
  }

  ghost predicate ReadsBack(data: Sections, pretty: bool) {
    && Distinct(data)
    && forall i :: 0 <= i < |data| ==>
         Norm(data[i].0) == data[i].0 && ';' !in data[i].0 && ItemsReadBack(data[i].1, pretty)
  }

  lemma NormalIsTrimmed(key: string)
    requires Norm(key) == key
    ensures Trimmed(key)
  {
    TrimIsTrimmed(key);
    LowerKeepsTrimmed(Trim(key));
  }

  lemma {:induction false} TrimsFacts(items: Entries<string>)
    ensures |Trims(items)| == |items|
    ensures forall i :: 0 <= i < |items| ==> Trims(items)[i] == (items[i].0, Trim(items[i].1))
  {
    if items != [] { TrimsFacts(items[..|items| - 1]); }
  }

  // Storing into the last section
  lemma StoreInLast(data: Sections, name: string, items: Entries<string>, key: string, value: string)
    requires !Has(data, name) && !Has(items, key)
    ensures Store(data + [(name, items)], name, key, value) == data + [(name, items + [(key, value)])]
  {
    var d := data + [(name, items)];
    assert d[|data|].0 == name && forall k :: 0 <= k < |data| ==> d[k] == data[k];
    assert Find(d, name) == |data|;
    assert Get(d, name, []) == items;
  }

  // Reading the keys of a section puts them, trimmed, in the order they were written
  lemma {:induction false} ReadKeyLines(data: Sections, name: string, items: Entries<string>, pretty: bool)
    requires !Has(data, name) && ItemsReadBack(items, pretty)
    ensures ReadFrom(Reading(data + [(name, [])], name, true), KeyLines(items, pretty))
         == Reading(data + [(name, Trims(items))], name, true)
  {
    if items != [] {
      var before, last := items[..|items| - 1], items[|items| - 1];
      ReadKeyLines(data, name, before, pretty);
      var r := Reading(data + [(name, [])], name, true);
      ReadOne(r, KeyLines(before, pretty), KeyLine(last.0, last.1, pretty));
      NormalIsTrimmed(last.0);
      KeyLineReads(last.0, last.1, pretty);
      TrimsFacts(before);
      assert !Has(Trims(before), last.0);
      StoreInLast(data, name, Trims(before), last.0, Trim(last.1));
    }
  }

  // A section that was not there yet is read back at the end
  lemma ReadBlock(r: Reading, section: (string, Entries<string>), pretty: bool)
    requires !Has(r.data, section.0) && Norm(section.0) == section.0 && ';' !in section.0
    requires ItemsReadBack(section.1, pretty)
    ensures ReadFrom(r, Block(section, pretty)) == Reading(r.data + [(section.0, Trims(section.1))], section.0, true)
  {
    var first := [SectionLine(section.0)];
    ReadOn(r, first, KeyLines(section.1, pretty));
    assert first == [] + first;
    ReadOne(r, [], SectionLine(section.0));
    NormalIsTrimmed(section.0);
    SectionLineReads(section.0);
    ReadKeyLines(r.data, section.0, section.1, pretty);
  }

  lemma BlankLineReads(r: Reading)
    ensures ReadFrom(r, [""]) == r
  {
    assert [""] == [] + [""];
    ReadOne(r, [], "");
  }

  lemma {:induction false} TrimsAllFacts(data: Sections)
    ensures |TrimsAll(data)| == |data|
    ensures forall i :: 0 <= i < |data| ==> TrimsAll(data)[i] == (data[i].0, Trims(data[i].1))
  {
    if data != [] { TrimsAllFacts(data[..|data| - 1]); }
  }

  lemma {:induction false} ReadBlocks(data: Sections, pretty: bool)
    requires ReadsBack(data, pretty)
    ensures Read(Blocks(data, pretty)).data == TrimsAll(data)
  {
    if data != [] {
      var n := |data| - 1;
      ReadBlocks(data[..n], pretty);
      NextBlock(data, n, pretty);
      assert data[..n + 1] == data;
      var before := Before(data[..n], pretty);
      if n > 0 && pretty {
        ReadOn(START, Blocks(data[..n], pretty), [""]);
        BlankLineReads(Read(Blocks(data[..n], pretty)));
      }
      assert Blocks(data[..n], pretty) + [] == Blocks(data[..n], pretty);
      assert Read(before).data == TrimsAll(data[..n]);
      ReadOn(START, before, Block(data[n], pretty));
      TrimsAllFacts(data[..n]);
      assert !Has(TrimsAll(data[..n]), data[n].0);
      ReadBlock(Read(before), data[n], pretty);
    }
  }

  // ---------- the text ----------

  ghost predicate PlainItems(items: Entries<string>) {
    forall i :: 0 <= i < |items| ==> Plain(items[i].0) && Plain(items[i].1)
  }

  // No line end or dropped character in a name, key or value
  ghost predicate PlainData(data: Sections) {
    forall i :: 0 <= i < |data| ==> Plain(data[i].0) && PlainItems(data[i].1)
  }

  lemma PlainKeyLine(key: string, value: string, pretty: bool)
    requires Plain(key) && Plain(value)
    ensures Plain(KeyLine(key, value, pretty))
  {
    var w, z := TrimParts(value);
    var line := KeyLine(key, value, pretty);
    forall k | 0 <= k < |line| ensures line[k] != '\n' && line[k] != '\r' && line[k] != '\0' {
      assert line[k] in Escape(key) || line[k] in Separator(pretty) || line[k] in Trim(value);
      if line[k] != '\\' { EscapeChars(key, line[k]); }
      if line[k] in Trim(value) { assert line[k] in value; }
    }
  }

  lemma {:induction false} PlainKeyLines(items: Entries<string>, pretty: bool)
    requires PlainItems(items)
    ensures AllPlain(KeyLines(items, pretty))
  {
    if items != [] {
      PlainKeyLines(items[..|items| - 1], pretty);
      PlainKeyLine(items[|items| - 1].0, items[|items| - 1].1, pretty);
    }
  }

  lemma {:induction false} PlainBlocks(data: Sections, pretty: bool)
    requires PlainData(data)
    ensures AllPlain(Blocks(data, pretty))
    ensures data != [] ==> Blocks(data, pretty) != [] && Blocks(data, pretty)[0] == SectionLine(data[0].0)
  {
    if data != [] {
      var n := |data| - 1;
      PlainBlocks(data[..n], pretty);
      PlainKeyLines(data[n].1, pretty);
      assert Plain(SectionLine(data[n].0));
      NextBlock(data, n, pretty);
      assert data[..n + 1] == data;
    }
  }

  // Reading the file that was generated gives the same sections and keys in the same order,
  // and the values without the spaces around them
  lemma GeneratedFileRoundTrip(data: Sections, pretty: bool)
    requires ReadsBack(data, pretty) && PlainData(data)
    ensures Read(Lines(Join(Blocks(data, pretty)))).data == TrimsAll(data)
  {
    PlainBlocks(data, pretty);
    LinesRoundTrip(Blocks(data, pretty));
    ReadBlocks(data, pretty);
  }
}
