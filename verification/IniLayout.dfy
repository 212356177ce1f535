/** What the lazy writer of lib/mini/ini.h keeps of a file besides its meaning: the comments, the order of the
    sections, and keys that stand together. */
module IniLayout {

  import opened IniText
  import opened IniLines
  import opened IniEntries
  import opened IniFile
  import opened IniModel
  import opened IniRewrite
  import opened IniLazy
  import opened IniMeaning
  import opened IniSplit
  import opened IniWriter

  // ---------- lines of one kind ----------

  datatype Kind = Comments | Headers | Blanks

  predicate Is(kind: Kind, line: string) {
    match kind
    case Comments => ParseLine(line).Comment?
    case Headers => ParseLine(line).Section?
    case Blanks => ParseLine(line).Blank?
  }

  function Only(kind: Kind, lines: seq<string>): seq<string> {
    if lines == [] then []
    else
      var last := lines[|lines| - 1];
      Only(kind, lines[..|lines| - 1]) + (if Is(kind, last) then [last] else [])
  }

  lemma {:induction false} OnlyJoined(kind: Kind, a: seq<string>, b: seq<string>)
    ensures Only(kind, a + b) == Only(kind, a) + Only(kind, b)
  {
    hide Is;
    if b == [] {
      assert a + b == a;
    } else {
      var n := |b| - 1;
      OnlyJoined(kind, a, b[..n]);
      assert (a + b)[..|a + b| - 1] == a + b[..n] && (a + b)[|a + b| - 1] == b[n];
    }
  }

  lemma OnlyOne(kind: Kind, line: string)
    ensures Only(kind, [line]) == if Is(kind, line) then [line] else []
  {
    assert [line][..0] == [];
  }

  lemma {:induction false} NoneOf(kind: Kind, lines: seq<string>)
    requires forall k :: 0 <= k < |lines| ==> ParseLine(lines[k]).KeyValue?
    ensures Only(kind, lines) == []
  {
    if lines != [] { NoneOf(kind, lines[..|lines| - 1]); }
  }

  // ---------- the lines of new items ----------

  lemma {:induction false} NewLinesAreKeys(items: Entries<string>, pretty: bool)
    requires ItemsReadBack(items, pretty)
    ensures forall k :: 0 <= k < |KeyLines(items, pretty)| ==> ParseLine(KeyLines(items, pretty)[k]).KeyValue?
  {
    hide Norm, Writable, ParseLine, KeyLine;
    if items != [] {
      var last := items[|items| - 1];
      NewLinesAreKeys(items[..|items| - 1], pretty);
      NormalIsTrimmed(last.0);
      KeyLineReads(last.0, last.1, pretty);
    }
  }

  lemma NewItemsReadBack(data: Sections, original: Sections, pretty: bool, section: string)
    requires Fits(data, original, pretty)
    ensures ItemsReadBack(NewItems(data, original, section), pretty)
  {
    hide Fits, ItemsFit, ItemsReadBack;
    if Has(data, section) && Has(original, section) {
      SectionFits(data, original, pretty, section);
      MissingReadsBack(Get(data, section, []), Get(original, section, []), pretty);
    } else {
      NothingReadsBack(pretty);
    }
  }

  lemma NothingReadsBack(pretty: bool)
    ensures ItemsReadBack([], pretty)
  {
  }

  lemma FlushAddsKeys(d: Draft, data: Sections, original: Sections, pretty: bool) returns (add: seq<string>)
    requires Fits(data, original, pretty)
    ensures Flush(d, data, original, pretty) == d.(head := d.head + add)
    ensures forall k :: 0 <= k < |add| ==> ParseLine(add[k]).KeyValue?
  {
    hide Fits, ItemsReadBack, ParseLine;
    add := KeyLines(NewItems(data, original, d.section), pretty);
    NewItemsReadBack(data, original, pretty, d.section);
    NewLinesAreKeys(NewItems(data, original, d.section), pretty);
  }

  // A key line of a wanted item: what goes out is a key line, and its key is one of the file
  lemma ItemGoesOut(d: Draft, q: Reading, line: string, data: Sections, original: Sections, pretty: bool)
    returns (out: string)
    requires Fits(data, original, pretty) && Follows(d, q, View(data), View(original))
    requires ParseLine(line).KeyValue? && q.inside && Covers(View(original), View(Step(q, line).data))
    ensures var d' := Item(d, line, data, pretty);
            || d' == d
            || (&& d' == d.(head := d.head + d.tail + [out], tail := [])
                && d.parsing && ParseLine(out).KeyValue? && ParseLine(out).key == ParseLine(line).key
                && d.section in View(original) && Norm(ParseLine(line).key) in View(original)[d.section])
  {
    hide ParseLine, Norm, Find, View, Right, Rewritten, AllRight, Neutral;
    var key, items := Norm(ParseLine(line).key), Get(data, d.section, []);
    GetView(data, d.section);
    StepView(q, line);
    out := line;
    if !d.skipping && Has(data, d.section) && Has(items, key) {
      OldKeyFits(data, original, pretty, d.section, key);
      out := OutputItem(line, items, pretty);
    }
  }

  // ---------- comments and headers ----------

  // What one line leaves of its kind; discards says that it comes behind the header of a section that is given up
  function Leaves(kind: Kind, data: Sections, line: string, discards: bool): seq<string> {
    match ParseLine(line)
    case Comment => if kind == Comments then [line] else []
    case Section(name) => if kind == Headers && Has(data, Norm(name)) then [line] else []
    case Blank => if kind == Blanks && !(discards && line == "") then [line] else []
    case _ => []
  }

  // The last header is that of a section that is given up, and there was no empty line since
  predicate Discards(data: Sections, lines: seq<string>) {
    lines != [] &&
    (var last := lines[|lines| - 1];
     if ParseLine(last).Section? then !Has(data, Norm(ParseLine(last).name))
     else last != "" && Discards(data, lines[..|lines| - 1]))
  }

  lemma FlushLeaves(kind: Kind, d: Draft, data: Sections, original: Sections, pretty: bool)
    requires Fits(data, original, pretty)
    ensures Only(kind, Output(Flush(d, data, original, pretty))) == Only(kind, Output(d))
  {
    hide Fits, Flush, Only, ParseLine;
    var add := FlushAddsKeys(d, data, original, pretty);
    NoneOf(kind, add);
    OnlyJoined(kind, d.head + add, d.tail);
    OnlyJoined(kind, d.head, add);
    OnlyJoined(kind, d.head, d.tail);
    assert Only(kind, d.head) + [] == Only(kind, d.head);
  }

  lemma SketchLeaves(
    kind: Kind, d: Draft, q: Reading, line: string, data: Sections, original: Sections, pretty: bool)
    requires Fits(data, original, pretty) && Follows(d, q, View(data), View(original))
    requires Keeps(q.inside, line) && Covers(View(original), View(Step(q, line).data))
    ensures Only(kind, Output(Sketch(d, line, data, original, pretty))) ==
            Only(kind, Output(d)) + Leaves(kind, data, line, d.discard)
  {
    hide Fits, Follows, Covers, View, Flush, Only, ParseLine, Norm, Has, Item;
    var before := Only(kind, Output(d));
    OnlyOne(kind, line);
    assert before + [] == before;
    match ParseLine(line) {
      case Section(name) =>
        var c := Closed(d, data, original, pretty);
        FlushLeaves(kind, d, data, original, pretty);
        SketchSection(d, line, data, original, pretty);
        assert Only(kind, Output(c)) == before;
        if Has(data, Norm(name)) {
          assert Output(Header(c, Norm(name), line, data)) == Output(c) + [line];
          OnlyJoined(kind, Output(c), [line]);
        }
      case KeyValue(_, _) =>
        var out := ItemGoesOut(d, q, line, data, original, pretty);
        var d' := Item(d, line, data, pretty);
        if d' != d {
          assert Output(d') == Output(d) + [out];
          OnlyJoined(kind, Output(d), [out]);
          OnlyOne(kind, out);
        }
      case _ =>
        SketchOther(d, line, data, original, pretty);
        OnlyJoined(kind, Output(d), [line]);
        EmptyIsBlank();
    }
  }

  lemma EmptyIsBlank()
    ensures ParseLine("").Blank?
  {
  }

  function LeavesAll(kind: Kind, data: Sections, lines: seq<string>): seq<string> {
    if lines == [] then []
    else
      var before, last := lines[..|lines| - 1], lines[|lines| - 1];
      LeavesAll(kind, data, before) + Leaves(kind, data, last, Discards(data, before))
  }

  lemma {:induction false} DraftLeaves(kind: Kind, file: seq<string>, n: nat, data: Sections, pretty: bool)
    requires Fits(data, Read(file).data, pretty) && n <= |file|
    ensures Only(kind, Output(Draw(Kept(file[..n]), data, Read(file).data, pretty))) ==
            LeavesAll(kind, data, file[..n])
    ensures Draw(Kept(file[..n]), data, Read(file).data, pretty).discard == Discards(data, file[..n])
  {
    hide Follows, Covers, View, Fits, Sketch, Step, ParseLine, Only, Leaves, LeavesAll, Draw, Kept, Keeps, Discards;
    var original := Read(file).data;
    if n == 0 {
      assert file[..0] == [];
      NothingFromNothing(data, original, pretty);
      NothingDrawn(kind, data);
    } else {
      var before, line := file[..n - 1], file[n - 1];
      assert file[..n] == before + [line];
      DraftLeaves(kind, file, n - 1, data, pretty);
      KeptMore(before, line);
      LeavesMore(kind, data, before, line);
      DiscardsMore(data, before, line);
      if Keeps(Read(before).inside, line) {
        DraftFollows(file, n - 1, data, pretty);
        ReadingGrows(file, n);
        ReadOne(START, before, line);
        DrawMore(Kept(before), line, data, original, pretty);
        SketchLeaves(kind, Draw(Kept(before), data, original, pretty), Read(before), line, data, original, pretty);
        SketchDiscards(Draw(Kept(before), data, original, pretty), line, data, original, pretty);
      } else {
        DroppedLeaves(kind, Read(before).inside, data, line, Discards(data, before));
        assert LeavesAll(kind, data, before) + [] == LeavesAll(kind, data, before);
      }
    }
  }

  lemma LeavesMore(kind: Kind, data: Sections, lines: seq<string>, line: string)
    ensures LeavesAll(kind, data, lines + [line]) ==
            LeavesAll(kind, data, lines) + Leaves(kind, data, line, Discards(data, lines))
  {
    assert (lines + [line])[..|lines|] == lines;
  }

  lemma DiscardsMore(data: Sections, lines: seq<string>, line: string)
    ensures Discards(data, lines + [line]) ==
            if ParseLine(line).Section? then !Has(data, Norm(ParseLine(line).name))
            else line != "" && Discards(data, lines)
  {
    assert (lines + [line])[..|lines|] == lines;
  }

  lemma SketchDiscards(d: Draft, line: string, data: Sections, original: Sections, pretty: bool)
    ensures Sketch(d, line, data, original, pretty).discard ==
            if ParseLine(line).Section? then !Has(data, Norm(ParseLine(line).name))
            else line != "" && d.discard
  {
    hide Norm, Find, ParseLine, Flush;
    EmptyIsBlank();
  }

  lemma DrawMore(lines: seq<string>, line: string, data: Sections, original: Sections, pretty: bool)
    ensures Draw(lines + [line], data, original, pretty) ==
            Sketch(Draw(lines, data, original, pretty), line, data, original, pretty)
  {
    assert (lines + [line])[..|lines|] == lines;
  }

  lemma NothingDrawn(kind: Kind, data: Sections)
    ensures Only(kind, Output(BLANK)) == [] && LeavesAll(kind, data, []) == [] && !Discards(data, [])
  {
    assert Output(BLANK) == [];
  }

  lemma DroppedLeaves(kind: Kind, inside: bool, data: Sections, line: string, discards: bool)
    requires !Keeps(inside, line)
    ensures Leaves(kind, data, line, discards) == [] && !ParseLine(line).Section? && line != ""
  {
    EmptyIsBlank();
  }

  // The headers of the sections that the original does not have
  function NewHeaders(data: Sections, original: Sections): seq<string> {
    if data == [] then []
    else
      var last := data[|data| - 1];
      NewHeaders(data[..|data| - 1], original)
      + (if Has(original, Norm(last.0)) then [] else ["[" + last.0 + "]"])
  }

  lemma NewSectionLine(name: string)
    requires Norm(name) == name && ';' !in name
    ensures SectionLine(name) == "[" + name + "]" && ParseLine(SectionLine(name)).Section?
  {
    NormalIsTrimmed(name);
    SectionLineReads(name);
  }

  lemma BlockLeaves(kind: Kind, section: (string, Entries<string>), pretty: bool)
    requires Norm(section.0) == section.0 && ';' !in section.0 && ItemsReadBack(section.1, pretty)
    ensures Only(kind, Block(section, pretty)) == if kind == Headers then ["[" + section.0 + "]"] else []
  {
    hide ParseLine, Norm, Only, ItemsReadBack;
    var first := SectionLine(section.0);
    NewSectionLine(section.0);
    NewLinesAreKeys(section.1, pretty);
    NoneOf(kind, KeyLines(section.1, pretty));
    OnlyJoined(kind, [first], KeyLines(section.1, pretty));
    OnlyOne(kind, first);
  }

  lemma {:induction false} ExtendedLeaves(
    kind: Kind, out: seq<string>, data: Sections, original: Sections, pretty: bool)
    requires Fits(data, original, pretty) && kind != Blanks
    ensures Only(kind, Extended(out, data, original, pretty)) ==
            Only(kind, out) + (if kind == Headers then NewHeaders(data, original) else [])
  {
    hide Fits, ParseLine, Norm, Only, ItemsReadBack, Has, Block;
    if data == [] {
      assert Only(kind, out) + [] == Only(kind, out);
    } else {
      var init, last := data[..|data| - 1], data[|data| - 1];
      var before := Extended(out, init, original, pretty);
      FitsInit(data, original, pretty);
      ExtendedLeaves(kind, out, init, original, pretty);
      if !Has(original, last.0) {
        GapLeaves(kind, before, pretty);
        BlockLeaves(kind, last, pretty);
        OnlyJoined(kind, before, Gap(before, pretty));
        OnlyJoined(kind, before + Gap(before, pretty), Block(last, pretty));
      }
    }
  }

  lemma GapLeaves(kind: Kind, out: seq<string>, pretty: bool)
    ensures kind != Blanks ==> Only(kind, Gap(out, pretty)) == []
  {
    EmptyIsBlank();
    OnlyOne(kind, "");
  }

  lemma RevisedLeaves(kind: Kind, file: seq<string>, data: Sections, pretty: bool)
    requires Suits(data, Read(file).data, pretty)
    ensures Only(kind, Revised(Kept(file), data, Read(file).data, pretty)) == LeavesAll(kind, data, file)
  {
    hide Suits, Fits, Only, Draw, Read, Kept;
    var original := Read(file).data;
    SuitsFits(file, data, pretty);
    DraftLeaves(kind, file, |file|, data, pretty);
    assert file[..|file|] == file;
    FlushLeaves(kind, Draw(Kept(file), data, original, pretty), data, original, pretty);
    NothingDrawn(kind, data);
    if Kept(file) == [] { NothingFromNothing(data, original, pretty); }
  }

  lemma OutputLeaves(kind: Kind, file: seq<string>, data: Sections, pretty: bool)
    requires Suits(data, Read(file).data, pretty) && kind != Blanks
    ensures var original := Read(file).data;
            Only(kind, LazyOutput(Kept(file), data, original, pretty)) ==
            LeavesAll(kind, data, file) + (if kind == Headers then NewHeaders(data, original) else [])
  {
    hide Suits, Fits, Only, Revised, Read, Kept;
    SuitsFits(file, data, pretty);
    RevisedLeaves(kind, file, data, pretty);
    ExtendedLeaves(kind, Revised(Kept(file), data, Read(file).data, pretty), data, Read(file).data, pretty);
  }

  lemma NothingFromNothing(data: Sections, original: Sections, pretty: bool)
    ensures Kept([]) == [] && Draw([], data, original, pretty) == BLANK && Output(BLANK) == []
  {
  }

  lemma {:induction false} CommentsLeft(data: Sections, file: seq<string>)
    ensures LeavesAll(Comments, data, file) == Only(Comments, file)
  {
    if file != [] { CommentsLeft(data, file[..|file| - 1]); }
  }

  // Whatever is written, the comments of the file are all in the output, in their order, and no line becomes a comment
  lemma CommentsSurvive(file: seq<string>, data: Sections, pretty: bool)
    requires Suits(data, Read(file).data, pretty)
    ensures Only(Comments, LazyOutput(Kept(file), data, Read(file).data, pretty)) == Only(Comments, file)
  {
    hide Suits;
    OutputLeaves(Comments, file, data, pretty);
    CommentsLeft(data, file);
    assert LeavesAll(Comments, data, file) + [] == LeavesAll(Comments, data, file);
  }

  // So it is with the texts of the files
  lemma WrittenCommentsSurvive(text: string, data: Sections, pretty: bool)
    requires Suits(data, Read(Lines(text)).data, pretty) && PlainData(data)
    ensures Only(Comments, Lines(NewContents(Present(text), data, pretty))) == Only(Comments, Lines(text))
  {
    hide Suits, PlainData, Read, LazyOutput;
    var lines := Lines(text);
    var out := LazyOutput(Kept(lines), data, Read(lines).data, pretty);
    CommentsSurvive(lines, data, pretty);
    LinesArePlain(text);
    PlainKept(lines);
    PlainOutput(Kept(lines), data, Read(lines).data, pretty);
    LinesRoundTrip(out);
    if out == [""] {
      EmptyIsBlank();
      OnlyOne(Comments, "");
      assert Lines(Join(out)) == [];
    }
  }

  // The headers of a file that are still wanted
  function StillWanted(file: seq<string>, data: Sections): seq<string> {
    if file == [] then []
    else
      var last := file[|file| - 1];
      StillWanted(file[..|file| - 1], data)
      + (if ParseLine(last).Section? && Has(data, Norm(ParseLine(last).name)) then [last] else [])
  }

  lemma {:induction false} HeadersLeft(data: Sections, file: seq<string>)
    ensures LeavesAll(Headers, data, file) == StillWanted(file, data)
  {
    if file != [] { HeadersLeft(data, file[..|file| - 1]); }
  }

  // The headers of the output are those of the file whose section is still wanted, as they were and in their order, and
  // then those of the new sections, in the order of the data
  lemma HeadersInOrder(file: seq<string>, data: Sections, pretty: bool)
    requires Suits(data, Read(file).data, pretty)
    ensures Only(Headers, LazyOutput(Kept(file), data, Read(file).data, pretty)) ==
            StillWanted(file, data) + NewHeaders(data, Read(file).data)
  {
    hide Suits, Only;
    OutputLeaves(Headers, file, data, pretty);
    HeadersLeft(data, file);
  }

  // The blank lines of a file, but for the first empty line behind the header of a section that is given up
  function BlanksLeft(file: seq<string>, data: Sections): seq<string> {
    if file == [] then []
    else
      var before, last := file[..|file| - 1], file[|file| - 1];
      BlanksLeft(before, data)
      + (if ParseLine(last).Blank? && !(last == "" && Discards(data, before)) then [last] else [])
  }

  lemma {:induction false} BlanksAreLeft(data: Sections, file: seq<string>)
    ensures LeavesAll(Blanks, data, file) == BlanksLeft(file, data)
  {
    if file != [] { BlanksAreLeft(data, file[..|file| - 1]); }
  }

  // Exactly these blank lines are in the output, in their order, before the new sections
  lemma BlanksSurvive(file: seq<string>, data: Sections, pretty: bool)
    requires Suits(data, Read(file).data, pretty)
    ensures Only(Blanks, Revised(Kept(file), data, Read(file).data, pretty)) == BlanksLeft(file, data)
  {
    hide Suits, Only;
    RevisedLeaves(Blanks, file, data, pretty);
    BlanksAreLeft(data, file);
  }

  // ---------- keys stand together ----------

  // A header or a key line
  predicate AtKeys(line: string) {
    ParseLine(line).Section? || ParseLine(line).KeyValue?
  }

  // Line i gives a value to a key that the old file does not have in that section
  ghost predicate NewKeyAt(out: seq<string>, i: nat, orig: Model)
    requires i < |out|
  {
    var p, section := ParseLine(out[i]), Read(out[..i]).section;
    p.KeyValue? && (section in orig ==> Norm(p.key) !in orig[section])
  }

  // Every such line stands directly behind a header or another key line: no comment or empty line comes in between
  ghost predicate Together(out: seq<string>, orig: Model) {
    forall i :: 0 <= i < |out| && NewKeyAt(out, i, orig) ==> i > 0 && AtKeys(out[i - 1])
  }

  lemma TogetherMore(out: seq<string>, line: string, orig: Model)
    requires Together(out, orig)
    requires (out != [] && AtKeys(out[|out| - 1])) || !NewKeyAt(out + [line], |out|, orig)
    ensures Together(out + [line], orig)
  {
    hide AtKeys;
    var more := out + [line];
    forall i | 0 <= i < |more| && NewKeyAt(more, i, orig) ensures i > 0 && AtKeys(more[i - 1]) {
      assert more[..i] == out[..i];
      if i < |out| { assert NewKeyAt(out, i, orig); }
    }
  }

  lemma TogetherPrefix(out: seq<string>, more: seq<string>, orig: Model)
    requires Together(out + more, orig)
    ensures Together(out, orig)
  {
    hide AtKeys;
    forall i | 0 <= i < |out| && NewKeyAt(out, i, orig) ensures i > 0 && AtKeys(out[i - 1]) {
      assert (out + more)[..i] == out[..i];
      assert NewKeyAt(out + more, i, orig);
    }
  }

  lemma {:induction false} TogetherRest(out: seq<string>, rest: seq<string>, orig: Model)
    requires Together(out, orig)
    requires forall k :: 0 <= k < |rest| ==> !ParseLine(rest[k]).KeyValue?
    ensures Together(out + rest, orig)
  {
    hide ParseLine, Together;
    if rest == [] {
      assert out + rest == out;
    } else {
      var n := |rest| - 1;
      TogetherRest(out, rest[..n], orig);
      assert out + rest == out + rest[..n] + [rest[n]];
      TogetherMore(out + rest[..n], rest[n], orig);
    }
  }

  lemma {:induction false} TogetherKeys(out: seq<string>, add: seq<string>, orig: Model)
    requires Together(out, orig) && out != [] && AtKeys(out[|out| - 1])
    requires forall k :: 0 <= k < |add| ==> ParseLine(add[k]).KeyValue?
    ensures Together(out + add, orig)
  {
    hide ParseLine, Together, NewKeyAt;
    if add == [] {
      assert out + add == out;
    } else {
      var n := |add| - 1;
      TogetherKeys(out, add[..n], orig);
      assert out + add == out + add[..n] + [add[n]];
      TogetherMore(out + add[..n], add[n], orig);
    }
  }

  // In a kept section the head ends where its keys end
  ghost predicate HeadEnds(d: Draft) {
    d.parsing ==> d.head != [] && AtKeys(d.head[|d.head| - 1])
  }

  lemma FlushTogether(d: Draft, data: Sections, original: Sections, pretty: bool, orig: Model)
    requires Fits(data, original, pretty) && Neutral(d.tail) && HeadEnds(d) && d.parsing
    requires Together(Output(d), orig)
    ensures Together(Output(Flush(d, data, original, pretty)), orig)
  {
    hide Fits, Together, AtKeys, Flush;
    var add := FlushAddsKeys(d, data, original, pretty);
    TogetherPrefix(d.head, d.tail, orig);
    TogetherKeys(d.head, add, orig);
    TogetherRest(d.head + add, d.tail, orig);
  }

  lemma ClosedTogether(d: Draft, q: Reading, data: Sections, original: Sections, pretty: bool)
    requires Fits(data, original, pretty) && Follows(d, q, View(data), View(original))
    requires HeadEnds(d) && Together(Output(d), View(original))
    ensures Together(Output(Closed(d, data, original, pretty)), View(original))
  {
    hide Fits, Together, View, HeadEnds, InPlace, AllRight, Neutral;
    if d.parsing {
      FlushTogether(d, data, original, pretty, View(original));
      assert Output(Closed(d, data, original, pretty)) == Output(Flush(d, data, original, pretty));
    }
  }

  lemma OldKeyIsNotNew(d: Draft, q: Reading, line: string, out: string, want: Model, orig: Model)
    requires Follows(d, q, want, orig) && d.parsing
    requires ParseLine(out).KeyValue? && ParseLine(line).KeyValue? && ParseLine(out).key == ParseLine(line).key
    requires d.section in orig && Norm(ParseLine(line).key) in orig[d.section]
    ensures !NewKeyAt(Output(d) + [out], |Output(d)|, orig)
  {
    hide ParseLine, Norm, AllRight, View, Neutral;
    assert (Output(d) + [out])[..|Output(d)|] == Output(d);
  }

  lemma SketchTogether(d: Draft, q: Reading, line: string, data: Sections, original: Sections, pretty: bool)
    requires Fits(data, original, pretty) && Follows(d, q, View(data), View(original))
    requires Keeps(q.inside, line) && Covers(View(original), View(Step(q, line).data))
    requires HeadEnds(d) && Together(Output(d), View(original))
    ensures var d' := Sketch(d, line, data, original, pretty);
            HeadEnds(d') && Together(Output(d'), View(original))
  {
    hide Fits, Follows, Covers, View, Flush, ParseLine, Norm, Has, Item, Together;
    var orig := View(original);
    match ParseLine(line) {
      case Section(name) =>
        var c := Closed(d, data, original, pretty);
        ClosedTogether(d, q, data, original, pretty);
        SketchSection(d, line, data, original, pretty);
        if Has(data, Norm(name)) {
          assert Output(Header(c, Norm(name), line, data)) == Output(c) + [line];
          TogetherMore(Output(c), line, orig);
        }
      case KeyValue(_, _) =>
        var out := ItemGoesOut(d, q, line, data, original, pretty);
        var d' := Item(d, line, data, pretty);
        if d' != d {
          assert Output(d') == Output(d) + [out];
          OldKeyIsNotNew(d, q, line, out, View(data), orig);
          TogetherMore(Output(d), out, orig);
        }
      case _ =>
        SketchOther(d, line, data, original, pretty);
        TogetherMore(Output(d), line, orig);
    }
  }

  lemma {:induction false} DraftTogether(file: seq<string>, n: nat, data: Sections, pretty: bool)
    requires Fits(data, Read(file).data, pretty) && n <= |file|
    ensures var original := Read(file).data;
            var d := Draw(Kept(file[..n]), data, original, pretty);
            HeadEnds(d) && Together(Output(d), View(original))
  {
    hide Follows, Covers, View, Fits, Sketch, Step, ParseLine, Draw, Kept, Keeps, HeadEnds, Together;
    var original := Read(file).data;
    if n == 0 {
      assert file[..0] == [];
      NothingFromNothing(data, original, pretty);
      NothingTogether(View(original));
    } else {
      var before, line := file[..n - 1], file[n - 1];
      assert file[..n] == before + [line];
      DraftTogether(file, n - 1, data, pretty);
      KeptMore(before, line);
      if Keeps(Read(before).inside, line) {
        DraftFollows(file, n - 1, data, pretty);
        ReadingGrows(file, n);
        ReadOne(START, before, line);
        DrawMore(Kept(before), line, data, original, pretty);
        SketchTogether(Draw(Kept(before), data, original, pretty), Read(before), line, data, original, pretty);
      }
    }
  }

  lemma NothingTogether(orig: Model)
    ensures HeadEnds(BLANK) && Together(Output(BLANK), orig)
  {
  }

  lemma RevisedTogether(file: seq<string>, data: Sections, pretty: bool)
    requires Fits(data, Read(file).data, pretty)
    ensures var original := Read(file).data;
            Together(Revised(Kept(file), data, original, pretty), View(original))
  {
    hide Fits, Draw, Read, Kept, Together, HeadEnds, View, AllRight, InPlace, Neutral, Flush;
    var original := Read(file).data;
    var d := Draw(Kept(file), data, original, pretty);
    DraftTogether(file, |file|, data, pretty);
    DraftFollows(file, |file|, data, pretty);
    assert file[..|file|] == file;
    NothingTogether(View(original));
    if Kept(file) == [] {
      NothingFromNothing(data, original, pretty);
    } else if d.parsing {
      FlushTogether(d, data, original, pretty, View(original));
    } else {
      UnparsedEnds(d, Read(file), data, pretty);
    }
  }

  lemma BlockTogether(out: seq<string>, section: (string, Entries<string>), pretty: bool, orig: Model)
    requires Norm(section.0) == section.0 && ';' !in section.0 && ItemsReadBack(section.1, pretty)
    requires Together(out, orig)
    ensures Together(out + Gap(out, pretty) + Block(section, pretty), orig)
  {
    hide Norm, ParseLine, ItemsReadBack, Together, NewKeyAt;
    var first, add := SectionLine(section.0), KeyLines(section.1, pretty);
    var gap := out + Gap(out, pretty);
    EmptyIsBlank();
    NewSectionLine(section.0);
    NewLinesAreKeys(section.1, pretty);
    TogetherRest(out, Gap(out, pretty), orig);
    TogetherRest(gap, [first], orig);
    TogetherKeys(gap + [first], add, orig);
    assert gap + [first] + add == gap + ([first] + add);
  }

  lemma {:induction false} ExtendedTogether(
    out: seq<string>, data: Sections, original: Sections, pretty: bool, orig: Model)
    requires Fits(data, original, pretty) && Together(out, orig)
    ensures Together(Extended(out, data, original, pretty), orig)
  {
    hide Fits, Norm, Together, ItemsReadBack, Has, Block, Gap;
    if data != [] {
      var init, last := data[..|data| - 1], data[|data| - 1];
      FitsInit(data, original, pretty);
      ExtendedTogether(out, init, original, pretty, orig);
      if !Has(original, last.0) {
        BlockTogether(Extended(out, init, original, pretty), last, pretty, orig);
      }
    }
  }

  // Whatever is written, the lines of keys that are new stand directly behind a header or another key line: in front of
  // the comments and empty lines that follow the keys of a section
  lemma NewKeysStandWithKeys(file: seq<string>, data: Sections, pretty: bool)
    requires Suits(data, Read(file).data, pretty)
    ensures Together(LazyOutput(Kept(file), data, Read(file).data, pretty), View(Read(file).data))
  {
    hide Suits, Fits, Read, Kept, Together, View, Extended, Revised;
    var original := Read(file).data;
    SuitsFits(file, data, pretty);
    RevisedTogether(file, data, pretty);
    ExtendedTogether(Revised(Kept(file), data, original, pretty), data, original, pretty, View(original));
  }
}
