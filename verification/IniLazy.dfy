/** The lazy writer of lib/mini/ini.h: the old lines are kept where they can be. */
module IniLazy {

  import opened IniText
  import opened IniLines
  import opened IniEntries
  import opened IniMapClass
  import opened IniFile
  import opened IniRewrite

  // The output so far, cut behind the last line of the current section that is a header or a key,
  // and the section the old lines are in: its name, and whether it is kept or left out
  datatype Draft = Draft(
    head: seq<string>, tail: seq<string>, section: string, parsing: bool, skipping: bool, discard: bool)

  const BLANK := Draft([], [], "", false, false, false)

  function Output(d: Draft): seq<string> {
    d.head + d.tail
  }

  // Items with a key that the original does not have
  function Missing(items: Entries<string>, original: Entries<string>): Entries<string> {
    if items == [] then []
    else
      var last := items[|items| - 1];
      Missing(items[..|items| - 1], original) + (if Has(original, Norm(last.0)) then [] else [last])
  }

  function NewItems(data: Sections, original: Sections, section: string): Entries<string> {
    if Has(data, section) && Has(original, section)
    then Missing(Get(data, section, []), Get(original, section, []))
    else []
  }

  // The new keys of the current section go behind its last key, before the comments that follow it
  function Flush(d: Draft, data: Sections, original: Sections, pretty: bool): Draft {
    d.(head := d.head + KeyLines(NewItems(data, original, d.section), pretty))
  }

  function Closed(d: Draft, data: Sections, original: Sections, pretty: bool): Draft {
    if d.parsing then Flush(d, data, original, pretty).(parsing := false) else d
  }

  lemma HasSign(line: string)
    requires ParseLine(line).KeyValue?
    ensures EqualsAt(line) < |line|
  {
    var x := ShapeOf(line);
  }

  function Header(d: Draft, section: string, line: string, data: Sections): Draft {
    if Has(data, section) then Draft(d.head + d.tail + [line], [], section, true, false, false)
    else d.(section := section, skipping := true, discard := true)
  }

  function Item(d: Draft, line: string, data: Sections, pretty: bool): Draft
    requires ParseLine(line).KeyValue?
  {
    HasSign(line);
    var value, key := ParseLine(line).value, Norm(ParseLine(line).key);
    var items := Get(data, d.section, []);
    if d.skipping || !Has(data, d.section) || !Has(items, key) then d
    else
      var wanted := Get(items, key, "");
      var out := if value == wanted then line else Rewritten(line, Trim(wanted), pretty);
      d.(head := d.head + d.tail + [out], tail := [])
  }

  // One line of the old file
  function Sketch(d: Draft, line: string, data: Sections, original: Sections, pretty: bool): Draft {
    match ParseLine(line)
    case Section(name) =>
      Header(Closed(d, data, original, pretty), Norm(name), line, data)
    case KeyValue(_, _) => Item(d, line, data, pretty)
    case Unknown => if d.discard && line == "" then d.(discard := false) else d
    case _ => if d.discard && line == "" then d.(discard := false) else d.(tail := d.tail + [line])
  }

  function Draw(lines: seq<string>, data: Sections, original: Sections, pretty: bool): Draft {
    if lines == [] then BLANK
    else Sketch(Draw(lines[..|lines| - 1], data, original, pretty), lines[|lines| - 1], data, original, pretty)
  }

  // The old lines with the changes, before the new sections
  function Revised(lines: seq<string>, data: Sections, original: Sections, pretty: bool): seq<string> {
    if lines == [] then [] else Output(Flush(Draw(lines, data, original, pretty), data, original, pretty))
  }

  function Gap(out: seq<string>, pretty: bool): seq<string> {
    if pretty && out != [] && out[|out| - 1] != "" then [""] else []
  }

  // Sections the original does not have go to the end
  function Extended(out: seq<string>, data: Sections, original: Sections, pretty: bool): seq<string> {
    if data == [] then out
    else
      var before, last := Extended(out, data[..|data| - 1], original, pretty), data[|data| - 1];
      if Has(original, Norm(last.0)) then before else before + Gap(before, pretty) + Block(last, pretty)
  }

  function LazyOutput(lines: seq<string>, data: Sections, original: Sections, pretty: bool): seq<string> {
    Extended(Revised(lines, data, original, pretty), data, original, pretty)
  }

  // ---------- the loops ----------

  method LinesToAdd(collection: Entries<string>, collectionOriginal: Entries<string>, prettyPrint: bool)
    returns (linesToAdd: seq<string>)
    ensures linesToAdd == KeyLines(Missing(collection, collectionOriginal), prettyPrint)
  {
    linesToAdd := [];
    for i := 0 to |collection|
      invariant linesToAdd == KeyLines(Missing(collection[..i], collectionOriginal), prettyPrint)
    {
      var key, value := collection[i].0, collection[i].1;
      MissingMore(collection, i, collectionOriginal);
      if Has(collectionOriginal, Norm(key)) {
        continue;
      }
      key := ReplaceAll(key, "=", ESCAPED_EQ);
      KeyLinesMore(Missing(collection[..i], collectionOriginal), collection[i], prettyPrint);
      linesToAdd := linesToAdd + [key + (if prettyPrint then " = " else "=") + Trim(value)];
    }
    assert collection[..|collection|] == collection;
  }

  lemma MissingMore(items: Entries<string>, i: nat, original: Entries<string>)
    requires i < |items|
    ensures Missing(items[..i + 1], original)
         == if Has(original, Norm(items[i].0)) then Missing(items[..i], original)
            else Missing(items[..i], original) + [items[i]]
  {
    assert items[..i + 1][..i] == items[..i];
  }

  lemma KeyLinesMore(items: Entries<string>, item: (string, string), pretty: bool)
    ensures KeyLines(items + [item], pretty) == KeyLines(items, pretty) + [KeyLine(item.0, item.1, pretty)]
  {
    assert (items + [item])[..|items|] == items;
  }

  method OutputLine(line: string, outputValue: string, prettyPrint: bool) returns (outputLine: string)
    requires ParseLine(line).KeyValue?
    ensures EqualsAt(line) < |line|
    ensures outputLine == Rewritten(line, Trim(outputValue), prettyPrint)
  {
    HasSign(line);
    MaskChars(line);
    MaskFindsSeparator(line);
    var lineNorm := ReplaceAll(line, ESCAPED_EQ, "  ");
    var equalsAt := IndexOf(lineNorm, '=');
    var valueAt := NonSpaceFrom(lineNorm, equalsAt + 1);
    outputLine := line[..valueAt];
    if prettyPrint && valueAt < |line| && equalsAt + 1 == valueAt {
      outputLine := outputLine + " ";
    } else {
      assert line[..valueAt] + "" == line[..valueAt];
    }
    outputLine := outputLine + Trim(outputValue);
  }

  // What the loop's variables say about a draft that is up to date
  ghost predicate Shown(
    d: Draft, data: Sections, output: seq<string>, sectionCurrent: string,
    parsingSection: bool, continueToNextSection: bool, discardNextEmpty: bool)
  {
    && output == Output(d) && d.section == Norm(sectionCurrent)
    && d.parsing == parsingSection && d.skipping == continueToNextSection && d.discard == discardNextEmpty
    && (d.parsing ==> Has(data, d.section))
    && (d.skipping ==> !Has(data, d.section) && !d.parsing)
  }

  // Where new keys would go
  ghost predicate KeysEnd(d: Draft, lastKeyLine: nat) {
    !d.skipping ==> lastKeyLine == |d.head|
  }

  // Inserting the new keys behind the last key line
  lemma FlushedOutput(d: Draft, data: Sections, original: Sections, pretty: bool, lastKeyLine: nat)
    requires KeysEnd(d, lastKeyLine) && (d.skipping ==> !Has(data, d.section))
    ensures var add := KeyLines(NewItems(data, original, d.section), pretty);
            && Output(Flush(d, data, original, pretty))
               == (if add == [] then Output(d) else d.head + add + d.tail)
            && (add != [] ==> lastKeyLine == |d.head| && Output(d)[..lastKeyLine] == d.head
                              && Output(d)[lastKeyLine..] == d.tail)
  {
    assert d.head + [] == d.head;
  }

  lemma NothingNew(d: Draft, data: Sections, original: Sections, pretty: bool)
    requires !Has(data, d.section)
    ensures Output(Flush(d, data, original, pretty)) == Output(d)
  {
    assert d.head + [] == d.head;
  }

  // The draft behind one line, kind by kind
  lemma SketchSection(d: Draft, line: string, data: Sections, original: Sections, pretty: bool)
    requires ParseLine(line).Section?
    ensures var base := Closed(d, data, original, pretty);
            && Sketch(d, line, data, original, pretty) == Header(base, Norm(ParseLine(line).name), line, data)
            && !base.parsing
            && Output(base) == if d.parsing then Output(Flush(d, data, original, pretty)) else Output(d)
  {
  }

  lemma SketchItem(d: Draft, line: string, data: Sections, original: Sections, pretty: bool)
    requires ParseLine(line).KeyValue?
    ensures Sketch(d, line, data, original, pretty) == Item(d, line, data, pretty)
    ensures d.skipping ==> Item(d, line, data, pretty) == d
  {
  }

  lemma SketchOther(d: Draft, line: string, data: Sections, original: Sections, pretty: bool)
    requires !ParseLine(line).Section? && !ParseLine(line).KeyValue?
    ensures var d' := Sketch(d, line, data, original, pretty);
            && d' == d.(tail := d'.tail, discard := d'.discard)
            && d'.discard == (d.discard && line != "")
            && Output(d') ==
               if (d.discard && line == "") || ParseLine(line) == Unknown then Output(d) else Output(d) + [line]
  {
  }

  // The lines to add to the current section
  method NewKeyLines(
    sectionCurrent: string, data: IniMap<Entries<string>>, original: IniMap<Entries<string>>, prettyPrint: bool)
    returns (linesToAdd: seq<string>)
    requires data.Valid() && original.Valid() && data.empty == [] && original.empty == []
    ensures linesToAdd == KeyLines(NewItems(data.data, original.data, Norm(sectionCurrent)), prettyPrint)
  {
    linesToAdd := [];
    var has := data.HasKey(sectionCurrent);
    var had := original.HasKey(sectionCurrent);
    if has && had {
      var collection := data.GetValue(sectionCurrent);
      var collectionOriginal := original.GetValue(sectionCurrent);
      linesToAdd := LinesToAdd(collection, collectionOriginal, prettyPrint);
    }
  }

  method InsertNewKeys(
    out: seq<string>, lastKeyLine: nat, sectionCurrent: string, data: IniMap<Entries<string>>,
    original: IniMap<Entries<string>>, prettyPrint: bool, ghost d: Draft)
    returns (output: seq<string>)
    requires data.Valid() && original.Valid() && data.empty == [] && original.empty == []
    requires out == Output(d) && d.section == Norm(sectionCurrent) && KeysEnd(d, lastKeyLine)
    requires d.skipping ==> !Has(data.data, d.section)
    ensures output == Output(Flush(d, data.data, original.data, prettyPrint))
  {
    output := out;
    var linesToAdd := NewKeyLines(sectionCurrent, data, original, prettyPrint);
    FlushedOutput(d, data.data, original.data, prettyPrint, lastKeyLine);
    if linesToAdd != [] {
      output := output[..lastKeyLine] + linesToAdd + output[lastKeyLine..];
    }
  }

  // A key line of the old file: what the loop does with it
  method TakeItem(
    line: string, parsed: Parsed, sectionCurrent: string, data: IniMap<Entries<string>>, prettyPrint: bool,
    out: seq<string>, last: nat, ghost d: Draft)
    returns (output: seq<string>, lastKeyLine: nat)
    requires data.Valid() && data.empty == []
    requires parsed == ParseLine(line) && parsed.KeyValue? && !d.skipping && d.section == Norm(sectionCurrent)
    requires out == Output(d) && last == |d.head|
    ensures var d' := Item(d, line, data.data, prettyPrint);
            && output == Output(d') && lastKeyLine == |d'.head|
            && d' == d.(head := d'.head, tail := d'.tail)
  {
    output, lastKeyLine := out, last;
    var has := data.HasKey(sectionCurrent);
    if has {
      var collection := data.GetValue(sectionCurrent);
      var key, value := parsed.key, parsed.value;
      if Has(collection, Norm(key)) {
        var outputValue := Get(collection, Norm(key), "");
        if value == outputValue {
          output := output + [line];
        } else {
          var outputLine := OutputLine(line, outputValue, prettyPrint);
          output := output + [outputLine];
        }
        lastKeyLine := |output|;
      }
    }
  }

  // The draft before every line, and after the last
  ghost predicate AreDrafts(
    drafts: seq<Draft>, lines: seq<string>, data: Sections, original: Sections, pretty: bool)
  {
    && |drafts| == |lines| + 1 && drafts[0] == BLANK
    && forall i, j :: 0 <= i < |lines| && j == i + 1 ==>
         drafts[j] == Sketch(drafts[i], lines[i], data, original, pretty)
  }

  lemma {:induction false} Drafts(lines: seq<string>, data: Sections, original: Sections, pretty: bool)
    returns (drafts: seq<Draft>)
    ensures AreDrafts(drafts, lines, data, original, pretty)
    ensures drafts[|lines|] == Draw(lines, data, original, pretty)
  {
    hide Sketch;
    if lines == [] {
      drafts := [BLANK];
    } else {
      var before := Drafts(lines[..|lines| - 1], data, original, pretty);
      drafts := before + [Draw(lines, data, original, pretty)];
    }
  }

  lemma ExtendedMore(out: seq<string>, data: Sections, i: nat, original: Sections, pretty: bool)
    requires i < |data|
    ensures Extended(out, data[..i + 1], original, pretty)
         == var before := Extended(out, data[..i], original, pretty);
            if Has(original, Norm(data[i].0)) then before else before + Gap(before, pretty) + Block(data[i], pretty)
  {
    assert data[..i + 1][..i] == data[..i];
  }

  method GetLazyOutput(
    lineData: seq<string>, data: IniMap<Entries<string>>, original: IniMap<Entries<string>>, prettyPrint: bool)
    returns (output: seq<string>)
    requires data.Valid() && original.Valid() && data.empty == [] && original.empty == []
    ensures output == LazyOutput(lineData, data.data, original.data, prettyPrint)
  {
    output := Revise(lineData, data, original, prettyPrint);
    output := Extend(output, data, original, prettyPrint);
  }

  // One line of the old file, when nothing is left to write for the section before it. At the end of a
  // kept section that is so once the new keys are written: d is then the draft that has them.
  method TakeLine(
    line: string, parsed: Parsed, data: IniMap<Entries<string>>, prettyPrint: bool,
    out: seq<string>, last: nat, section: string, parsing: bool, skipping: bool, discard: bool,
    ghost d: Draft, ghost original: Sections)
    returns (output: seq<string>, lastKeyLine: nat, sectionCurrent: string,
             parsingSection: bool, continueToNextSection: bool, discardNextEmpty: bool, next: bool)
    requires data.Valid() && data.empty == []
    requires parsed == ParseLine(line) && (parsed.Section? ==> !d.parsing)
    requires Shown(d, data.data, out, section, parsing, skipping, discard)
    requires !parsed.Section? ==> KeysEnd(d, last)
    ensures Shown(Sketch(d, line, data.data, original, prettyPrint), data.data, output,
                  sectionCurrent, parsingSection, continueToNextSection, discardNextEmpty)
    ensures KeysEnd(Sketch(d, line, data.data, original, prettyPrint), lastKeyLine)
    ensures next ==> continueToNextSection
  {
    output, lastKeyLine, sectionCurrent, next := out, last, section, false;
    parsingSection, continueToNextSection, discardNextEmpty := parsing, skipping, discard;
    match parsed {
      case Section(name) =>
        SketchSection(d, line, data.data, original, prettyPrint);
        sectionCurrent := name;
        var has := data.HasKey(sectionCurrent);
        if has {
          parsingSection := true;
          continueToNextSection := false;
          discardNextEmpty := false;
          output := output + [line];
          lastKeyLine := |output|;
        } else {
          continueToNextSection := true;
          discardNextEmpty := true;
          next := true;
        }
      case KeyValue(_, _) =>
        SketchItem(d, line, data.data, original, prettyPrint);
        if continueToNextSection {
          next := true;
        } else {
          output, lastKeyLine := TakeItem(line, parsed, sectionCurrent, data, prettyPrint, output, lastKeyLine, d);
        }
      case _ =>
        SketchOther(d, line, data.data, original, prettyPrint);
        if discardNextEmpty && line == "" {
          discardNextEmpty := false;
        } else if parsed != Unknown {
          output := output + [line];
        }
    }
  }

  // A header closes the section before it just once
  lemma SketchClosed(d: Draft, line: string, data: Sections, original: Sections, pretty: bool)
    requires ParseLine(line).Section?
    ensures Sketch(Closed(d, data, original, pretty), line, data, original, pretty)
         == Sketch(d, line, data, original, pretty)
    ensures !Closed(d, data, original, pretty).parsing
  {
  }

  // Writing the new keys of the section turns the draft into the closed one
  lemma ShownClosed(
    d: Draft, data: Sections, original: Sections, pretty: bool, output: seq<string>,
    section: string, skipping: bool, discard: bool, flushed: seq<string>)
    requires Shown(d, data, output, section, true, skipping, discard)
    requires flushed == Output(Flush(d, data, original, pretty))
    ensures Shown(Closed(d, data, original, pretty), data, flushed, section, false, skipping, discard)
  {
  }

  lemma BlankIsShown(data: Sections)
    ensures Shown(BLANK, data, [], "", false, false, false) && KeysEnd(BLANK, 0)
  {
  }

  lemma ShownSkipping(
    d: Draft, data: Sections, original: Sections, pretty: bool, output: seq<string>,
    section: string, parsing: bool, discard: bool)
    requires Shown(d, data, output, section, parsing, true, discard)
    ensures output == Output(Flush(d, data, original, pretty))
  {
    NothingNew(d, data, original, pretty);
  }

  // The loop. At a header behind a kept section it comes round three times: it asks for the new keys and steps
  // back, writes them and steps back, and takes the header.
  method Revise(
    lineData: seq<string>, data: IniMap<Entries<string>>, original: IniMap<Entries<string>>, prettyPrint: bool)
    returns (output: seq<string>)
    requires data.Valid() && original.Valid() && data.empty == [] && original.empty == []
    ensures output == Revised(lineData, data.data, original.data, prettyPrint)
  {
    hide ParseLine, Norm, Sketch, Closed, Flush, Draw, Has;
    output := [];
    var sectionCurrent := "";
    var parsingSection, continueToNextSection, discardNextEmpty, writeNewKeys := false, false, false, false;
    var lastKeyLine: nat := 0;
    ghost var D, O := data.data, original.data;
    ghost var drafts := Drafts(lineData, D, O, prettyPrint);
    // The draft the output shows, and whether the new keys of its section are in it
    ghost var d, flushed, finished := BLANK, false, false;
    BlankIsShown(D);
    // The line that was looked at last; the loop moves on before it looks
    var line := -1;
    while line + 1 != |lineData|
      invariant -1 <= line < |lineData|
      invariant d == if flushed then Closed(drafts[line + 1], D, O, prettyPrint) else drafts[line + 1]
      invariant !finished ==> Shown(d, D, output, sectionCurrent, parsingSection || writeNewKeys,
                                    continueToNextSection, discardNextEmpty)
      invariant !finished && !flushed ==> KeysEnd(d, lastKeyLine)
      invariant finished ==> !flushed && 0 < line + 1 == |lineData| && output == Output(Flush(d, D, O, prettyPrint))
      invariant !finished && line + 1 == |lineData| ==> line == -1 || continueToNextSection
      invariant !(writeNewKeys && flushed) && !(parsingSection && (writeNewKeys || flushed))
      invariant writeNewKeys || flushed ==>
        line + 1 < |lineData| && ParseLine(lineData[line + 1]).Section? && drafts[line + 1].parsing
      decreases |lineData| - line, if writeNewKeys then 1 else if flushed then 0 else 2
    {
      line := line + 1;
      if !writeNewKeys {
        var parsed := Parse(lineData[line]);
        if parsed.Section? && parsingSection {
          writeNewKeys := true;
          parsingSection := false;
          assert line > 0;
          line := line - 1;
          continue;
        }
        ghost var before := d;
        if flushed { SketchClosed(drafts[line], lineData[line], D, O, prettyPrint); }
        d, flushed := drafts[line + 1], false;
        var next;
        output, lastKeyLine, sectionCurrent, parsingSection, continueToNextSection, discardNextEmpty, next :=
          TakeLine(lineData[line], parsed, data, prettyPrint, output, lastKeyLine, sectionCurrent,
                   parsingSection, continueToNextSection, discardNextEmpty, before, O);
        if next {
          continue;
        }
      }
      if writeNewKeys || line + 1 == |lineData| {
        ghost var was := output;
        output := InsertNewKeys(output, lastKeyLine, sectionCurrent, data, original, prettyPrint, d);
        if writeNewKeys {
          ShownClosed(d, D, O, prettyPrint, was, sectionCurrent, continueToNextSection, discardNextEmpty, output);
          writeNewKeys := false;
          assert line > 0;
          line := line - 1;
          d, flushed := Closed(d, D, O, prettyPrint), true;
        } else {
          finished := true;
        }
      }
    }
    if continueToNextSection && !finished {
      ShownSkipping(d, D, O, prettyPrint, output, sectionCurrent, parsingSection, discardNextEmpty);
    }
  }

  method Extend(
    out: seq<string>, data: IniMap<Entries<string>>, original: IniMap<Entries<string>>, prettyPrint: bool)
    returns (output: seq<string>)
    requires original.Valid()
    ensures output == Extended(out, data.data, original.data, prettyPrint)
  {
    output := out;
    var sections := data.data;
    for i := 0 to |sections|
      invariant output == Extended(out, sections[..i], original.data, prettyPrint)
    {
      var section, collection := sections[i].0, sections[i].1;
      ExtendedMore(out, sections, i, original.data, prettyPrint);
      var had := original.HasKey(section);
      if had {
        continue;
      }
      output := AppendGap(output, prettyPrint);
      output := AppendSection(output, section, collection, prettyPrint);
    }
    assert sections[..|sections|] == sections;
  }

  method AppendGap(out: seq<string>, prettyPrint: bool) returns (output: seq<string>)
    ensures output == out + Gap(out, prettyPrint)
  {
    output := out;
    if prettyPrint && |output| > 0 && output[|output| - 1] != "" {
      output := output + [""];
    }
  }

  method AppendSection(out: seq<string>, section: string, collection: Entries<string>, prettyPrint: bool)
    returns (output: seq<string>)
    ensures output == out + Block((section, collection), prettyPrint)
  {
    output := out + ["[" + section + "]"];
    ghost var start := output;
    for i := 0 to |collection|
      invariant output == start + KeyLines(collection[..i], prettyPrint)
    {
      assert collection[..i + 1][..i] == collection[..i];
      var key := ReplaceAll(collection[i].0, "=", ESCAPED_EQ);
      var value := Trim(collection[i].1);
      output := output + [key + (if prettyPrint then " = " else "=") + value];
    }
    assert collection[..|collection|] == collection;
  }
}
