/** The spacing of what lib/mini/ini.h writes: empty lines between sections, and the spaces of a changed line. */
module IniSpacing {

  import opened IniText
  import opened IniLines
  import opened IniEntries
  import opened IniFile
  import opened IniRewrite
  import opened IniLazy

  // ---------- sections that are added ----------

  lemma {:induction false} KeyLinesAre(items: Entries<string>, pretty: bool)
    ensures |KeyLines(items, pretty)| == |items|
    ensures forall k :: 0 <= k < |items| ==>
              KeyLines(items, pretty)[k] ==
              Escape(items[k].0) + (if pretty then " = " else "=") + Trim(items[k].1) != ""
  {
    hide Escape, Trim;
    if items != [] { KeyLinesAre(items[..|items| - 1], pretty); }
  }

  lemma AddedLines(before: seq<string>, section: (string, Entries<string>), pretty: bool) returns (at: nat)
    ensures var after := before + Gap(before, pretty) + Block(section, pretty);
            && before <= after && |after| == at + 1 + |section.1| && after[|after| - 1] != ""
            && (if pretty && before != [] && before[|before| - 1] != "" then at == |before| + 1 && after[|before|] == ""
                else at == |before|)
            && after[at] == "[" + section.0 + "]"
            && forall j :: 0 <= j < |section.1| ==>
                 after[at + 1 + j] ==
                 Escape(section.1[j].0) + (if pretty then " = " else "=") + Trim(section.1[j].1)
  {
    hide Escape, Trim;
    at := |before| + |Gap(before, pretty)|;
    KeyLinesAre(section.1, pretty);
    var after := before + Gap(before, pretty) + Block(section, pretty);
    assert forall j :: 0 <= j < |section.1| ==> after[at + 1 + j] == KeyLines(section.1, pretty)[j];
  }

  // A section that the old file does not have comes behind everything before it, with its items in order. When pretty,
  // an empty line stands in front of it unless there is one, or nothing at all; otherwise nothing comes in between.
  lemma NewSectionIsSpaced(
    out: seq<string>, data: Sections, i: nat, original: Sections, pretty: bool) returns (at: nat)
    requires i < |data| && !Has(original, Norm(data[i].0))
    ensures var before := Extended(out, data[..i], original, pretty);
            var after, items := Extended(out, data[..i + 1], original, pretty), data[i].1;
            && before <= after && |after| == at + 1 + |items|
            && (if pretty && before != [] && before[|before| - 1] != "" then at == |before| + 1 && after[|before|] == ""
                else at == |before|)
            && after[at] == "[" + data[i].0 + "]"
            && forall j :: 0 <= j < |items| ==>
                 after[at + 1 + j] == Escape(items[j].0) + (if pretty then " = " else "=") + Trim(items[j].1)
  {
    hide Escape, Trim, Norm, Find, Gap, Block;
    assert data[..i + 1][..i] == data[..i];
    at := AddedLines(Extended(out, data[..i], original, pretty), data[i], pretty);
  }

  // What the generator writes into a new file is what the lazy writer adds to an empty one
  lemma {:induction false} GeneratorIsExtension(data: Sections, pretty: bool)
    ensures Extended([], data, [], pretty) == Blocks(data, pretty)
    ensures data != [] ==> Blocks(data, pretty) != [] && Blocks(data, pretty)[|Blocks(data, pretty)| - 1] != ""
  {
    hide Norm, KeyLines, Block;
    if data != [] {
      var n := |data| - 1;
      GeneratorIsExtension(data[..n], pretty);
      assert !Has<Entries<string>>([], Norm(data[n].0));
      var before := Blocks(data[..n], pretty);
      var at := AddedLines(before, data[n], pretty);
      if n == 0 {
        assert before == [] && [] + [] + Block(data[0], pretty) == Block(data[0], pretty);
      } else {
        assert before + [] == before;
      }
    }
  }

  // ---------- a line that is changed ----------

  // Everything up to the old value stays as it is, unless that starts with an escaped equals sign: the key, the sign
  // and the spaces behind it. When pretty, a sign directly in front of the old value gets one space.
  lemma ChangedLineKeepsFront(line: string, value: string, pretty: bool)
    requires ParseLine(line).KeyValue? && !StartsEscaped(ParseLine(line).value)
    ensures EqualsAt(line) < |line|
    ensures var sign := EqualsAt(line);
            var at := NonSpaceFrom(line, sign + 1);
            Rewritten(line, value, pretty) ==
            line[..at] + (if pretty && at == sign + 1 && at < |line| then " " else "") + value
  {
    HasSign(line);
    var x := ShapeOf(line);
    ValueStart(line, x, ParseLine(line).key, ParseLine(line).value);
    GapEnds(line, NonSpaceFrom(line, EqualsAt(line) + 1));
  }
}
