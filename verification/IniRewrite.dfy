/** A key line that INIWriter::getLazyOutput changes in place: what it writes and when that reads back. */
module IniRewrite {

  import opened IniText
  import opened IniLines

  // find_first_not_of: the length when there is none
  function NonSpaceFrom(s: string, i: nat): (at: nat)
    requires i <= |s|
    ensures i <= at <= |s| && (at < |s| ==> !IsSpace(s[at]))
    ensures forall k :: i <= k < at ==> IsSpace(s[k])
    decreases |s| - i
  {
    if i == |s| || !IsSpace(s[i]) then i else NonSpaceFrom(s, i + 1)
  }

  // Where the old value is taken to start: escaped equals signs are blank in the masked line
  function ValueAt(line: string): (at: nat)
    requires EqualsAt(line) < |line|
    ensures EqualsAt(line) < at <= |line|
  {
    MaskChars(line);
    NonSpaceFrom(Mask(line), EqualsAt(line) + 1)
  }

  // Everything before the old value, then the new one
  function Rewritten(line: string, value: string, pretty: bool): string
    requires EqualsAt(line) < |line|
  {
    MaskChars(line);
    var at := ValueAt(line);
    line[..at] + (if pretty && at < |line| && EqualsAt(line) + 1 == at then " " else "") + value
  }

  predicate StartsEscaped(value: string) {
    |value| >= 2 && value[0] == '\\' && value[1] == '='
  }

  // ---------- the old line ----------

  // The old line up to the end of its value: key part, sign, value part
  ghost predicate Shape(line: string, x: nat, key: string, value: string) {
    var e := EqualsAt(line);
    && e < |line| && e + 1 <= x <= |line|
    && key == Unescape(Trim(line[..e])) && value == Trim(line[e + 1..x])
    && (x < |line| ==> IsSpace(line[x]) || line[x] == ';')
    && (forall k :: x < k < |line| && line[x] != ';' ==> IsSpace(line[k]))
  }

  // A prefix of a line that reaches past the first sign has the same first sign
  lemma EqualsInPrefix(s: string, cut: string)
    requires cut <= s && EqualsAt(cut) < |cut|
    ensures EqualsAt(s) == EqualsAt(cut)
  {
    var e := EqualsAt(cut);
    assert Separates(s, e);
    forall k | 0 <= k < e ensures !Separates(s, k) {
      assert !Separates(cut, k);
    }
  }

  lemma ShapeOfCut(line: string, w: string, cut: string, rest: string)
    requires line == w + cut + rest && AllSpace(w)
    requires rest != "" ==> rest[0] == ';' || AllSpace(rest)
    requires EqualsAt(cut) < |cut|
    ensures EqualsAt(line) == |w| + EqualsAt(cut)
    ensures Shape(line, |w| + |cut|, Unescape(Trim(cut[..EqualsAt(cut)])), Trim(cut[EqualsAt(cut) + 1..]))
  {
    var e, x := EqualsAt(cut), |w| + |cut|;
    EqualsAtPadded(w, cut, "");
    assert w + cut + "" == w + cut;
    EqualsInPrefix(line, w + cut);
    assert line[..|w| + e] == w + cut[..e] + "";
    TrimPadded(w, cut[..e], "");
    assert line[|w| + e + 1..x] == cut[e + 1..];
    assert forall k :: x <= k < |line| ==> line[k] == rest[k - x];
  }

  lemma ShapeOf(line: string) returns (x: nat)
    requires ParseLine(line).KeyValue?
    ensures Shape(line, x, ParseLine(line).key, ParseLine(line).value)
  {
    hide TrimLeft, TrimRight, Shape;
    var t := Trim(line);
    var w, z := TrimParts(line);
    if t[0] == '[' {
      var cut := t[..IndexOf(t, ';')];
      assert line == w + cut + (t[|cut|..] + z);
      ShapeOfCut(line, w, cut, t[|cut|..] + z);
      x := |w| + |cut|;
    } else {
      ShapeOfCut(line, w, t, z);
      x := |w| + |t|;
    }
  }

  // ---------- the gap in front of the new value ----------

  lemma FirstOfTrim(w: string, u: string)
    requires AllSpace(w) && u != "" && !IsSpace(u[0])
    ensures Trim(w + u) <= u && forall k :: 0 <= k < |u| && !IsSpace(u[k]) ==> k < |Trim(w + u)|
  {
    TrimPadded(w, u, "");
    assert w + u + "" == w + u;
    TrimOfBracketed(u);
    RightOfTrimmed(u);
  }

  // An escaped sign stands at j
  predicate EscapedAt(line: string, j: nat) {
    j + 1 < |line| && line[j] == '\\' && line[j + 1] == '='
  }

  // The masked line differs from the line, in the first place after the sign that is no space, only there
  lemma {:induction false} GapEnds(line: string, j: nat)
    requires EqualsAt(line) < |line| && j == NonSpaceFrom(line, EqualsAt(line) + 1)
    ensures if EscapedAt(line, j) then ValueAt(line) > j else ValueAt(line) == j
  {
    var e, at := EqualsAt(line), ValueAt(line);
    MaskChars(line);
    assert forall k :: e < k < j ==> IsSpace(Mask(line)[k]);
    if j < |line| {
      assert line[j - 1] != '\\';
      assert Masked(line, j) <==> EscapedAt(line, j);
    }
  }

  lemma EmptyValue(line: string, x: nat, key: string, value: string)
    requires Shape(line, x, key, value) && AllSpace(line[EqualsAt(line) + 1..x])
    ensures value == ""
  {
    var part := line[EqualsAt(line) + 1..x];
    TrimCore(part, "", "");
    assert part + "" + "" == part;
  }

  lemma ValueIs(line: string, x: nat, key: string, value: string, j: nat)
    requires Shape(line, x, key, value) && EqualsAt(line) < j < x
    requires AllSpace(line[EqualsAt(line) + 1..j]) && !IsSpace(line[j])
    ensures value != "" && value[0] == line[j]
    ensures j + 1 < x && !IsSpace(line[j + 1]) ==> |value| > 1
    ensures |value| > 1 ==> j + 1 < x && value[1] == line[j + 1]
  {
    var w, u := line[EqualsAt(line) + 1..j], line[j..x];
    assert line[EqualsAt(line) + 1..x] == w + u;
    FirstOfTrim(w, u);
    assert j + 1 < x ==> u[1] == line[j + 1];
  }

  lemma ValueStart(line: string, x: nat, key: string, value: string)
    requires Shape(line, x, key, value)
    ensures StartsEscaped(value) <==> EscapedAt(line, NonSpaceFrom(line, EqualsAt(line) + 1))
  {
    var j := NonSpaceFrom(line, EqualsAt(line) + 1);
    if j < x {
      ValueIs(line, x, key, value, j);
    } else {
      EmptyValue(line, x, key, value);
    }
  }

  // Up to the new value the line has only spaces after the sign, unless the old value starts with an escaped sign
  lemma GapIsSpace(line: string, x: nat, key: string, value: string)
    requires Shape(line, x, key, value)
    ensures AllSpace(line[EqualsAt(line) + 1..ValueAt(line)]) <==> !StartsEscaped(value)
  {
    var e := EqualsAt(line);
    var j := NonSpaceFrom(line, e + 1);
    GapEnds(line, j);
    ValueStart(line, x, key, value);
    if EscapedAt(line, j) {
      assert line[e + 1..ValueAt(line)][j - e - 1] == '\\';
    }
  }

  // ---------- the new line ----------

  // Something in front of a trimmed text is trimmed away exactly when it is space
  lemma TrimGap(gap: string, text: string)
    requires Trimmed(text)
    ensures Trim(gap + text) == text <==> AllSpace(gap)
  {
    if AllSpace(gap) {
      TrimCore(gap, text, "");
      assert gap + text + "" == gap + text;
    } else {
      var j := NonSpaceFrom(gap, 0);
      var w, u := gap[..j], gap[j..] + text;
      assert gap + text == w + u;
      FirstOfTrim(w, u);
      if text != "" { assert u[|u| - 1] == text[|text| - 1]; }
    }
  }

  // The first character of p and a sign that is no space
  function FirstIn(p: string): char {
    if p != "" && IsSpace(p[0]) then FirstIn(p[1..]) else (p + "=")[0]
  }

  lemma {:induction false} FirstOfLine(p: string, q: string)
    ensures Trim(p + "=" + q) != "" && Trim(p + "=" + q)[0] == FirstIn(p)
  {
    var line := p + "=" + q;
    if p != "" && IsSpace(p[0]) {
      FirstOfLine(p[1..], q);
      var rest := p[1..] + "=" + q;
      assert line == [p[0]] + rest + "";
      TrimPadded([p[0]], rest, "");
    } else {
      TrimFirst("", line);
      assert "" + line == line;
    }
  }

  // A key part without signs, a sign and a value part
  lemma PartsRead(p: string, q: string)
    requires forall k :: 0 <= k < |p| ==> !Separates(p, k)
    requires (p != "" ==> p[|p| - 1] != '\\') && KeyLike(p + "=" + q)
    ensures ParseLine(p + "=" + q) == KeyValue(Unescape(Trim(p)), Trim(q))
  {
    var line := p + "=" + q;
    ParsePlainLine(line);
    forall k | 0 <= k < |p| ensures !Separates(line, k) {
      assert !Separates(p, k);
    }
    assert Separates(line, |p|);
    assert line[..|p|] == p && line[|p| + 1..] == q;
  }

  lemma KeyPartKeepsOut(w: string, cut: string, rest: string, e: nat, c: char)
    requires AllSpace(w) && !IsSpace(c) && c !in cut && e <= |cut|
    ensures c !in (w + cut + rest)[..|w| + e]
  {
    assert (w + cut + rest)[..|w| + e] == w + cut[..e];
  }

  // A bracketed line that still has a key and a value has its sign before any semicolon or closing bracket,
  // and its key starts with the bracket
  lemma BracketKey(line: string)
    requires ParseLine(line).KeyValue? && Trim(line)[0] == '['
    ensures EqualsAt(line) < |line|
    ensures ';' !in line[..EqualsAt(line)] && ']' !in line[..EqualsAt(line)]
  {
    var t := Trim(line);
    var w, z := TrimParts(line);
    var cut := t[..IndexOf(t, ';')];
    assert line == w + cut + (t[|cut|..] + z);
    ShapeOfCut(line, w, cut, t[|cut|..] + z);
    KeyPartKeepsOut(w, cut, t[|cut|..] + z, EqualsAt(cut), ';');
    KeyPartKeepsOut(w, cut, t[|cut|..] + z, EqualsAt(cut), ']');
  }

  lemma BracketStartsKey(line: string)
    requires ParseLine(line).KeyValue? && Trim(line)[0] == '['
    ensures Norm(ParseLine(line).key) != "" && Norm(ParseLine(line).key)[0] == '['
  {
    var t := Trim(line);
    var cut := t[..IndexOf(t, ';')];
    var p := cut[..EqualsAt(cut)];
    assert p != "" && p[0] == '[';
    TrimFirst("", p);
    assert "" + p == p;
    UnescapeFirst(Trim(p));
    var key := Unescape(Trim(p));
    TrimFirst("", key);
    assert "" + key == key;
  }

  lemma UnescapeFirst(s: string)
    requires s != "" && s[0] != '\\'
    ensures Unescape(s) != "" && Unescape(s)[0] == s[0]
  {
  }

  // What stands in front of the new value is space or part of escaped signs
  lemma GapChars(line: string, c: char)
    requires EqualsAt(line) < |line| && !IsSpace(c) && c != '\\' && c != '='
    ensures c !in line[EqualsAt(line) + 1..ValueAt(line)]
  {
    MaskChars(line);
    var e, at := EqualsAt(line), ValueAt(line);
    forall k | e < k < at ensures line[k] != c {
      assert IsSpace(Mask(line)[k]);
    }
  }

  lemma RewrittenParts(line: string, value: string, pretty: bool) returns (pad: string)
    requires EqualsAt(line) < |line|
    ensures AllSpace(pad)
    ensures var e := EqualsAt(line);
            Rewritten(line, value, pretty) == line[..e] + "=" + (line[e + 1..ValueAt(line)] + pad + value)
  {
    var e, at := EqualsAt(line), ValueAt(line);
    pad := if pretty && at < |line| && e + 1 == at then " " else "";
    assert line[..at] == line[..e] + "=" + line[e + 1..at];
  }

  // The key may be written: what a bracket needs of the new value
  ghost predicate BracketAllows(key: string, value: string) {
    Norm(key) != "" && Norm(key)[0] == '[' ==> ';' !in value && ']' !in value
  }

  // A value that was read from a line satisfies this without further care
  lemma ReadValueIsAllowed(line: string)
    requires ParseLine(line).KeyValue?
    ensures BracketAllows(ParseLine(line).key, ParseLine(line).value)
  {
    var t := Trim(line);
    if t[0] == '[' {
      var cut := t[..IndexOf(t, ';')];
      TrimKeepsOut(cut[EqualsAt(cut) + 1..], ';');
      TrimKeepsOut(cut[EqualsAt(cut) + 1..], ']');
    } else {
      var w, z := TrimParts(line);
      OtherStart(t[..EqualsAt(t)]);
    }
  }

  // A key part that does not start with a bracket gives a key that does not
  lemma OtherStart(p: string)
    requires p != "" ==> p[0] != '[' && !IsSpace(p[0])
    ensures var key := Norm(Unescape(Trim(p)));
            key != "" ==> key[0] != '['
  {
    if p != "" {
      TrimFirst("", p);
      assert "" + p == p;
      UnescapeStart(Trim(p));
      var key := Unescape(Trim(p));
      TrimFirst("", key);
      assert "" + key == key;
    }
  }

  lemma UnescapeStart(s: string)
    requires s != "" && s[0] != '[' && !IsSpace(s[0])
    ensures Unescape(s) != "" && Unescape(s)[0] != '[' && !IsSpace(Unescape(s)[0])
  {
  }

  lemma RewrittenIsKeyLike(line: string, gap: string, value: string)
    requires ParseLine(line).KeyValue? && EqualsAt(line) < |line|
    requires BracketAllows(ParseLine(line).key, value)
    requires ';' !in gap && ']' !in gap
    ensures KeyLike(line[..EqualsAt(line)] + "=" + (gap + value))
  {
    var e := EqualsAt(line);
    var p, new' := line[..e], line[..e] + "=" + (gap + value);
    FirstOfLine(p, gap + value);
    FirstOfLine(p, line[e + 1..]);
    assert line == p + "=" + line[e + 1..];
    if Trim(line)[0] == '[' {
      BracketKey(line);
      BracketStartsKey(line);
      TrimKeepsOut(new', ';');
      TrimKeepsOut(new', ']');
    }
  }

  // A changed line keeps its key, and has the new value exactly unless the old one starts with an escaped sign
  lemma RewrittenReads(line: string, value: string, pretty: bool)
    requires ParseLine(line).KeyValue? && Trimmed(value) && BracketAllows(ParseLine(line).key, value)
    ensures EqualsAt(line) < |line|
    ensures var r := ParseLine(Rewritten(line, value, pretty));
            && r.KeyValue? && r.key == ParseLine(line).key
            && (r.value == value <==> !StartsEscaped(ParseLine(line).value))
  {
    var x := ShapeOf(line);
    var e := EqualsAt(line);
    var pad := RewrittenParts(line, value, pretty);
    var gap := line[e + 1..ValueAt(line)] + pad;
    GapChars(line, ';');
    GapChars(line, ']');
    RewrittenIsKeyLike(line, gap, value);
    forall k | 0 <= k < e ensures !Separates(line[..e], k) {
      assert !Separates(line, k);
    }
    PartsRead(line[..e], gap + value);
    GapIsSpace(line, x, ParseLine(line).key, ParseLine(line).value);
    TrimGap(gap, value);
    GapSplits(line[e + 1..ValueAt(line)], pad);
  }

  lemma GapSplits(a: string, b: string)
    requires AllSpace(b)
    ensures AllSpace(a + b) <==> AllSpace(a)
  {
    if AllSpace(a + b) {
      assert forall k :: 0 <= k < |a| ==> a[k] == (a + b)[k];
    }
  }

  // A case that goes wrong: the old value is an escaped sign, and the new one is put behind it
  lemma EscapedValueIsKept()
    ensures EqualsAt("k=\\=") == 1
    ensures Rewritten("k=\\=", "v", false) == "k=\\=v"
  {
    var line := "k=\\=";
    assert Separates(line, 1) && !Separates(line, 0);
    GapEnds(line, 2);
    assert NonSpaceFrom(line, 2) == 2 && EscapedAt(line, 2);
    MaskChars(line);
    assert line[..4] == line;
  }
}
