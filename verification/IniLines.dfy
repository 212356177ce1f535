/** Lines of INI files: how lib/mini/ini.h parses them, how it writes them, and which ones read back. */
module IniLines {

  import opened IniText

  // find_first_of: the length when there is none
  function IndexOf(s: string, c: char): (n: nat)
    ensures n <= |s| && (n < |s| ==> s[n] == c)
    ensures forall k :: 0 <= k < n ==> s[k] != c
  {
    if s == "" || s[0] == c then 0 else 1 + IndexOf(s[1..], c)
  }

  // find_last_of: -1 when there is none
  function LastIndexOf(s: string, c: char): (n: int)
    ensures -1 <= n < |s| && (n >= 0 ==> s[n] == c)
    ensures forall k :: n < k < |s| ==> s[k] != c
  {
    if s == "" then -1 else if s[|s| - 1] == c then |s| - 1 else LastIndexOf(s[..|s| - 1], c)
  }

  // An equals sign that is not escaped
  predicate Separates(s: string, i: nat)
    requires i < |s|
  {
    s[i] == '=' && !(i > 0 && s[i - 1] == '\\')
  }

  // The first such sign at or after i, the length when there is none
  function EqualsFrom(s: string, i: nat): (e: nat)
    requires i <= |s|
    ensures i <= e <= |s| && (e < |s| ==> Separates(s, e))
    ensures forall k :: i <= k < e ==> !Separates(s, k)
    decreases |s| - i
  {
    if i == |s| || Separates(s, i) then i else EqualsFrom(s, i + 1)
  }

  function EqualsAt(s: string): (e: nat)
    ensures e <= |s| && (e < |s| ==> Separates(s, e))
    ensures forall k :: 0 <= k < e ==> !Separates(s, k)
  {
    EqualsFrom(s, 0)
  }

  // The source blanks out the escaped signs and takes the first sign that is left
  lemma MaskFindsSeparator(s: string)
    ensures IndexOf(Mask(s), '=') == EqualsAt(s)
  {
    MaskChars(s);
    var m, e := IndexOf(Mask(s), '='), EqualsAt(s);
    if m < |s| { assert Separates(s, m); }
    if e < |s| { assert Mask(s)[e] == '='; }
  }

  datatype Parsed = Blank | Comment | Section(name: string) | KeyValue(key: string, value: string) | Unknown

  // Key and value on either side of position e
  function SplitAt(s: string, e: nat): Parsed
    requires e < |s|
  {
    KeyValue(Unescape(Trim(s[..e])), Trim(s[e + 1..]))
  }

  function ParseKeyValue(s: string): Parsed {
    var e := EqualsAt(s);
    if e == |s| then Unknown else SplitAt(s, e)
  }

  // A line that starts with a bracket is cut at its first semicolon, whatever it turns out to be
  function ParseLine(line: string): Parsed {
    var t := Trim(line);
    if t == "" then Blank
    else if t[0] == ';' then Comment
    else if t[0] == '[' then
      var cut := t[..IndexOf(t, ';')];
      var close := LastIndexOf(cut, ']');
      if close >= 0 then Section(Trim(cut[1..close])) else ParseKeyValue(cut)
    else ParseKeyValue(t)
  }

  // parseLine with its passes over a masked copy of the line
  method Parse(line: string) returns (parsed: Parsed)
    ensures parsed == ParseLine(line)
  {
    var t := Trim(line);
    if t == "" {
      return Blank;
    }
    if t[0] == ';' {
      return Comment;
    }
    if t[0] == '[' {
      var commentAt := IndexOf(t, ';');
      t := t[..commentAt];
      var closingBracketAt := LastIndexOf(t, ']');
      if closingBracketAt >= 0 {
        return Section(Trim(t[1..closingBracketAt]));
      }
    }
    var lineNorm := ReplaceAll(t, ESCAPED_EQ, "  ");
    MaskChars(t);
    MaskFindsSeparator(t);
    var equalsAt := IndexOf(lineNorm, '=');
    if equalsAt < |lineNorm| {
      var key := ReplaceAll(Trim(t[..equalsAt]), ESCAPED_EQ, "=");
      return KeyValue(key, Trim(t[equalsAt + 1..]));
    }
    parsed := Unknown;
  }

  lemma EqualsAtPadded(w: string, s: string, z: string)
    requires AllSpace(w) && AllSpace(z)
    ensures EqualsAt(w + s + z) == if EqualsAt(s) < |s| then |w| + EqualsAt(s) else |w + s + z|
  {
    var line := w + s + z;
    forall k | 0 <= k < |line|
      ensures Separates(line, k) <==> |w| <= k < |w| + |s| && Separates(s, k - |w|)
    {
      if k < |w| {
        assert line[k] == w[k];
      } else if k < |w| + |s| {
        assert line[k] == s[k - |w|];
        assert k > |w| ==> line[k - 1] == s[k - 1 - |w|];
        assert k == |w| && k > 0 ==> line[k - 1] == w[k - 1];
      } else {
        assert line[k] == z[k - |w| - |s|];
      }
    }
    var e := EqualsAt(line);
    if e < |line| { assert Separates(s, e - |w|); }
    if EqualsAt(s) < |s| { assert Separates(line, |w| + EqualsAt(s)); }
  }

  lemma KeyPart(w: string, s: string, z: string, e: nat)
    requires AllSpace(w) && e <= |s|
    ensures Trim((w + s + z)[..|w| + e]) == Trim(s[..e])
  {
    assert (w + s + z)[..|w| + e] == w + s[..e] + "";
    TrimPadded(w, s[..e], "");
  }

  lemma ValuePart(w: string, s: string, z: string, e: nat)
    requires AllSpace(z) && e < |s|
    ensures Trim((w + s + z)[|w| + e + 1..]) == Trim(s[e + 1..])
  {
    assert (w + s + z)[|w| + e + 1..] == "" + s[e + 1..] + z;
    TrimPadded("", s[e + 1..], z);
  }

  lemma SplitPadded(w: string, s: string, z: string, e: nat)
    requires AllSpace(w) && AllSpace(z) && e < |s|
    ensures SplitAt(w + s + z, |w| + e) == SplitAt(s, e)
  {
    KeyPart(w, s, z, e);
    ValuePart(w, s, z, e);
  }

  // Leading and trailing spaces do not matter to a key-value line
  lemma KeyValuePadded(w: string, s: string, z: string)
    requires AllSpace(w) && AllSpace(z)
    ensures ParseKeyValue(w + s + z) == ParseKeyValue(s)
  {
    EqualsAtPadded(w, s, z);
    if EqualsAt(s) < |s| {
      SplitPadded(w, s, z, EqualsAt(s));
    }
  }

  // A line read as a key and a value: not a comment, and nothing of a section or its comment
  ghost predicate KeyLike(line: string) {
    var t := Trim(line);
    t != "" && t[0] != ';' && (t[0] == '[' ==> ';' !in t && ']' !in t)
  }

  lemma ParsePlainLine(line: string)
    requires KeyLike(line)
    ensures ParseLine(line) == ParseKeyValue(line)
  {
    var t := Trim(line);
    var w, z := TrimParts(line);
    KeyValuePadded(w, t, z);
    if t[0] == '[' {
      assert IndexOf(t, ';') == |t| && t[..|t|] == t;
    }
  }

  // ---------- escaping keys ----------

  lemma {:induction false} EscapeEnds(key: string)
    requires key != ""
    ensures var e := Escape(key);
            && e != "" && e[0] == (if key[0] == '=' then '\\' else key[0]) && e[|e| - 1] == key[|key| - 1]
  {
    var rest := Escape(key[1..]);
    assert key[..1] == [key[0]];
    assert Escape(key) == (if key[0] == '=' then ESCAPED_EQ else [key[0]]) + rest;
    if key[1..] != "" {
      EscapeEnds(key[1..]);
    } else {
      assert rest == "";
    }
  }

  // Every equals sign of an escaped key is escaped, and the key comes back whole
  lemma {:induction false} EscapeRoundTrip(key: string)
    ensures Unescape(Escape(key)) == key
    ensures forall i :: 0 <= i < |Escape(key)| ==> !Separates(Escape(key), i)
  {
    if key != "" {
      EscapeRoundTrip(key[1..]);
      var rest := Escape(key[1..]);
      if key[0] == '=' {
        assert key[..1] == "=";
        assert Escape(key) == ESCAPED_EQ + rest;
        assert Escape(key)[..2] == ESCAPED_EQ && Escape(key)[2..] == rest;
        forall i | 2 <= i < |Escape(key)| ensures !Separates(Escape(key), i) {
          assert !Separates(rest, i - 2);
        }
      } else {
        assert key[..1] == [key[0]];
        assert Escape(key) == [key[0]] + rest;
        assert Escape(key)[1..] == rest;
        if key[1..] != "" { EscapeEnds(key[1..]); }
        forall i | 1 <= i < |Escape(key)| ensures !Separates(Escape(key), i) {
          assert !Separates(rest, i - 1);
        }
      }
      assert key == [key[0]] + key[1..];
    }
  }

  // ---------- the lines that are written ----------

  function Separator(pretty: bool): string {
    if pretty then " = " else "="
  }

  function KeyLine(key: string, value: string, pretty: bool): string {
    Escape(key) + Separator(pretty) + Trim(value)
  }

  // What an item needs so that its line reads back: the line must not look like a comment or a section,
  // and, without spaces around the sign, the key must not escape the sign
  predicate Writable(key: string, value: string, pretty: bool) {
    key != "" ==>
      && key[0] != ';'
      && (key[0] == '[' ==> forall c :: c in [';', ']'] ==> c !in key && c !in value)
      && (pretty || key[|key| - 1] != '\\')
  }

  lemma TrimFirst(w: string, s: string)
    requires AllSpace(w) && s != "" && !IsSpace(s[0])
    ensures Trim(w + s) != "" && Trim(w + s)[0] == s[0]
  {
    var a, z := TrimParts(s);
    TrimPadded(w, s, "");
    assert w + s + "" == w + s;
    assert (a + Trim(s) + z)[0] == s[0];
  }

  // A line made of an escaped key, the sign and a value, with the same padding on both sides
  ghost predicate Written(line: string, e: string, pad: string, v: string) {
    && line == e + pad + "=" + (pad + v)
    && Trimmed(e) && Trimmed(v) && AllSpace(pad)
    && (e != "" ==> e[0] != ';' && (e[0] == '[' ==> ';' !in line && ']' !in line))
    && (e != "" ==> pad != "" || e[|e| - 1] != '\\')
    && forall i :: 0 <= i < |e| ==> !Separates(e, i)
  }

  lemma TrimKeepsOut(s: string, c: char)
    requires c !in s
    ensures c !in Trim(s)
  {
    var w, z := TrimParts(s);
  }

  lemma WrittenIsKeyLike(line: string, e: string, pad: string, v: string)
    requires Written(line, e, pad, v)
    ensures KeyLike(line)
  {
    if e != "" {
      TrimFirst("", line);
      assert "" + line == line;
      if e[0] == '[' {
        TrimKeepsOut(line, ';');
        TrimKeepsOut(line, ']');
      }
    } else {
      assert line == pad + ("=" + (pad + v));
      TrimFirst(pad, "=" + (pad + v));
    }
  }

  lemma WrittenEquals(line: string, e: string, pad: string, v: string)
    requires Written(line, e, pad, v)
    ensures EqualsAt(line) == |e| + |pad|
  {
    var at := |e| + |pad|;
    forall k | 0 <= k < at ensures !Separates(line, k) {
      if k < |e| {
        assert line[k] == e[k] && !Separates(e, k);
      } else {
        assert line[k] == pad[k - |e|];
      }
    }
    assert at > 0 ==> line[at - 1] == if pad != "" then pad[|pad| - 1] else e[|e| - 1];
    assert Separates(line, at);
  }

  lemma WrittenSplits(line: string, e: string, pad: string, v: string)
    requires Written(line, e, pad, v)
    ensures SplitAt(line, |e| + |pad|) == KeyValue(Unescape(e), v)
  {
    assert line[..|e| + |pad|] == "" + e + pad;
    assert line[|e| + |pad| + 1..] == pad + v + "";
    TrimCore("", e, pad);
    TrimCore(pad, v, "");
  }

  lemma WrittenReads(line: string, e: string, pad: string, v: string)
    requires Written(line, e, pad, v)
    ensures ParseLine(line) == KeyValue(Unescape(e), v)
  {
    WrittenIsKeyLike(line, e, pad, v);
    ParsePlainLine(line);
    WrittenEquals(line, e, pad, v);
    WrittenSplits(line, e, pad, v);
  }

  function Pad(pretty: bool): string {
    if pretty then " " else ""
  }

  lemma PadsMatch(e: string, v: string, pretty: bool)
    ensures e + Separator(pretty) + v == e + Pad(pretty) + "=" + (Pad(pretty) + v)
  {
    if pretty {
      assert Separator(pretty) == Pad(pretty) + "=" + Pad(pretty);
    } else {
      assert e + "" == e && "" + v == v;
    }
  }

  lemma {:induction false} EscapeChars(key: string, c: char)
    requires c != '\\'
    ensures c in Escape(key) <==> c in key
  {
    if key != "" {
      assert key[..1] == [key[0]] && key == [key[0]] + key[1..];
      EscapeChars(key[1..], c);
      assert Escape(key) == (if key[0] == '=' then ESCAPED_EQ else [key[0]]) + Escape(key[1..]);
    }
  }

  lemma ValueKeepsOut(value: string, c: char)
    requires !IsSpace(c)
    ensures c in Trim(value) <==> c in value
  {
    var w, z := TrimParts(value);
  }

  lemma KeyLineChars(key: string, value: string, pretty: bool, c: char)
    requires c == ';' || c == ']'
    ensures c in KeyLine(key, value, pretty) <==> c in key || c in value
  {
    EscapeChars(key, c);
    ValueKeepsOut(value, c);
  }

  lemma KeyLineIsWritten(key: string, value: string, pretty: bool)
    requires Trimmed(key) && Writable(key, value, pretty)
    ensures Written(KeyLine(key, value, pretty), Escape(key), Pad(pretty), Trim(value))
  {
    PadsMatch(Escape(key), Trim(value), pretty);
    TrimIsTrimmed(value);
    EscapeRoundTrip(key);
    KeyLineChars(key, value, pretty, ';');
    KeyLineChars(key, value, pretty, ']');
    if key != "" { EscapeEnds(key); }
  }

  // Reading a written key line gives the key and the trimmed value
  lemma KeyLineReads(key: string, value: string, pretty: bool)
    requires Trimmed(key) && Writable(key, value, pretty)
    ensures ParseLine(KeyLine(key, value, pretty)) == KeyValue(key, Trim(value))
  {
    KeyLineIsWritten(key, value, pretty);
    WrittenReads(KeyLine(key, value, pretty), Escape(key), Pad(pretty), Trim(value));
    EscapeRoundTrip(key);
  }

  // ---------- the items that do not read back ----------

  lemma KeyLineFirst(key: string, value: string, pretty: bool)
    requires key != "" && Trimmed(key)
    ensures var line := KeyLine(key, value, pretty);
            Trim(line) != "" && Trim(line)[0] == if key[0] == '=' then '\\' else key[0]
  {
    EscapeEnds(key);
    var line := KeyLine(key, value, pretty);
    assert line[0] == Escape(key)[0];
    TrimFirst("", line);
    assert "" + line == line;
  }

  lemma SemicolonFirst(key: string, value: string, pretty: bool)
    requires key != "" && Trimmed(key) && key[0] == ';'
    ensures ParseLine(KeyLine(key, value, pretty)) == Comment
  {
    KeyLineFirst(key, value, pretty);
  }

  // A bracketed line with a semicolon loses everything from the semicolon on
  lemma CutValue(line: string)
    requires Trim(line) != "" && Trim(line)[0] == '[' && ParseLine(line).KeyValue?
    ensures ';' !in ParseLine(line).value
  {
    var t := Trim(line);
    var cut := t[..IndexOf(t, ';')];
    assert ';' !in cut;
    TrimKeepsOut(cut[EqualsAt(cut) + 1..], ';');
  }

  // A bracketed line whose first unescaped sign comes after a semicolon has no value at all
  lemma CutBeforeSign(line: string, e: string, at: nat)
    requires Trim(line) == line && line != "" && line[0] == '[' && e <= line
    requires at < |e| && e[at] == ';' && forall i :: 0 <= i < |e| ==> !Separates(e, i)
    ensures !ParseLine(line).KeyValue?
  {
    assert line[at] == ';' && IndexOf(line, ';') <= at;
    var cut := line[..IndexOf(line, ';')];
    forall k | 0 <= k < |cut| ensures !Separates(cut, k) {
      assert !Separates(e, k) && cut[k] == e[k];
    }
  }

  lemma TrimOfBracketed(line: string)
    requires line != "" && !IsSpace(line[0])
    ensures Trim(line) == TrimRight(line) && Trim(line) <= line
  {
    RightOfTrimmed(line);
    var r := TrimRight(line);
    assert r != "" && r[0] == line[0];
  }

  lemma BracketFirst(key: string, value: string, pretty: bool)
    requires key != "" && Trimmed(key) && key[0] == '[' && (exists c :: c in [';', ']'] && (c in key || c in value))
    ensures ParseLine(KeyLine(key, value, pretty)) != KeyValue(key, Trim(value))
  {
    var line := KeyLine(key, value, pretty);
    KeyLineFirst(key, value, pretty);
    ValueKeepsOut(value, ';');
    if ParseLine(line).KeyValue? {
      CutValue(line);
      if ';' in key {
        SemicolonInKey(key, value, pretty);
      } else if ';' !in value {
        KeyLineChars(key, value, pretty, ';');
        KeyLineChars(key, value, pretty, ']');
        ClosedBracket(line);
      }
    }
  }

  // Without a semicolon, a closing bracket makes a section
  lemma ClosedBracket(line: string)
    requires Trim(line) != "" && Trim(line)[0] == '[' && ';' !in line && ']' in line
    ensures ParseLine(line).Section?
  {
    var t := Trim(line);
    TrimKeepsOut(line, ';');
    ValueKeepsOut(line, ']');
    assert IndexOf(t, ';') == |t| && t[..|t|] == t;
  }

  lemma SemicolonInKey(key: string, value: string, pretty: bool)
    requires key != "" && Trimmed(key) && key[0] == '[' && ';' in key
    ensures !ParseLine(KeyLine(key, value, pretty)).KeyValue?
  {
    var line, e := KeyLine(key, value, pretty), Escape(key);
    EscapeChars(key, ';');
    EscapeRoundTrip(key);
    EscapeEnds(key);
    assert line[0] == '[';
    TrimOfBracketed(line);
    var t := Trim(line);
    TrimIsTrimmed(line);
    var at :| 0 <= at < |e| && e[at] == ';';
    KeyIsInTrimmed(line, e, t);
    CutBeforeSign(t, e, at);
  }

  lemma KeyIsInTrimmed(line: string, e: string, t: string)
    requires e <= line && e != "" && !IsSpace(e[|e| - 1]) && t == TrimRight(line)
    ensures e <= t
  {
    RightOfTrimmed(line);
    assert line[|e| - 1] == e[|e| - 1];
  }

  // A backslash right before the sign escapes it, so what is read as the value is shorter
  lemma BackslashLast(key: string, value: string)
    requires key != "" && Trimmed(key) && key[|key| - 1] == '\\' && KeyLike(KeyLine(key, value, false))
    ensures ParseLine(KeyLine(key, value, false)) != KeyValue(key, Trim(value))
  {
    hide ParseLine, Trim, Escape, Unescape, KeyLike, Trimmed;
    var line, e := KeyLine(key, value, false), Escape(key);
    ParsePlainLine(line);
    EscapeRoundTrip(key);
    EscapeEnds(key);
    assert line == e + ("=" + Trim(value));
    forall k | 0 <= k <= |e| ensures !Separates(line, k) {
      if k < |e| { assert !Separates(e, k); } else { assert line[k - 1] == e[|e| - 1]; }
    }
    var at := EqualsAt(line);
    if at < |line| { TrimIsNoLonger(line[at + 1..]); }
  }

  // An item reads back from its line exactly when it is writable
  lemma KeyLineReadsExactly(key: string, value: string, pretty: bool)
    requires Trimmed(key)
    ensures ParseLine(KeyLine(key, value, pretty)) == KeyValue(key, Trim(value)) <==> Writable(key, value, pretty)
  {
    if Writable(key, value, pretty) {
      KeyLineReads(key, value, pretty);
    } else if key[0] == ';' {
      SemicolonFirst(key, value, pretty);
    } else if key[0] == '[' && exists c :: c in [';', ']'] && (c in key || c in value) {
      BracketFirst(key, value, pretty);
    } else {
      KeyLineFirst(key, value, pretty);
      if key[0] == '[' {
        KeyLineChars(key, value, pretty, ';');
        KeyLineChars(key, value, pretty, ']');
        TrimKeepsOut(KeyLine(key, value, pretty), ';');
        TrimKeepsOut(KeyLine(key, value, pretty), ']');
      }
      BackslashLast(key, value);
    }
  }

  // ---------- section lines ----------

  function SectionLine(name: string): string {
    "[" + name + "]"
  }

  lemma PlainSectionReads(name: string)
    requires Trimmed(name) && ';' !in name
    ensures ParseLine(SectionLine(name)) == Section(name)
  {
    var line := SectionLine(name);
    assert forall k :: 1 <= k < |line| - 1 ==> line[k] == name[k - 1];
    assert IndexOf(line, ';') == |line|;
    assert line[..|line|] == line && LastIndexOf(line, ']') == |line| - 1;
    assert line[1..|line| - 1] == name;
  }

  lemma CutSectionReads(name: string)
    requires ';' in name
    ensures ParseLine(SectionLine(name)) != Section(name)
  {
    var line := SectionLine(name);
    var k :| 0 <= k < |name| && name[k] == ';';
    assert line[k + 1] == ';';
    var cut := line[..IndexOf(line, ';')];
    var close := LastIndexOf(cut, ']');
    if close >= 0 { TrimIsNoLonger(cut[1..close]); }
  }

  // A section line reads back as its section exactly when the name holds no semicolon
  lemma SectionLineReads(name: string)
    requires Trimmed(name)
    ensures ParseLine(SectionLine(name)) == Section(name) <==> ';' !in name
  {
    if ';' in name { CutSectionReads(name); } else { PlainSectionReads(name); }
  }
}
