/** The language of cpuset files, given by what its texts look like: what the printing loops write and exactly what
    the parser accepts (rm/platformcontrol/cgroup/controllers/cpusetcontrol.cpp). */
module CpusetGrammar {
  import opened CpusetVector
  import opened CpusetText

  // One PU or a range of them, as decimal digits
  datatype Item = One(a: string) | Span(a: string, b: string)

  ghost predicate IsNumber(s: string) {
    s != "" && forall k :: 0 <= k < |s| ==> '0' <= s[k] <= '9'
  }

  // The end of the text, or a NUL and anything behind it
  predicate IsEnd(s: string) {
    s == "" || s[0] == '\0'
  }

  ghost predicate Good(i: Item) {
    IsNumber(i.a) && (i.Span? ==> IsNumber(i.b))
  }

  ghost predicate WellFormed(items: seq<Item>) {
    forall k :: 0 <= k < |items| ==> Good(items[k])
  }

  function Written(i: Item): string {
    match i
    case One(a) => a
    case Span(a, b) => a + "-" + b
  }

  // The items with a comma between any two
  function WrittenAll(items: seq<Item>): string {
    if items == [] then ""
    else if |items| == 1 then Written(items[0])
    else Written(items[0]) + "," + WrittenAll(items[1..])
  }

  // What the items stand for
  function Meant(i: Item): Range
    requires Good(i)
  {
    Range(Cpu(i.a), Cpu(if i.Span? then i.b else i.a))
  }

  function MeantAll(items: seq<Item>): (r: Cpuset)
    requires WellFormed(items)
    ensures |r| == |items| && forall k :: 0 <= k < |r| ==> r[k] == Meant(items[k])
  {
    seq(|items|, k requires 0 <= k < |items| => Meant(items[k]))
  }

  // Behind the last item there may be one more comma; the end is the end of the text or a NUL and anything
  function Tail(comma: bool, end: string): string {
    (if comma then "," else "") + end
  }

  // ---------- what is accepted ----------

  lemma NextOfOne(a: string, rest: string)
    requires IsNumber(a) && (AtEnd(rest) || rest[0] == ',')
    ensures Next(a + rest) == Got(Range(Cpu(a), Cpu(a)), if AtEnd(rest) then rest else rest[1..])
  {
    hide Cpu;
    var s := a + rest;
    LeadingDigitsExact(a, rest);
    assert s[..|a|] == a && s[|a|..] == rest;
    assert s[0] == a[0] && IsDigit(a[0]);
  }

  lemma NextOfSpan(a: string, b: string, rest: string)
    requires IsNumber(a) && IsNumber(b) && (AtEnd(rest) || rest[0] == ',')
    ensures Next(a + ("-" + (b + rest))) == Got(Range(Cpu(a), Cpu(b)), if AtEnd(rest) then rest else rest[1..])
  {
    hide Cpu;
    var t := b + rest;
    var u := "-" + t;
    var s := a + u;
    LeadingDigitsExact(a, u);
    LeadingDigitsExact(b, rest);
    assert s[..|a|] == a && s[|a|..] == u && u[1..] == t;
    assert t[..|b|] == b && t[|b|..] == rest;
    assert s[0] == a[0] && IsDigit(a[0]) && t[0] == b[0] && IsDigit(b[0]);
  }

  lemma NextOfItem(i: Item, rest: string)
    requires Good(i) && (AtEnd(rest) || rest[0] == ',')
    ensures Next(Written(i) + rest) == Got(Meant(i), if AtEnd(rest) then rest else rest[1..])
  {
    hide Cpu, Next, AtEnd;
    match i {
      case One(a) => NextOfOne(a, rest);
      case Span(a, b) =>
        assert a + "-" + b + rest == a + ("-" + (b + rest));
        NextOfSpan(a, b, rest);
    }
  }

  lemma ParseGot(s: string, r: Range, rest: string, v: Cpuset)
    requires Next(s) == Got(r, rest) && Parse(rest) == Parsed(v)
    ensures Parse(s) == Parsed([r] + v)
  {
    hide Next;
  }

  lemma EndIsEnd(s: string)
    ensures IsEnd(s) <==> AtEnd(s)
  {
  }

  lemma NothingToRead(end: string)
    requires AtEnd(end)
    ensures Next(end) == Done && Parse(end) == Parsed([])
  {
  }

  lemma MeantMore(i: Item, items: seq<Item>)
    requires Good(i) && WellFormed(items)
    ensures WellFormed([i] + items) && MeantAll([i] + items) == [Meant(i)] + MeantAll(items)
  {
  }

  lemma WrittenMore(i: Item, items: seq<Item>, tail: string)
    ensures WrittenAll([i] + items) + tail
         == if items == [] then Written(i) + tail else Written(i) + ("," + (WrittenAll(items) + tail))
  {
    assert ([i] + items)[1..] == items;
    if items != [] {
      assert Written(i) + "," + WrittenAll(items) + tail == Written(i) + ("," + (WrittenAll(items) + tail));
    }
  }

  // Any items with commas between them are accepted, with one more comma behind the last if there is one
  lemma {:induction false} ItemsAreAccepted(items: seq<Item>, comma: bool, end: string)
    requires WellFormed(items) && IsEnd(end) && (comma ==> items != [])
    ensures Parse(WrittenAll(items) + Tail(comma, end)) == Parsed(MeantAll(items))
    decreases |items|
  {
    hide Written, WrittenAll, Meant, MeantAll, Good, Next, Parse, AtEnd, IsEnd;
    var tail := Tail(comma, end);
    EndIsEnd(end);
    NothingToRead(end);
    if items == [] {
      NoItems(end);
    } else {
      var i, rest := items[0], items[1..];
      assert items == [i] + rest;
      MeantMore(i, rest);
      WrittenMore(i, rest, tail);
      if rest == [] {
        TailEnds(comma, end);
        NextOfItem(i, tail);
        NoItems(end);
        ParseGot(Written(i) + tail, Meant(i), end, []);
      } else {
        var more := WrittenAll(rest) + tail;
        ItemsAreAccepted(rest, comma, end);
        CommaGoesOn(more);
        NextOfItem(i, "," + more);
        ParseGot(Written(i) + ("," + more), Meant(i), more, MeantAll(rest));
      }
    }
  }

  lemma NoItems(end: string)
    ensures WrittenAll([]) == "" && MeantAll([]) == [] && "" + Tail(false, end) == end && WellFormed([])
  {
  }

  lemma TailEnds(comma: bool, end: string)
    requires AtEnd(end)
    ensures var tail := Tail(comma, end);
            (AtEnd(tail) || tail[0] == ',') && (if AtEnd(tail) then tail else tail[1..]) == end
  {
    if comma { assert Tail(comma, end)[1..] == end; } else { assert Tail(comma, end) == end; }
  }

  lemma CommaGoesOn(more: string)
    ensures var t := "," + more;
            !AtEnd(t) && t[0] == ',' && t[1..] == more
  {
  }

  lemma AfterGot(r: Range, s: string)
    requires After(r, s).Got?
    ensures AtEnd(s) || (s != "" && s[0] == ',')
  {
  }

  lemma DigitsAreNumber(s: string)
    ensures IsNumber(s) <==> s != "" && AllDigits(s)
  {
  }

  // The pieces of the item that Next has read
  lemma PiecesOfNext(s: string) returns (i: Item, rest: string)
    requires Next(s).Got?
    ensures Good(i) && s == Written(i) + rest && (AtEnd(rest) || (rest != "" && rest[0] == ','))
  {
    hide Cpu, LeadingDigits, After, IsNumber, AllDigits;
    var n := LeadingDigits(s);
    DigitsAreNumber(s[..n]);
    assert s == s[..n] + s[n..];
    if s[n..] != "" && s[n] == '-' {
      var t := s[n..][1..];
      var m := LeadingDigits(t);
      DigitsAreNumber(t[..m]);
      i, rest := Span(s[..n], t[..m]), t[m..];
      assert s[n..] == "-" + t && t == t[..m] + t[m..];
      assert s == s[..n] + "-" + t[..m] + t[m..];
      AfterGot(Range(Cpu(s[..n]), Cpu(t[..m])), rest);
    } else {
      i, rest := One(s[..n]), s[n..];
      AfterGot(Range(Cpu(s[..n]), Cpu(s[..n])), rest);
    }
  }

  lemma ItemOfNext(s: string) returns (i: Item, rest: string)
    requires Next(s).Got?
    ensures Good(i) && s == Written(i) + rest && (AtEnd(rest) || (rest != "" && rest[0] == ','))
    ensures Next(s) == Got(Meant(i), if AtEnd(rest) then rest else rest[1..])
  {
    hide Next, Good, Written, Meant;
    i, rest := PiecesOfNext(s);
    NextOfItem(i, rest);
  }

  // And nothing else is: a text that is accepted has this form, and is read as what its items mean
  lemma {:induction false} AcceptedAreItems(s: string) returns (items: seq<Item>, comma: bool, end: string)
    requires Parse(s).Parsed?
    ensures WellFormed(items) && IsEnd(end) && (comma ==> items != [])
    ensures s == WrittenAll(items) + Tail(comma, end)
    ensures Parse(s) == Parsed(MeantAll(items))
    decreases |s|
  {
    hide Written, WrittenAll, Meant, MeantAll, Good, Tail, AtEnd, IsEnd, Next, Parse;
    ParseRest(s);
    if Next(s) == Done {
      items, comma, end := [], false, s;
      EndIsEnd(s);
      NoItems(s);
      NothingToRead(s);
    } else {
      var i, rest := ItemOfNext(s);
      var after := Next(s).rest;
      if AtEnd(rest) {
        items, comma, end := [i], false, rest;
        EndIsEnd(rest);
        NothingToRead(rest);
        NoItems(rest);
        LastItem(i, rest);
        ParseGot(s, Meant(i), rest, []);
        MeantMore(i, []);
      } else {
        var items', comma', end' := AcceptedAreItems(after);
        items, comma, end := [i] + items', comma' || items' == [], end';
        PutFirst(i, items', comma', end', rest, after);
        ParseGot(s, Meant(i), after, MeantAll(items'));
        MeantMore(i, items');
      }
    }
  }

  lemma ParseRest(s: string)
    requires Parse(s).Parsed?
    ensures Next(s) == Done ==> AtEnd(s)
    ensures Next(s) != Done ==> Next(s).Got? && |Next(s).rest| < |s| && Parse(Next(s).rest).Parsed?
  {
  }

  lemma LastItem(i: Item, end: string)
    ensures [i] + [] == [i] && Written(i) + end == WrittenAll([i]) + Tail(false, end)
  {
    assert Tail(false, end) == end;
  }

  lemma PutFirst(i: Item, items: seq<Item>, comma: bool, end: string, rest: string, after: string)
    requires rest != "" && rest[0] == ',' && after == rest[1..]
    requires after == WrittenAll(items) + Tail(comma, end) && (comma ==> items != [])
    ensures Written(i) + rest == WrittenAll([i] + items) + Tail(comma || items == [], end)
  {
    hide Written, WrittenAll;
    assert rest == "," + after;
    WrittenMore(i, items, Tail(comma || items == [], end));
    if items == [] {
      NoItems(end);
      assert Tail(true, end) == "," + end;
    }
  }

  // ---------- what is written ----------

  function AsItem(r: Range): Item
    requires r.first >= 0 && r.last >= 0
  {
    if r.first == r.last then One(Digits(r.first)) else Span(Digits(r.first), Digits(r.last))
  }

  ghost predicate NoNegatives(vec: Cpuset) {
    forall k :: 0 <= k < |vec| ==> vec[k].first >= 0 && vec[k].last >= 0
  }

  function AsItems(vec: Cpuset): (r: seq<Item>)
    requires NoNegatives(vec)
    ensures |r| == |vec| && forall k :: 0 <= k < |r| ==> r[k] == AsItem(vec[k])
  {
    seq(|vec|, k requires 0 <= k < |vec| => AsItem(vec[k]))
  }

  lemma ItemIsGood(r: Range)
    requires r.first >= 0 && r.last >= 0
    ensures Good(AsItem(r))
  {
    DigitsAreNumber(Digits(r.first));
    DigitsAreNumber(Digits(r.last));
  }

  lemma ItemIsWritten(r: Range)
    requires r.first >= 0 && r.last >= 0
    ensures CpusetText.Item(r) == Written(AsItem(r))
  {
  }

  // Both printing loops write the ranges in order, with a comma between any two, a range of one PU as its number
  lemma {:induction false} TextIsWritten(vec: Cpuset)
    requires NoNegatives(vec)
    ensures WellFormed(AsItems(vec)) && Text(vec) == WrittenAll(AsItems(vec))
    decreases |vec|
  {
    hide Digits, Text, Good, Written, WrittenAll, AsItem, CpusetText.Item;
    if vec == [] {
      NoText();
    } else {
      var first, rest := AsItem(vec[0]), vec[1..];
      TextIsWritten(rest);
      TextFromFront(vec);
      ItemIsGood(vec[0]);
      ItemIsWritten(vec[0]);
      assert AsItems(vec) == [first] + AsItems(rest);
      WrittenMore(first, AsItems(rest), "");
      WithoutTail(WrittenAll(AsItems(vec)), Written(first), Text(rest));
    }
  }

  lemma WithoutTail(a: string, b: string, c: string)
    ensures a + "" == a && b + "" == b && b + ("," + (c + "")) == b + ("," + c)
  {
  }

  lemma NoText()
    ensures Text([]) == "" && WrittenAll([]) == "" && AsItems([]) == []
  {
  }

  // The numbers are written without padding
  lemma {:induction false} DigitsHaveNoPadding(n: nat)
    ensures n > 0 ==> Digits(n)[0] != '0'
  {
    if n >= 10 {
      DigitsHaveNoPadding(n / 10);
      assert Digits(n)[0] == Digits(n / 10)[0];
    }
  }
}
