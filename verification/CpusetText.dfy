/** The text form of a cpuset vector, "0-1,3,4-6": the printing loops of
    rm/platformcontrol/cgroup/controllers/cpusetcontrol.cpp and rm/librmcommon/cpusetvector.cpp,
    and the parser that reads cpuset files back. */
module CpusetText {
  import opened CpusetVector

  datatype ParseResult = Parsed(vec: Cpuset) | InvalidFormat

  // ---------- decimal numbers ----------

  predicate IsDigit(c: char) {
    '0' <= c <= '9'
  }

  ghost predicate AllDigits(s: string) {
    forall k :: 0 <= k < |s| ==> IsDigit(s[k])
  }

  // How operator<< prints a natural number
  function Digits(n: nat): (s: string)
    ensures s != "" && AllDigits(s)
  {
    if n < 10 then ['0' + n as char] else Digits(n / 10) + ['0' + (n % 10) as char]
  }

  function Decimal(n: int): string {
    if n < 0 then "-" + Digits(-n) else Digits(n)
  }

  function Value(s: string): (n: nat)
    requires AllDigits(s)
  {
    if s == "" then 0 else 10 * Value(s[..|s| - 1]) + (s[|s| - 1] as int - '0' as int)
  }

  lemma {:induction false} ValueOfDigits(n: nat)
    ensures Value(Digits(n)) == n
  {
    if n >= 10 {
      ValueOfDigits(n / 10);
      assert Digits(n)[..|Digits(n)| - 1] == Digits(n / 10);
    }
  }

  function LeadingDigits(s: string): (n: nat)
    ensures n <= |s| && AllDigits(s[..n])
    ensures n < |s| ==> !IsDigit(s[n])
  {
    if s == "" || !IsDigit(s[0]) then 0
    else
      var n := LeadingDigits(s[1..]);
      assert s[..n + 1] == [s[0]] + s[1..][..n];
      n + 1
  }

  lemma {:induction false} LeadingDigitsExact(s: string, rest: string)
    requires AllDigits(s) && (rest != "" ==> !IsDigit(rest[0]))
    ensures LeadingDigits(s + rest) == |s|
  {
    if s != "" {
      assert (s + rest)[1..] == s[1..] + rest;
      LeadingDigitsExact(s[1..], rest);
    } else {
      assert s + rest == rest;
    }
  }

  const LONG_MAX := 0x7fff_ffff_ffff_ffff

  function AsInt(n: int): int {
    if -0x8000_0000 <= n < 0x8000_0000 then n else (n + 0x8000_0000) % 0x1_0000_0000 - 0x8000_0000
  }

  // strtol saturates; the result is cut to an int and then to a short
  function Cpu(s: string): int
    requires AllDigits(s)
  {
    AsShort(AsInt(if Value(s) > LONG_MAX then LONG_MAX else Value(s)))
  }

  lemma ShortsFit(n: int)
    requires 0 <= n <= SHORT_MAX
    ensures AsShort(n) == n && AsInt(n) == n
  {
  }

  lemma CpuOfShort(n: int)
    requires 0 <= n <= SHORT_MAX
    ensures Cpu(Digits(n)) == n
  {
    ValueOfDigits(n);
    ShortsFit(n);
  }

  // ---------- printing ----------

  function Item(r: Range): string {
    if r.first == r.last then Decimal(r.first) else Decimal(r.first) + "-" + Decimal(r.last)
  }

  function Text(vec: Cpuset): string {
    if vec == [] then ""
    else Text(vec[..|vec| - 1]) + (if |vec| > 1 then "," else "") + Item(vec[|vec| - 1])
  }

  // The printing loop of setCpus
  method SetCpusText(cpus: Cpuset) returns (os: string)
    ensures os == Text(cpus)
  {
    hide Decimal;
    os := "";
    for i := 0 to |cpus|
      invariant os == Text(cpus[..i])
    {
      assert cpus[..i + 1][..i] == cpus[..i];
      if i > 0 { os := os + ","; }
      os := os + Decimal(cpus[i].first);
      if cpus[i].last != cpus[i].first {
        os := os + "-" + Decimal(cpus[i].last);
      }
    }
    assert cpus[..|cpus|] == cpus;
  }

  // The printing loop of rmcommon::toString, with its first-item flag
  method ToString(vec: Cpuset) returns (os: string)
    ensures os == Text(vec)
  {
    os := "";
    var f := true;
    for i := 0 to |vec|
      invariant os == Text(vec[..i])
      invariant f <==> i == 0
    {
      assert vec[..i + 1][..i] == vec[..i];
      if f {
        f := false;
      } else {
        os := os + ",";
      }
      if vec[i].first == vec[i].last {
        os := os + Decimal(vec[i].first);
      } else {
        os := os + (Decimal(vec[i].first) + "-" + Decimal(vec[i].last));
      }
    }
    assert vec[..|vec|] == vec;
  }

  lemma {:induction false} TextFromFront(vec: Cpuset)
    requires vec != []
    ensures Text(vec) == Item(vec[0]) + (if |vec| > 1 then "," + Text(vec[1..]) else "")
  {
    hide Decimal;
    var n := |vec| - 1;
    if n > 0 {
      TextFromFront(vec[..n]);
      assert vec[..n][1..] == vec[1..][..n - 1];
      assert Text(vec[1..]) == Text(vec[1..][..n - 1]) + (if n > 1 then "," else "") + Item(vec[n]);
    }
  }

  // ---------- parsing ----------

  // A C string ends at its first NUL
  predicate AtEnd(s: string) {
    s == "" || s[0] == '\0'
  }

  predicate StartsDigit(s: string) {
    s != "" && IsDigit(s[0])
  }

  function Prepend(vec: Cpuset, r: ParseResult): ParseResult {
    match r
    case Parsed(rest) => Parsed(vec + rest)
    case InvalidFormat => InvalidFormat
  }

  datatype Step = Done | Bad | Got(item: Range, rest: string)

  // What follows an item: the end of the text, or a comma to skip
  function After(r: Range, s: string): (step: Step)
    ensures step.Got? ==> |step.rest| <= |s|
  {
    if AtEnd(s) then Got(r, s)
    else if s[0] == ',' then Got(r, s[1..])
    else Bad
  }

  // Reads one item
  function Next(s: string): (step: Step)
    ensures step.Got? ==> |step.rest| < |s|
  {
    if AtEnd(s) then Done
    else if !StartsDigit(s) then Bad
    else
      var n := LeadingDigits(s);
      var cpu1 := Cpu(s[..n]);
      var rest := s[n..];
      if rest != "" && rest[0] == '-' then
        var t := rest[1..];
        if !StartsDigit(t) then Bad
        else
          var m := LeadingDigits(t);
          After(Range(cpu1, Cpu(t[..m])), t[m..])
      else After(Range(cpu1, cpu1), rest)
  }

  // The whole language of the parser, item by item; a final comma is accepted
  function Parse(s: string): ParseResult
    decreases |s|
  {
    match Next(s)
    case Done => Parsed([])
    case Bad => InvalidFormat
    case Got(r, rest) => Prepend([r], Parse(rest))
  }

  lemma ParseStep(vec: Cpuset, s: string)
    ensures Prepend(vec, Parse(s)) ==
            match Next(s)
            case Done => Parsed(vec)
            case Bad => InvalidFormat
            case Got(r, rest) => Prepend(vec + [r], Parse(rest))
  {
    if Next(s).Got? {
      var tail := Parse(Next(s).rest);
      if tail.Parsed? { assert vec + [Next(s).item] + tail.vec == vec + ([Next(s).item] + tail.vec); }
    }
  }

  // A char pointer p into the line stands for the text from there to the end: p + 1 is p[1..]
  method ParseCpuSet(line: string) returns (r: ParseResult)
    ensures r == Parse(line)
  {
    var vec: Cpuset := [];
    var p := line;
    ParseStep([], line);
    while !AtEnd(p)
      invariant Parse(line) == Prepend(vec, Parse(p))
      decreases |p|
    {
      ParseStep(vec, p);
      if !IsDigit(p[0]) { return InvalidFormat; }
      var endptr := p[LeadingDigits(p)..];
      var cpu1 := Cpu(p[..LeadingDigits(p)]);
      if AtEnd(endptr) {
        vec := vec + [Range(cpu1, cpu1)];
        p := endptr;
      } else if endptr[0] == ',' {
        vec := vec + [Range(cpu1, cpu1)];
        p := endptr[1..];
      } else if endptr[0] == '-' {
        p := endptr[1..];
        if AtEnd(p) || !IsDigit(p[0]) { return InvalidFormat; }
        endptr := p[LeadingDigits(p)..];
        var cpu2 := Cpu(p[..LeadingDigits(p)]);
        vec := vec + [Range(cpu1, cpu2)];
        if AtEnd(endptr) {
          p := endptr;
        } else if endptr[0] == ',' {
          p := endptr[1..];
        } else {
          return InvalidFormat;
        }
      } else {
        return InvalidFormat;
      }
    }
    ParseStep(vec, p);
    r := Parsed(vec);
  }

  // ---------- the round trip ----------

  ghost predicate FitsShort(r: Range) {
    -32768 <= r.first <= SHORT_MAX && -32768 <= r.last <= SHORT_MAX
  }

  ghost predicate NonNegative(r: Range) {
    0 <= r.first && 0 <= r.last
  }

  // Reading one printed item: what follows it decides the rest, and a negative bound is refused
  lemma NextOfItem(r: Range, s: string)
    requires FitsShort(r) && (s != "" ==> s[0] == ',')
    ensures Next(Item(r) + s) == if NonNegative(r) then After(r, s) else Bad
  {
    if r.first < 0 {
      assert (Item(r) + s)[0] == '-';
    } else if r.first == r.last {
      NextOfSingle(r.first, s);
    } else {
      NextOfPair(r, s);
    }
  }

  lemma {:induction false} SplitDigits(n: int, after: string)
    requires 0 <= n <= SHORT_MAX && (after != "" ==> !IsDigit(after[0]))
    ensures var s := Digits(n) + after;
            var k := LeadingDigits(s);
            StartsDigit(s) && Cpu(s[..k]) == n && s[k..] == after
  {
    var ds := Digits(n);
    LeadingDigitsExact(ds, after);
    assert (ds + after)[..|ds|] == ds && (ds + after)[|ds|..] == after;
    CpuOfShort(n);
  }

  lemma NextOfSingle(n: int, s: string)
    requires 0 <= n <= SHORT_MAX && (s != "" ==> s[0] == ',')
    ensures Next(Digits(n) + s) == After(Range(n, n), s)
  {
    SplitDigits(n, s);
  }

  lemma {:induction false} NextOfDash(n: int, t: string)
    requires 0 <= n <= SHORT_MAX
    ensures Next(Digits(n) + ("-" + t)) ==
            if !StartsDigit(t) then Bad
            else var m := LeadingDigits(t); After(Range(n, Cpu(t[..m])), t[m..])
  {
    SplitDigits(n, "-" + t);
    assert ("-" + t)[1..] == t;
  }

  lemma NextOfPair(r: Range, s: string)
    requires FitsShort(r) && 0 <= r.first && r.first != r.last && (s != "" ==> s[0] == ',')
    ensures Next(Item(r) + s) == if NonNegative(r) then After(r, s) else Bad
  {
    var t := Decimal(r.last) + s;
    assert Item(r) + s == Digits(r.first) + ("-" + t);
    NextOfDash(r.first, t);
    if 0 <= r.last {
      SplitDigits(r.last, s);
    } else {
      assert t[0] == '-';
    }
  }

  lemma {:induction false} ParseFirstItem(vec: Cpuset)
    requires vec != [] && FitsShort(vec[0])
    ensures Parse(Text(vec)) ==
            if NonNegative(vec[0]) then Prepend([vec[0]], Parse(Text(vec[1..]))) else InvalidFormat
  {
    TextFromFront(vec);
    var rest := if |vec| > 1 then "," + Text(vec[1..]) else "";
    NextOfItem(vec[0], rest);
    assert |vec| > 1 ==> rest[1..] == Text(vec[1..]);
  }

  ghost predicate AllNonNegative(vec: Cpuset) {
    forall k :: 0 <= k < |vec| ==> NonNegative(vec[k])
  }

  lemma AllNonNegativeByParts(vec: Cpuset)
    requires vec != []
    ensures AllNonNegative(vec) <==> NonNegative(vec[0]) && AllNonNegative(vec[1..])
  {
    assert forall k :: 0 < k < |vec| ==> vec[k] == vec[1..][k - 1];
  }

  lemma NoItems()
    ensures Parse(Text([])) == Parsed([])
  {
  }

  // Parsing undoes printing exactly for the vectors without a negative bound; every other
  // vector prints to a text that the parser refuses
  lemma {:induction false} TextRoundTrip(vec: Cpuset)
    requires forall k :: 0 <= k < |vec| ==> FitsShort(vec[k])
    ensures Parse(Text(vec)) == if AllNonNegative(vec) then Parsed(vec) else InvalidFormat
  {
    hide Parse, Text;
    NoItems();
    if vec != [] {
      AllNonNegativeByParts(vec);
      ParseFirstItem(vec);
      TextRoundTrip(vec[1..]);
      assert vec == [vec[0]] + vec[1..];
    }
  }

  // What the controller writes to cpuset.cpus and reads back later
  method WriteThenRead(cpus: Cpuset) returns (r: ParseResult)
    requires Shorts(cpus) && forall k :: 0 <= k < |cpus| ==> 0 <= cpus[k].last && cpus[k].first <= SHORT_MAX
    ensures r == Parsed(cpus)
  {
    var os := SetCpusText(cpus);
    r := ParseCpuSet(os);
    TextRoundTrip(cpus);
  }

  // ---------- numbers of any size ----------

  // The number a digit text of this value is read as
  function ReadAs(value: nat): int {
    AsShort(AsInt(if value > LONG_MAX then LONG_MAX else value))
  }

  lemma {:induction false} NumberReads(s: string)
    requires AllDigits(s) && s != ""
    ensures Parse(s) == Parsed([Range(Cpu(s), Cpu(s))])
  {
    hide Cpu;
    LeadingDigitsExact(s, "");
    assert s + "" == s && s[..|s|] == s && s[|s|..] == "";
    assert Next(s) == Got(Range(Cpu(s), Cpu(s)), "");
    assert Parse("") == Parsed([]);
  }

  // Taking off whole multiples of 65536 leaves the last 16 bits
  lemma LastBits(n: int, k: int)
    ensures (n - k * 65536) % 65536 == n % 65536
  {
    assert n == (n / 65536) * 65536 + n % 65536;
    assert n - k * 65536 == (n / 65536 - k) * 65536 + n % 65536;
    assert ((n / 65536 - k) * 65536 + n % 65536) / 65536 == n / 65536 - k;
  }

  lemma IntKeepsLastBits(n: nat)
    ensures AsInt(n) % 65536 == n % 65536
  {
    if n >= 0x8000_0000 {
      var m := n + 0x8000_0000;
      var q := m / 0x1_0000_0000;
      assert m == q * 0x1_0000_0000 + m % 0x1_0000_0000;
      assert AsInt(n) == n - (q * 65536) * 65536;
      LastBits(n, q * 65536);
    }
  }

  lemma ShortOfInt(i: int)
    ensures AsShort(i) == if i % 65536 < 32768 then i % 65536 else i % 65536 - 65536
  {
  }

  // The last 16 bits decide, except that a text beyond a long is read as -1
  lemma ReadAsIs(value: nat)
    ensures ReadAs(value) ==
            if value > LONG_MAX then -1
            else if value % 65536 < 32768 then value % 65536
            else value % 65536 - 65536
  {
    hide AsInt, AsShort;
    var n := if value > LONG_MAX then LONG_MAX else value;
    IntKeepsLastBits(n);
    ShortOfInt(AsInt(n));
  }

  lemma ReadAsFacts(value: nat)
    ensures -32768 <= ReadAs(value) <= SHORT_MAX
    ensures ReadAs(value) == value <==> value <= SHORT_MAX
    ensures 0 <= ReadAs(value) <==> value <= LONG_MAX && value % 65536 < 32768
  {
    hide ReadAs;
    ReadAsIs(value);
  }

  lemma SingleSurvives(r: int)
    requires -32768 <= r <= SHORT_MAX
    ensures Parse(Text([Range(r, r)])) == Parsed([Range(r, r)]) <==> 0 <= r
  {
    TextRoundTrip([Range(r, r)]);
    assert AllNonNegative([Range(r, r)]) <==> NonNegative([Range(r, r)][0]);
  }

  // Every number is accepted. It is read as itself exactly up to 32767; what it is read as can be printed and
  // parsed again exactly when the number is at most LONG_MAX and its last 16 bits are those of a non-negative short.
  lemma NumbersWrap(s: string)
    requires AllDigits(s) && s != ""
    ensures var vec := [Range(ReadAs(Value(s)), ReadAs(Value(s)))];
            && Parse(s) == Parsed(vec)
            && (ReadAs(Value(s)) == Value(s) <==> Value(s) <= SHORT_MAX)
            && (Parse(Text(vec)) == Parsed(vec) <==> Value(s) <= LONG_MAX && Value(s) % 65536 < 32768)
  {
    assert Cpu(s) == ReadAs(Value(s));
    hide Parse, Text, Value, ReadAs, Cpu;
    NumberReads(s);
    ReadAsFacts(Value(s));
    SingleSurvives(ReadAs(Value(s)));
  }

  lemma DigitsWrap(n: nat)
    ensures var vec := [Range(ReadAs(n), ReadAs(n))];
            && Parse(Digits(n)) == Parsed(vec)
            && (ReadAs(n) == n <==> n <= SHORT_MAX)
            && (Parse(Text(vec)) == Parsed(vec) <==> n <= LONG_MAX && n % 65536 < 32768)
  {
    hide Parse, Text;
    ValueOfDigits(n);
    NumbersWrap(Digits(n));
  }

  // Two such numbers: what the first is read as prints to a text that is refused, what the second is read as
  // prints and parses as PU 0
  lemma LargeNumbersWrap()
    ensures Parse("40000") == Parsed([Range(-25536, -25536)])
    ensures Parse(Text([Range(-25536, -25536)])) == InvalidFormat
    ensures Parse("65536") == Parsed([Range(0, 0)]) && Parse(Text([Range(0, 0)])) == Parsed([Range(0, 0)])
  {
    TextsOfLarge();
    hide Parse, Text, Digits;
    DigitsWrap(40000);
    DigitsWrap(65536);
    TextRoundTrip([Range(-25536, -25536)]);
  }

  lemma TextsOfLarge()
    ensures Digits(40000) == "40000" && Digits(65536) == "65536"
  {
    assert Digits(400) == "400" && Digits(655) == "655";
  }
}
