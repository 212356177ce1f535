/** The chunked transfer coding (section 4.1 of RFC 7230) as the two ends in
    lib/httplib/httplib.h write and read it. Bytes are chars; a C string ends at its first NUL. */
module ChunkedCodec {

  const ULONG_MAX := 0xffff_ffff_ffff_ffff
  const CRLF := "\r\n"

  // ---------- hexadecimal sizes ----------

  predicate IsHexDigit(c: char) {
    '0' <= c <= '9' || 'a' <= c <= 'f' || 'A' <= c <= 'F'
  }

  function HexDigitValue(c: char): (v: nat)
    requires IsHexDigit(c)
    ensures v < 16
  {
    if c <= '9' then c as int - '0' as int
    else if c <= 'F' then c as int - 'A' as int + 10
    else c as int - 'a' as int + 10
  }

  function HexDigit(v: nat): (c: char)
    requires v < 16
    ensures IsHexDigit(c) && HexDigitValue(c) == v
  {
    "0123456789abcdef"[v]
  }

  ghost predicate AllHex(s: string) {
    forall k :: 0 <= k < |s| ==> IsHexDigit(s[k])
  }

  function Hex(n: nat): (s: string)
    ensures s != "" && AllHex(s)
  {
    if n < 16 then [HexDigit(n)] else Hex(n / 16) + [HexDigit(n % 16)]
  }

  function HexValue(s: string): nat
    requires AllHex(s)
  {
    if s == "" then 0 else 16 * HexValue(s[..|s| - 1]) + HexDigitValue(s[|s| - 1])
  }

  lemma {:induction false} HexRoundTrip(n: nat)
    ensures HexValue(Hex(n)) == n
  {
    if n >= 16 {
      HexRoundTrip(n / 16);
      assert Hex(n)[..|Hex(n)| - 1] == Hex(n / 16);
    }
  }

  lemma HexStep(n: nat, ret: string)
    ensures Hex(n) + ret == (if n / 16 > 0 then Hex(n / 16) else "") + ([HexDigit(n % 16)] + ret)
  {
    if n < 16 {
      assert n % 16 == n;
    } else {
      assert Hex(n) == Hex(n / 16) + [HexDigit(n % 16)];
    }
  }

  // from_i_to_hex: digits come off the low end
  method FromIToHex(size: nat) returns (ret: string)
    ensures ret == Hex(size)
  {
    var n := size;
    assert Hex(n) + "" == Hex(n);
    HexStep(n, "");
    ret := [HexDigit(n % 16)];
    n := n / 16;
    while n > 0
      invariant Hex(size) == if n > 0 then Hex(n) + ret else ret
    {
      HexStep(n, ret);
      ret := [HexDigit(n % 16)] + ret;
      n := n / 16;
    }
  }

  // ---------- C string functions ----------

  function CStr(s: string): (r: string)
    ensures |r| <= |s| && r == s[..|r|]
    ensures |r| < |s| ==> s[|r|] == '\0'
    ensures forall k :: 0 <= k < |r| ==> r[k] != '\0'
  {
    if s == "" || s[0] == '\0' then "" else [s[0]] + CStr(s[1..])
  }

  lemma {:induction false} CStrOfPlain(s: string)
    requires forall k :: 0 <= k < |s| ==> s[k] != '\0'
    ensures CStr(s) == s
  {
    if s != "" { CStrOfPlain(s[1..]); }
  }

  predicate IsSpace(c: char) {
    c == ' ' || '\t' <= c <= '\r'
  }

  function SkipSpace(s: string): string {
    if s != "" && IsSpace(s[0]) then SkipSpace(s[1..]) else s
  }

  function LeadingHex(s: string): (n: nat)
    ensures n <= |s| && AllHex(s[..n])
    ensures n < |s| ==> !IsHexDigit(s[n])
  {
    if s == "" || !IsHexDigit(s[0]) then 0
    else
      var n := LeadingHex(s[1..]);
      assert s[..n + 1] == [s[0]] + s[1..][..n];
      n + 1
  }

  datatype Number = NotANumber | Value(n: nat)

  // strtoul in base 16: spaces, a sign and an 0x prefix may come first, a value too large
  // becomes ULONG_MAX, a minus sign negates modulo 2^64
  function Strtoul16(s: string): Number {
    var t := SkipSpace(s);
    var negative := t != "" && t[0] == '-';
    var u := if t != "" && (t[0] == '-' || t[0] == '+') then t[1..] else t;
    var v := if |u| > 2 && u[0] == '0' && (u[1] == 'x' || u[1] == 'X') && IsHexDigit(u[2]) then u[2..] else u;
    ScanHex(v, negative)
  }

  function ScanHex(v: string, negative: bool): Number {
    var k := LeadingHex(v);
    if k == 0 then NotANumber
    else
      var n := HexValue(v[..k]);
      if n > ULONG_MAX then Value(ULONG_MAX)
      else if negative && n > 0 then Value(ULONG_MAX + 1 - n)
      else Value(n)
  }

  lemma {:induction false} LeadingHexExact(s: string, rest: string)
    requires AllHex(s) && (rest != "" ==> !IsHexDigit(rest[0]))
    ensures LeadingHex(s + rest) == |s|
  {
    if s != "" {
      assert (s + rest)[1..] == s[1..] + rest;
      LeadingHexExact(s[1..], rest);
    } else {
      assert s + rest == rest;
    }
  }

  // A size line reads as its size
  lemma SizeLineValue(n: nat)
    requires n <= ULONG_MAX
    ensures Strtoul16(Hex(n) + CRLF) == Value(n)
  {
    NoPrefix(Hex(n));
    ScanSizeLine(n);
  }

  lemma NoPrefix(s: string)
    requires s != "" && AllHex(s)
    ensures Strtoul16(s + CRLF) == ScanHex(s + CRLF, false)
  {
    var line := s + CRLF;
    assert line[0] == s[0] && IsHexDigit(s[0]);
    assert |s| > 1 ==> line[1] == s[1] && IsHexDigit(s[1]);
    assert |s| == 1 ==> line[1] == '\r';
  }

  lemma ScanSizeLine(n: nat)
    requires n <= ULONG_MAX
    ensures ScanHex(Hex(n) + CRLF, false) == Value(n)
  {
    var s := Hex(n);
    LeadingHexExact(s, CRLF);
    assert (s + CRLF)[..|s|] == s;
    HexRoundTrip(n);
  }

  // ---------- sizes as other peers write them ----------

  // The same digits, up to the case of the letters
  ghost predicate SameDigits(a: string, b: string) {
    && |a| == |b|
    && forall k :: 0 <= k < |a| ==>
         IsHexDigit(b[k]) && (a[k] == b[k] || ('a' <= b[k] <= 'f' && a[k] as int == b[k] as int - 0x20))
  }

  ghost predicate AllZeros(s: string) {
    forall k :: 0 <= k < |s| ==> s[k] == '0'
  }

  lemma SameDigitsAreHex(a: string, b: string)
    requires SameDigits(a, b)
    ensures AllHex(a) && AllHex(b)
  {
  }

  lemma {:induction false} SameDigitsSameValue(a: string, b: string)
    requires SameDigits(a, b) && AllHex(a) && AllHex(b)
    ensures HexValue(a) == HexValue(b)
  {
    if a != "" {
      var n := |a| - 1;
      assert b[n] == b[n] && IsHexDigit(b[n]);
      SameDigitsSameValue(a[..n], b[..n]);
    }
  }

  lemma {:induction false} LeadingZeros(zeros: string, digits: string)
    requires AllZeros(zeros) && AllHex(digits)
    ensures AllHex(zeros + digits) && HexValue(zeros + digits) == HexValue(digits)
  {
    if digits == "" {
      assert zeros + digits == zeros;
      if zeros != "" {
        LeadingZeros(zeros[..|zeros| - 1], "");
        assert zeros[..|zeros| - 1] + "" == zeros[..|zeros| - 1];
      }
    } else {
      var n := |digits| - 1;
      LeadingZeros(zeros, digits[..n]);
      assert (zeros + digits)[..|zeros + digits| - 1] == zeros + digits[..n];
    }
  }

  // What may follow the digits: anything that is neither a digit nor could make them an 0x prefix
  predicate EndsDigits(ext: string) {
    ext != "" ==> !IsHexDigit(ext[0]) && ext[0] != 'x' && ext[0] != 'X'
  }

  lemma PlainDigits(s: string, ext: string)
    requires s != "" && AllHex(s) && EndsDigits(ext)
    ensures Strtoul16(s + ext) == ScanHex(s + ext, false)
  {
    var line := s + ext;
    assert line[0] == s[0] && IsHexDigit(s[0]);
    assert |s| > 1 ==> line[1] == s[1] && IsHexDigit(s[1]);
    assert |s| == 1 && ext != "" ==> line[1] == ext[0];
  }

  lemma ScanDigits(s: string, ext: string)
    requires s != "" && AllHex(s) && EndsDigits(ext)
    ensures ScanHex(s + ext, false) == Value(if HexValue(s) > ULONG_MAX then ULONG_MAX else HexValue(s))
  {
    LeadingHexExact(s, ext);
    assert (s + ext)[..|s|] == s;
  }

  // A size is read in either case, behind any zeros and before any chunk extension
  lemma SizeInAnyForm(n: nat, zeros: string, digits: string, ext: string)
    requires n <= ULONG_MAX && AllZeros(zeros) && SameDigits(digits, Hex(n)) && EndsDigits(ext)
    ensures Strtoul16(zeros + digits + ext) == Value(n)
  {
    hide Strtoul16, ScanHex, Hex;
    SameDigitsAreHex(digits, Hex(n));
    SameDigitsSameValue(digits, Hex(n));
    HexRoundTrip(n);
    LeadingZeros(zeros, digits);
    PlainDigits(zeros + digits, ext);
    ScanDigits(zeros + digits, ext);
  }

  // Digits of a value past the largest size are read as that one, which the reader refuses
  lemma SizeTooLarge(digits: string, ext: string)
    requires digits != "" && AllHex(digits) && HexValue(digits) >= ULONG_MAX && EndsDigits(ext)
    ensures Strtoul16(digits + ext) == Value(ULONG_MAX)
  {
    hide Strtoul16, ScanHex;
    PlainDigits(digits, ext);
    ScanDigits(digits, ext);
  }

  // A line that starts with neither a digit nor a space or sign has no size
  lemma NoSize(line: string)
    requires line == "" || (!IsHexDigit(line[0]) && !IsSpace(line[0]) && line[0] != '-' && line[0] != '+')
    ensures Strtoul16(line) == NotANumber
  {
  }

  // ---------- lines ----------

  datatype LineResult = NoLine | Line(line: string, rest: string)

  // The index just past the first newline, or the length when there is none
  function LineEnd(s: string): (n: nat)
    ensures n <= |s| && (s != "" ==> n > 0)
    ensures forall k :: 0 <= k < n - 1 ==> s[k] != '\n'
    ensures n > 0 && s[n - 1] != '\n' ==> n == |s|
  {
    if s == "" then 0 else if s[0] == '\n' then 1 else 1 + LineEnd(s[1..])
  }

  function GetLine(s: string): (r: LineResult)
    ensures r.Line? ==> s == r.line + r.rest && r.line != ""
  {
    if s == "" then NoLine else Line(s[..LineEnd(s)], s[LineEnd(s)..])
  }

  lemma {:induction false} LineEndExact(line: string, rest: string)
    requires line != "" && line[|line| - 1] == '\n'
    requires forall k :: 0 <= k < |line| - 1 ==> line[k] != '\n'
    ensures LineEnd(line + rest) == |line|
    ensures GetLine(line + rest) == Line(line, rest)
  {
    if |line| > 1 {
      assert (line + rest)[1..] == line[1..] + rest;
      LineEndExact(line[1..], rest);
    }
    assert (line + rest)[..|line|] == line && (line + rest)[|line|..] == rest;
  }

  // ---------- encoding ----------

  function Chunk(payload: string): string {
    Hex(|payload|) + CRLF + payload + CRLF
  }

  const LAST_CHUNK := "0\r\n\r\n"

  function Chunks(payloads: seq<string>): string {
    if payloads == [] then "" else Chunk(payloads[0]) + Chunks(payloads[1..])
  }

  function Concat(payloads: seq<string>): string {
    if payloads == [] then "" else payloads[0] + Concat(payloads[1..])
  }

  // ---------- decoding ----------

  // What the receiver has been given, whether the read succeeded, and what is left unread
  datatype Decoded = Decoded(ok: bool, body: string, rest: string)

  function WithBody(body: string, d: Decoded): Decoded {
    d.(body := body + d.body)
  }

  // read_content_chunked from the point where it has just read a size line. Note that after a
  // chunk whose data is not followed by CRLF it stops and reports success.
  function DecodeChunks(line: string, s: string): Decoded
    decreases |s|
  {
    match Strtoul16(CStr(line))
    case NotANumber => Decoded(false, "", s)
    case Value(n) =>
      if n == ULONG_MAX then Decoded(false, "", s)
      else if n == 0 then
        match GetLine(s)
        case NoLine => Decoded(false, "", s)
        case Line(end, rest) => Decoded(CStr(end) == CRLF, "", rest)
      else if |s| < n then Decoded(false, s, "")
      else
        match GetLine(s[n..])
        case NoLine => Decoded(false, s[..n], s[n..])
        case Line(end, after) =>
          if CStr(end) != CRLF then Decoded(true, s[..n], after)
          else
            match GetLine(after)
            case NoLine => Decoded(false, s[..n], after)
            case Line(next, rest) => WithBody(s[..n], DecodeChunks(next, rest))
  }

  function Decode(s: string): Decoded {
    match GetLine(s)
    case NoLine => Decoded(false, "", s)
    case Line(line, rest) => DecodeChunks(line, rest)
  }

  // ---------- the round trip ----------

  lemma SizeLine(n: nat, rest: string)
    requires n <= ULONG_MAX
    ensures GetLine(Hex(n) + CRLF + rest) == Line(Hex(n) + CRLF, rest)
    ensures Strtoul16(CStr(Hex(n) + CRLF)) == Value(n)
  {
    var line := Hex(n) + CRLF;
    assert forall k :: 0 <= k < |Hex(n)| ==> line[k] == Hex(n)[k] && IsHexDigit(line[k]);
    LineEndExact(line, rest);
    CStrOfPlain(line);
    SizeLineValue(n);
  }

  lemma CrlfLine(rest: string)
    ensures GetLine(CRLF + rest) == Line(CRLF, rest) && CStr(CRLF) == CRLF
  {
    LineEndExact(CRLF, rest);
    CStrOfPlain(CRLF);
  }

  // A chunk behind its size line
  lemma ChunkBehindLine(line: string, payload: string, next: string, rest: string)
    requires 0 < |payload| < ULONG_MAX
    requires next != "" && GetLine(next + rest) == Line(next, rest)
    requires GetLine(line + (payload + (CRLF + (next + rest)))) == Line(line, payload + (CRLF + (next + rest)))
    requires Strtoul16(CStr(line)) == Value(|payload|)
    ensures Decode(line + (payload + (CRLF + (next + rest)))) == WithBody(payload, DecodeChunks(next, rest))
  {
    hide Strtoul16;
    var n := |payload|;
    var after := CRLF + (next + rest);
    var s := payload + after;
    assert s[..n] == payload && s[n..] == after;
    CrlfLine(next + rest);
  }

  // A whole chunk: its payload is delivered and decoding goes on with the next size line
  lemma DecodeOneChunk(payload: string, next: string, rest: string)
    requires 0 < |payload| < ULONG_MAX
    requires next != "" && GetLine(next + rest) == Line(next, rest)
    ensures Decode(Chunk(payload) + (next + rest)) == WithBody(payload, DecodeChunks(next, rest))
  {
    hide Hex, Strtoul16, GetLine, CStr, Decode, DecodeChunks;
    var line, s := Hex(|payload|) + CRLF, payload + (CRLF + (next + rest));
    assert Chunk(payload) + (next + rest) == line + s;
    SizeLine(|payload|, s);
    ChunkBehindLine(line, payload, next, rest);
  }

  // A line without NUL that ends at its first newline
  ghost predicate IsLine(line: string) {
    && line != "" && line[|line| - 1] == '\n'
    && (forall k :: 0 <= k < |line| - 1 ==> line[k] != '\n') && '\0' !in line
  }

  lemma LineComesFirst(line: string, rest: string)
    requires IsLine(line)
    ensures GetLine(line + rest) == Line(line, rest) && CStr(line) == line
  {
    LineEndExact(line, rest);
    CStrOfPlain(line);
  }

  // A chunk of another peer: whatever the form of its size, with or without an extension, the payload is delivered
  lemma DecodePeersChunk(
    zeros: string, digits: string, ext: string, payload: string, next: string, rest: string)
    requires 0 < |payload| < ULONG_MAX
    requires AllZeros(zeros) && SameDigits(digits, Hex(|payload|)) && EndsDigits(ext) && IsLine(zeros + digits + ext)
    requires next != "" && GetLine(next + rest) == Line(next, rest)
    ensures Decode(zeros + digits + ext + (payload + (CRLF + (next + rest)))) ==
            WithBody(payload, DecodeChunks(next, rest))
  {
    hide Hex, Strtoul16, SameDigits, AllZeros, EndsDigits, CStr, IsLine, LineEnd, Decode, DecodeChunks;
    LineComesFirst(zeros + digits + ext, payload + (CRLF + (next + rest)));
    SizeInAnyForm(|payload|, zeros, digits, ext);
    ChunkBehindLine(zeros + digits + ext, payload, next, rest);
  }

  // A body whose first line has no size, or too large a one, is refused with nothing delivered
  lemma DecodeRefused(line: string, rest: string)
    requires IsLine(line)
    requires Strtoul16(line) == NotANumber || Strtoul16(line) == Value(ULONG_MAX)
    ensures Decode(line + rest) == Decoded(false, "", rest)
  {
    hide Strtoul16;
    LineComesFirst(line, rest);
  }

  lemma {:induction false} HexHasNoPadding(n: nat)
    ensures n > 0 ==> Hex(n)[0] != '0'
    ensures forall k :: 0 <= k < |Hex(n)| ==> !('A' <= Hex(n)[k] <= 'F')
  {
    if n >= 16 {
      HexHasNoPadding(n / 16);
      assert Hex(n)[0] == Hex(n / 16)[0];
    }
  }

  // What a chunk looks like on the wire: its size in lower-case digits without padding, and each part ends with CR LF
  lemma ChunkForm(payload: string) returns (digits: string)
    requires payload != ""
    ensures Chunk(payload) == digits + "\r\n" + payload + "\r\n"
    ensures AllHex(digits) && digits != "" && HexValue(digits) == |payload| && digits[0] != '0'
    ensures forall k :: 0 <= k < |digits| ==> '0' <= digits[k] <= '9' || 'a' <= digits[k] <= 'f'
  {
    digits := Hex(|payload|);
    HexRoundTrip(|payload|);
    HexHasNoPadding(|payload|);
  }

  lemma {:induction false} DecodeLastChunk(rest: string)
    ensures Decode(LAST_CHUNK + rest) == Decoded(true, "", rest)
  {
    hide Strtoul16;
    var s := CRLF + rest;
    assert Hex(0) == "0";
    assert LAST_CHUNK + rest == Hex(0) + CRLF + s;
    SizeLine(0, s);
    CrlfLine(rest);
  }

  // Decoding what was encoded delivers exactly the payloads, one after the other, and consumes
  // exactly the encoding: whatever follows it on the connection stays unread
  lemma {:induction false} ChunkedRoundTrip(payloads: seq<string>, rest: string)
    requires forall k :: 0 <= k < |payloads| ==> 0 < |payloads[k]| < ULONG_MAX
    ensures Decode(Chunks(payloads) + LAST_CHUNK + rest) == Decoded(true, Concat(payloads), rest)
  {
    if payloads == [] {
      assert Chunks(payloads) + LAST_CHUNK + rest == LAST_CHUNK + rest;
      DecodeLastChunk(rest);
    } else {
      ChunkedRoundTrip(payloads[1..], rest);
      var tail := Chunks(payloads[1..]) + LAST_CHUNK + rest;
      assert Chunks(payloads) + LAST_CHUNK + rest == Chunk(payloads[0]) + tail;
      var first := GetLine(tail);
      assert tail != "";
      LineIsFirst(tail);
      DecodeOneChunk(payloads[0], first.line, first.rest);
    }
  }

  lemma LineIsFirst(s: string)
    requires s != ""
    ensures GetLine(s).Line? && s == GetLine(s).line + GetLine(s).rest
  {
  }

  lemma NoLineAtEnd()
    ensures GetLine("") == NoLine
  {
  }

  // Without the last chunk the reader reports failure, having delivered the same bytes
  lemma {:induction false} TruncatedFails(payloads: seq<string>)
    requires forall k :: 0 <= k < |payloads| ==> 0 < |payloads[k]| < ULONG_MAX
    ensures Decode(Chunks(payloads)) == Decoded(false, Concat(payloads), "")
  {
    if payloads != [] {
      TruncatedFails(payloads[1..]);
      var tail := Chunks(payloads[1..]);
      if |payloads| == 1 {
        DecodeFinalPayload(payloads[0]);
        assert Chunks(payloads) == Chunk(payloads[0]);
        assert Concat(payloads) == payloads[0];
      } else {
        assert tail == Chunk(payloads[1]) + Chunks(payloads[1..][1..]);
        LineIsFirst(tail);
        DecodeOneChunk(payloads[0], GetLine(tail).line, GetLine(tail).rest);
      }
    }
  }

  lemma DecodeFinalPayload(payload: string)
    requires 0 < |payload| < ULONG_MAX
    ensures Decode(Chunk(payload)) == Decoded(false, payload, "")
  {
    hide Hex, Strtoul16, CStr;
    var n := |payload|;
    var s := payload + CRLF;
    assert Chunk(payload) == Hex(n) + CRLF + s;
    SizeLine(n, s);
    assert s[..n] == payload && s[n..] == CRLF;
    CrlfLine("");
    assert CRLF + "" == CRLF;
  }
}
