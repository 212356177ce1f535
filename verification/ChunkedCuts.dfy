/** Chunked bodies whose connection breaks off, and chunks that are not closed as they should be: what the reader
    in lib/httplib/httplib.h delivers, and when it takes the body for complete. */
module ChunkedCuts {

  import opened ChunkedCodec

  // The payload bytes among the first n bytes of the encoding
  function Carried(payloads: seq<string>, n: nat): string {
    if payloads == [] then ""
    else
      var c := |Chunk(payloads[0])|;
      if n >= c then payloads[0] + Carried(payloads[1..], n - c) else CarriedByOne(payloads[0], n)
  }

  // The payload bytes among the first n bytes of one chunk
  function CarriedByOne(payload: string, n: nat): string {
    var head := |Hex(|payload|)| + 2;
    if n <= head then "" else payload[..if n - head < |payload| then n - head else |payload|]
  }

  // Some chunk's closing CR is the last of the first n bytes
  predicate EndsAtCR(payloads: seq<string>, n: nat) {
    payloads != [] &&
    (var c := |Chunk(payloads[0])|;
     n == c - 1 || (n >= c && EndsAtCR(payloads[1..], n - c)))
  }

  // After a size line and nothing more the reader fails, whatever the line says
  lemma NothingAfterSize(line: string)
    ensures DecodeChunks(line, "") == Decoded(false, "", "")
  {
  }

  lemma {:induction false} NoLineEnd(p: string)
    requires forall k :: 0 <= k < |p| ==> p[k] != '\n'
    ensures Decode(p) == Decoded(false, "", "")
  {
    if p != "" {
      assert LineEnd(p) == |p| by {
        assert p[LineEnd(p) - 1] != '\n';
      }
      assert p[..|p|] == p && p[|p|..] == "";
      NothingAfterSize(p);
    }
  }

  // A size line is digits and CRLF, so no proper part of it holds a newline
  lemma CutInSizeLine(n: nat, p: string)
    requires p <= Hex(n) + CRLF && |p| < |Hex(n)| + 2
    ensures Decode(p) == Decoded(false, "", "")
  {
    var line := Hex(n) + CRLF;
    forall k | 0 <= k < |p| ensures p[k] != '\n' {
      assert p[k] == line[k];
      assert k < |Hex(n)| ==> IsHexDigit(line[k]);
    }
    NoLineEnd(p);
  }

  lemma CutAfterSizeLine(payload: string, s: string)
    requires 0 < |payload| < ULONG_MAX && s <= payload + CRLF && |s| < |payload| + 2
    ensures var n := |payload|;
            Decode(Hex(n) + CRLF + s) == Decoded(|s| == n + 1, s[..if |s| < n then |s| else n], "")
  {
    hide Hex, Strtoul16;
    var n := |payload|;
    SizeLine(n, s);
    assert |s| == n ==> s[n..] == "";
    if |s| < n { assert s[..|s|] == s; }
    if |s| == n + 1 {
      assert s[n] == (payload + CRLF)[n] == '\r';
      assert s[n..] == "\r";
      LoneCR();
    }
  }

  lemma LoneCR()
    ensures GetLine("\r") == Line("\r", "") && CStr("\r") == "\r"
  {
    assert LineEnd("\r") == 1;
    CStrOfPlain("\r");
  }

  // Part of one chunk: success is reported exactly between its closing CR and LF
  lemma CutInChunk(payload: string, p: string)
    requires 0 < |payload| < ULONG_MAX && p <= Chunk(payload) && |p| < |Chunk(payload)|
    ensures Decode(p) == Decoded(|p| == |Chunk(payload)| - 1, CarriedByOne(payload, |p|), "")
  {
    hide Hex, Decode;
    var line := Hex(|payload|) + CRLF;
    var h := |line|;
    assert Chunk(payload) == line + (payload + CRLF);
    if |p| < h {
      assert p <= line;
      CutInSizeLine(|payload|, p);
    } else {
      var s := p[h..];
      assert p == line + s && s <= payload + CRLF;
      CutAfterSizeLine(payload, s);
      var m := if |s| < |payload| then |s| else |payload|;
      assert s[..m] == payload[..m];
    }
  }

  lemma CutInLastChunk(p: string)
    requires p <= LAST_CHUNK && |p| < |LAST_CHUNK|
    ensures Decode(p) == Decoded(false, "", "")
  {
    assert Hex(0) == "0";
    if |p| < 3 {
      assert p <= Hex(0) + CRLF;
      CutInSizeLine(0, p);
    } else {
      var s := p[3..];
      assert p == Hex(0) + CRLF + s;
      SizeLine(0, s);
      if |p| == 4 {
        assert s == "\r";
        LoneCR();
      }
    }
  }

  // Any part of an encoding that does not end with it
  lemma {:induction false} CutDecodes(payloads: seq<string>, p: string)
    requires forall k :: 0 <= k < |payloads| ==> 0 < |payloads[k]| < ULONG_MAX
    requires p <= Chunks(payloads) + LAST_CHUNK && |p| < |Chunks(payloads) + LAST_CHUNK|
    ensures Decode(p) == Decoded(EndsAtCR(payloads, |p|), Carried(payloads, |p|), "")
  {
    hide Decode, Hex;
    if payloads == [] {
      assert Chunks(payloads) + LAST_CHUNK == LAST_CHUNK;
      CutInLastChunk(p);
    } else {
      var first, tail := Chunk(payloads[0]), Chunks(payloads[1..]) + LAST_CHUNK;
      var c := |first|;
      assert Chunks(payloads) + LAST_CHUNK == first + tail;
      if |p| < c {
        assert p <= first;
        CutInChunk(payloads[0], p);
      } else {
        var q := p[c..];
        assert p == first + q && q <= tail;
        CutDecodes(payloads[1..], q);
        if q == "" {
          DecodeFinalPayload(payloads[0]);
          assert first + "" == first;
          NothingCarried(payloads[1..]);
        } else {
          OneChunkAndMore(payloads[0], q);
        }
      }
    }
  }

  lemma OneChunkAndMore(payload: string, q: string)
    requires 0 < |payload| < ULONG_MAX && q != ""
    ensures Decode(Chunk(payload) + q) == WithBody(payload, Decode(q))
  {
    hide Chunk, Strtoul16;
    LineIsFirst(q);
    DecodeOneChunk(payload, GetLine(q).line, GetLine(q).rest);
  }

  lemma NothingCarried(payloads: seq<string>)
    ensures Carried(payloads, 0) == "" && !EndsAtCR(payloads, 0)
  {
  }

  // The position of EndsAtCR, in terms of whole chunks
  lemma {:induction false} EndsAtCRIs(payloads: seq<string>, n: nat)
    ensures EndsAtCR(payloads, n) <==>
            exists i :: 1 <= i <= |payloads| && n == |Chunks(payloads[..i])| - 1
  {
    hide Chunk;
    if payloads != [] {
      var c := |Chunk(payloads[0])|;
      forall i | 1 <= i <= |payloads| ensures |Chunks(payloads[..i])| == c + |Chunks(payloads[1..][..i - 1])| {
        assert payloads[..i][1..] == payloads[1..][..i - 1];
      }
      assert Chunks(payloads[1..][..0]) == "";
      ChunkIsLong(payloads[0]);
      if n >= c { EndsAtCRIs(payloads[1..], n - c); }
      if EndsAtCR(payloads, n) {
        if n == c - 1 {
          assert n == |Chunks(payloads[..1])| - 1;
        } else {
          var j :| 1 <= j <= |payloads[1..]| && n - c == |Chunks(payloads[1..][..j])| - 1;
          assert n == |Chunks(payloads[..j + 1])| - 1;
        }
      }
      if i :| 1 <= i <= |payloads| && n == |Chunks(payloads[..i])| - 1 {
        if i > 1 {
          ChunksAreLong(payloads[1..][..i - 1]);
          assert n - c == |Chunks(payloads[1..][..i - 1])| - 1;
        }
      }
    }
  }

  lemma ChunkIsLong(payload: string)
    ensures |Chunk(payload)| >= 5
  {
  }

  lemma ChunksAreLong(payloads: seq<string>)
    requires payloads != []
    ensures |Chunks(payloads)| >= 1
  {
    ChunkIsLong(payloads[0]);
  }

  // At such a position everything sent in the whole chunks has been carried
  lemma {:induction false} CarriedAtCR(payloads: seq<string>, i: nat)
    requires 1 <= i <= |payloads|
    ensures Carried(payloads, |Chunks(payloads[..i])| - 1) == Concat(payloads[..i])
  {
    hide Hex;
    var c := |Chunk(payloads[0])|;
    var rest := payloads[1..];
    assert payloads[..i][1..] == rest[..i - 1] && payloads[..i][0] == payloads[0];
    assert |Chunks(payloads[..i])| == c + |Chunks(rest[..i - 1])|;
    if i == 1 {
      assert rest[..0] == [] && CarriedByOne(payloads[0], c - 1) == payloads[0];
      assert payloads[..1] == [payloads[0]] && Concat(payloads[..1]) == payloads[0] + "";
    } else {
      ChunksAreLong(rest[..i - 1]);
      CarriedAtCR(rest, i - 1);
    }
  }

  // A connection that breaks before the end of an encoding. The reader reports success exactly when it breaks
  // between the CR and the LF that close some chunk; either way it has delivered exactly the payload bytes that
  // came through and leaves nothing unread.
  lemma BrokenOff(payloads: seq<string>, p: string)
    requires forall k :: 0 <= k < |payloads| ==> 0 < |payloads[k]| < ULONG_MAX
    requires p <= Chunks(payloads) + LAST_CHUNK && |p| < |Chunks(payloads) + LAST_CHUNK|
    ensures Decode(p).ok <==> exists i :: 1 <= i <= |payloads| && |p| == |Chunks(payloads[..i])| - 1
    ensures Decode(p).body == Carried(payloads, |p|) && Decode(p).rest == ""
    ensures forall i :: 1 <= i <= |payloads| && |p| == |Chunks(payloads[..i])| - 1 ==>
              Decode(p).body == Concat(payloads[..i])
  {
    hide Decode, Chunk, Carried;
    CutDecodes(payloads, p);
    EndsAtCRIs(payloads, |p|);
    forall i | 1 <= i <= |payloads| && |p| == |Chunks(payloads[..i])| - 1
      ensures Carried(payloads, |p|) == Concat(payloads[..i])
    {
      CarriedAtCR(payloads, i);
    }
  }

  // What has been carried is the beginning of what was to be sent
  lemma {:induction false} CarriedIsPrefix(payloads: seq<string>, n: nat)
    ensures Carried(payloads, n) <= Concat(payloads)
  {
    hide Chunk, Hex;
    if payloads != [] && n >= |Chunk(payloads[0])| {
      CarriedIsPrefix(payloads[1..], n - |Chunk(payloads[0])|);
    }
  }

  // An input for which a broken connection passes for a complete body: one chunk without its last byte
  lemma HelloWithoutLF()
    ensures Decode(Hex(5) + CRLF + "hello" + "\r") == Decoded(true, "hello", "")
    ensures Hex(5) + CRLF + "hello" + "\r" == Chunk("hello")[..|Chunk("hello")| - 1]
  {
    var p := Hex(5) + CRLF + "hello" + "\r";
    assert Chunk("hello") == p + "\n";
    CutInChunk("hello", p);
  }

  // The same for any line that follows the data of a chunk: the reader stops there, and reports success, exactly
  // if it is not an empty line
  lemma OtherLineAfterData(payload: string, t: string)
    requires 0 < |payload| < ULONG_MAX && t != ""
    ensures var d := Decode(Hex(|payload|) + CRLF + payload + t);
            var first := GetLine(t);
            if CStr(first.line) != CRLF then d == Decoded(true, payload, first.rest)
            else d == (if first.rest == "" then Decoded(false, payload, "") else WithBody(payload, Decode(first.rest)))
  {
    hide Hex, Strtoul16, GetLine, CStr;
    var n := |payload|;
    assert Hex(n) + CRLF + payload + t == Hex(n) + CRLF + (payload + t);
    SizeLine(n, payload + t);
    assert (payload + t)[..n] == payload && (payload + t)[n..] == t;
    LineIsFirst(t);
    var after := GetLine(t).rest;
    if after != "" { LineIsFirst(after); } else { NoLineAtEnd(); }
  }
}
