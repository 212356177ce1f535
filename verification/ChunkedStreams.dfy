/** The loops of lib/httplib/httplib.h around the chunked coding: short reads and writes, the
    line reader with its fixed and growable buffers, the chunk writer and the chunk reader. */
module ChunkedStreams {
  import opened ChunkedCodec

  const RECV_BUFSIZ := 4096
  const LINE_BUFSIZ := 16

  // A connection without errors: each call moves at least one byte and at most what was asked,
  // as many as it likes; a read at the end of the input moves none
  class Stream {
    var incoming: string
    var outgoing: string

    constructor (incoming: string)
      ensures this.incoming == incoming && outgoing == ""
    {
      this.incoming := incoming;
      outgoing := "";
    }

    method Read(size: nat) returns (bytes: string)
      requires size > 0
      modifies this`incoming
      ensures old(incoming) == bytes + incoming && |bytes| <= size
      ensures bytes == "" <==> old(incoming) == ""
    {
      if incoming == "" {
        return "";
      }
      var n: nat :| 1 <= n <= |incoming| && n <= size;
      bytes := incoming[..n];
      incoming := incoming[n..];
    }

    method Write(bytes: string) returns (n: nat)
      requires bytes != ""
      modifies this`outgoing
      ensures 1 <= n <= |bytes| && outgoing == old(outgoing) + bytes[..n]
    {
      n :| 1 <= n <= |bytes|;
      outgoing := outgoing + bytes[..n];
    }
  }

  method WriteData(strm: Stream, d: string)
    modifies strm`outgoing
    ensures strm.outgoing == old(strm.outgoing) + d
  {
    var offset := 0;
    while offset < |d|
      invariant offset <= |d|
      invariant strm.outgoing == old(strm.outgoing) + d[..offset]
    {
      var length := strm.Write(d[offset..]);
      assert d[..offset + length] == d[..offset] + d[offset..][..length];
      offset := offset + length;
    }
    assert d[..|d|] == d;
  }

  // ---------- writing ----------

  // One use the content provider makes of the sink
  datatype SinkCall = Write(payload: string) | Done

  function Emitted(call: SinkCall): string {
    match call
    case Write(payload) => if payload == "" then "" else Chunk(payload)
    case Done => LAST_CHUNK
  }

  // After a Done, or a Write of nothing, no data is available
  predicate EndsData(call: SinkCall) {
    call.Done? || call.payload == ""
  }

  // A call of the provider uses the sink any number of times; the last use decides whether it is called again
  type ProviderCall = seq<SinkCall>

  function EmittedBy(call: ProviderCall): string {
    if call == [] then "" else EmittedBy(call[..|call| - 1]) + Emitted(call[|call| - 1])
  }

  predicate StopsAfter(call: ProviderCall) {
    call != [] && EndsData(call[|call| - 1])
  }

  // The bytes write_content_chunked sends
  function Encoding(calls: seq<ProviderCall>): string {
    if calls == [] then ""
    else EmittedBy(calls[0]) + (if StopsAfter(calls[0]) then "" else Encoding(calls[1..]))
  }

  // What is still to be sent from call i on
  function Unsent(calls: seq<ProviderCall>, i: nat, dataAvailable: bool): string
    requires i <= |calls|
  {
    if dataAvailable then Encoding(calls[i..]) else ""
  }

  lemma UnsentStep(calls: seq<ProviderCall>, i: nat)
    requires i < |calls|
    ensures Unsent(calls, i, true) == EmittedBy(calls[i]) + Unsent(calls, i + 1, !StopsAfter(calls[i]))
  {
    assert calls[i..][1..] == calls[i + 1..];
  }

  lemma UnsentEnds(calls: seq<ProviderCall>, i: nat)
    requires i <= |calls|
    ensures Unsent(calls, 0, true) == Encoding(calls)
    ensures Unsent(calls, i, false) == "" && Unsent(calls, |calls|, true) == ""
  {
    assert calls[0..] == calls && calls[|calls|..] == [];
  }

  lemma Reassociate(a: string, b: string, c: string)
    ensures a + (b + c) == (a + b) + c
  {
  }

  class DataSink {
    const strm: Stream
    var dataAvailable: bool

    constructor (strm: Stream)
      ensures this.strm == strm && dataAvailable
    {
      this.strm := strm;
      dataAvailable := true;
    }

    method Write(payload: string)
      modifies this, strm`outgoing
      ensures strm.outgoing == old(strm.outgoing) + Emitted(SinkCall.Write(payload))
      ensures dataAvailable <==> payload != ""
    {
      dataAvailable := |payload| > 0;
      if payload != "" {
        var size := FromIToHex(|payload|);
        WriteData(strm, size + CRLF + payload + CRLF);
      }
    }

    method Done()
      modifies this, strm`outgoing
      ensures strm.outgoing == old(strm.outgoing) + Emitted(SinkCall.Done) && !dataAvailable
    {
      dataAvailable := false;
      WriteData(strm, LAST_CHUNK);
    }
  }

  // The content provider at work on the sink
  method Provide(sink: DataSink, call: ProviderCall)
    requires sink.dataAvailable
    modifies sink, sink.strm`outgoing
    ensures sink.strm.outgoing == old(sink.strm.outgoing) + EmittedBy(call)
    ensures sink.dataAvailable <==> !StopsAfter(call)
  {
    hide Emitted;
    assert sink.strm.outgoing + "" == sink.strm.outgoing;
    for k := 0 to |call|
      invariant sink.strm.outgoing == old(sink.strm.outgoing) + EmittedBy(call[..k])
      invariant sink.dataAvailable <==> !StopsAfter(call[..k])
    {
      assert call[..k + 1][..k] == call[..k];
      Reassociate(old(sink.strm.outgoing), EmittedBy(call[..k]), Emitted(call[k]));
      match call[k] {
        case Write(payload) => sink.Write(payload);
        case Done => sink.Done();
      }
    }
    assert call[..|call|] == call;
  }

  // The provider is called until data is no longer available; running out of calls stands for
  // the server shutting down
  method WriteContentChunked(strm: Stream, calls: seq<ProviderCall>)
    modifies strm`outgoing
    ensures strm.outgoing == old(strm.outgoing) + Encoding(calls)
  {
    hide Encoding, EmittedBy, Unsent;
    var sink := new DataSink(strm);
    var i := 0;
    ghost var sent, rest := "", Encoding(calls);
    UnsentEnds(calls, 0);
    while sink.dataAvailable && i < |calls|
      invariant 0 <= i <= |calls|
      invariant strm.outgoing == old(strm.outgoing) + sent
      invariant Encoding(calls) == sent + rest && rest == Unsent(calls, i, sink.dataAvailable)
      decreases |calls| - i
    {
      UnsentStep(calls, i);
      rest := Unsent(calls, i + 1, !StopsAfter(calls[i]));
      Reassociate(sent, EmittedBy(calls[i]), rest);
      Reassociate(old(strm.outgoing), sent, EmittedBy(calls[i]));
      Provide(sink, calls[i]);
      sent := sent + EmittedBy(calls[i]);
      i := i + 1;
    }
    UnsentEnds(calls, i);
    assert sent + "" == sent;
  }

  // ---------- reading lines ----------

  class StreamLineReader {
    const strm: Stream
    const fixedBuffer: array<char>
    var used: nat
    var growable: string

    constructor (strm: Stream, fixedBuffer: array<char>)
      requires fixedBuffer.Length > 0
      ensures this.strm == strm && this.fixedBuffer == fixedBuffer && Valid()
    {
      this.strm := strm;
      this.fixedBuffer := fixedBuffer;
      used := 0;
      growable := "";
    }

    ghost predicate Valid()
      reads this, fixedBuffer
    {
      used < fixedBuffer.Length
    }

    // The line read so far
    ghost function Text(): string
      reads this, fixedBuffer
      requires Valid()
    {
      if growable == "" then fixedBuffer[..used] else growable
    }

    // The fixed buffer holds a C string
    ghost predicate Terminated()
      reads this, fixedBuffer
      requires Valid()
    {
      fixedBuffer[used] == '\0'
    }

    method Append(c: char)
      requires Valid() && (used > 0 ==> Terminated()) && (growable != "" ==> used == fixedBuffer.Length - 1)
      requires fixedBuffer.Length > 1
      modifies this, fixedBuffer
      ensures Valid() && Terminated() && used > 0
      ensures growable != "" ==> used == fixedBuffer.Length - 1
      ensures Text() == old(Text()) + [c]
    {
      if used < fixedBuffer.Length - 1 {
        fixedBuffer[used] := c;
        used := used + 1;
        fixedBuffer[used] := '\0';
      } else {
        if growable == "" {
          growable := fixedBuffer[..used];
        }
        growable := growable + [c];
      }
    }

    // One byte at a time up to a newline or the end of the input
    method Getline() returns (ok: bool)
      requires Valid() && fixedBuffer.Length > 1
      modifies this, fixedBuffer, strm`incoming
      ensures Valid()
      ensures ok <==> GetLine(old(strm.incoming)).Line?
      ensures ok ==> Terminated() && Line(Text(), strm.incoming) == GetLine(old(strm.incoming))
      ensures !ok ==> strm.incoming == old(strm.incoming)
    {
      used := 0;
      growable := "";
      ghost var s := strm.incoming;
      var i := 0;
      while true
        invariant Valid() && (used > 0 ==> Terminated()) && (growable != "" ==> used == fixedBuffer.Length - 1)
        invariant i > 0 ==> used > 0
        invariant i <= |s| && Text() == s[..i] && strm.incoming == s[i..]
        invariant forall k :: 0 <= k < i ==> s[k] != '\n'
        decreases |s| - i
      {
        var byte := strm.Read(1);
        if byte == "" {
          if i == 0 {
            return false;
          } else {
            LineEndsAt(s, i);
            return true;
          }
        }
        assert byte == [s[i]] && strm.incoming == s[i + 1..] by {
          assert s[i..] == byte + strm.incoming;
          assert byte[0] == s[i..][0];
          assert s[i..][1..] == s[i + 1..];
        }
        Append(byte[0]);
        assert s[..i] + [s[i]] == s[..i + 1];
        if byte[0] == '\n' {
          LineEndsAt(s, i + 1);
          return true;
        }
        i := i + 1;
      }
    }

    // ptr() read as a C string
    method CString() returns (r: string)
      requires Valid() && Terminated()
      ensures r == CStr(Text())
    {
      if growable != "" {
        return CStr(growable);
      }
      var n := 0;
      while fixedBuffer[n] != '\0'
        invariant n <= used
        invariant forall k :: 0 <= k < n ==> fixedBuffer[k] != '\0'
        decreases used - n
      {
        n := n + 1;
      }
      r := fixedBuffer[..n];
      CStrStops(fixedBuffer[..used], n);
    }
  }

  lemma {:induction false} CStrStops(s: string, n: nat)
    requires n <= |s| && (forall k :: 0 <= k < n ==> s[k] != '\0') && (n < |s| ==> s[n] == '\0')
    ensures CStr(s) == s[..n]
  {
    if n > 0 {
      CStrStops(s[1..], n - 1);
      assert s[..n] == [s[0]] + s[1..][..n - 1];
    }
  }

  lemma LineEndsAt(s: string, n: nat)
    requires 0 < n <= |s|
    requires forall k :: 0 <= k < n - 1 ==> s[k] != '\n'
    requires s[n - 1] == '\n' || n == |s|
    ensures GetLine(s) == Line(s[..n], s[n..])
  {
    LineEndIs(s, n);
  }

  lemma {:induction false} LineEndIs(s: string, n: nat)
    requires 0 < n <= |s|
    requires forall k :: 0 <= k < n - 1 ==> s[k] != '\n'
    requires s[n - 1] == '\n' || n == |s|
    ensures LineEnd(s) == n
  {
    if n > 1 { LineEndIs(s[1..], n - 1); }
  }

  // ---------- reading a body ----------

  class Receiver {
    var received: string

    constructor ()
      ensures received == ""
    {
      received := "";
    }

    method Accept(bytes: string)
      modifies this
      ensures received == old(received) + bytes
    {
      received := received + bytes;
    }
  }

  method ReadContentWithLength(strm: Stream, len: nat, out: Receiver) returns (ok: bool)
    modifies strm`incoming, out
    ensures ok <==> |old(strm.incoming)| >= len
    ensures ok ==>
              && out.received == old(out.received) + old(strm.incoming)[..len]
              && strm.incoming == old(strm.incoming)[len..]
    ensures !ok ==> out.received == old(out.received) + old(strm.incoming) && strm.incoming == ""
  {
    ghost var s := strm.incoming;
    var r := 0;
    while r < len
      invariant r <= len && r <= |s|
      invariant strm.incoming == s[r..]
      invariant out.received == old(out.received) + s[..r]
    {
      var readLen := len - r;
      var buf := strm.Read(if readLen < RECV_BUFSIZ then readLen else RECV_BUFSIZ);
      if buf == "" {
        assert s[..r] == s;
        return false;
      }
      out.Accept(buf);
      assert s[r..] == buf + strm.incoming;
      assert s[r..][|buf|..] == s[r + |buf|..];
      assert s[..r + |buf|] == s[..r] + buf;
      r := r + |buf|;
    }
    ok := true;
  }

  method ReadContentChunked(strm: Stream, out: Receiver) returns (ok: bool)
    modifies strm`incoming, out
    ensures var d := Decode(old(strm.incoming));
            && ok == d.ok && strm.incoming == d.rest
            && out.received == old(out.received) + d.body
  {
    var buf := new char[LINE_BUFSIZ];
    var lineReader := new StreamLineReader(strm, buf);
    ok := lineReader.Getline();
    if !ok { return false; }
    ok := ReadChunks(strm, lineReader, out);
  }

  // One round of read_content_chunked with a size line in the reader; more says that the next
  // size line has been read
  method ReadChunk(strm: Stream, lineReader: StreamLineReader, out: Receiver)
    returns (more: bool, ok: bool, ghost piece: string, ghost ahead: Decoded)
    requires lineReader.strm == strm && lineReader.Valid() && lineReader.Terminated()
    requires lineReader.fixedBuffer.Length > 1
    modifies strm`incoming, out, lineReader, lineReader.fixedBuffer
    ensures lineReader.Valid() && out.received == old(out.received) + piece
    ensures more ==> lineReader.Terminated() && |strm.incoming| < |old(strm.incoming)|
    ensures DecodeChunks(old(lineReader.Text()), old(strm.incoming)) == WithBody(piece, ahead)
    ensures ahead == if more then DecodeChunks(lineReader.Text(), strm.incoming) else Decoded(ok, "", strm.incoming)
  {
    more, ok, piece := ReadOneChunk(strm, lineReader, out);
    ahead := if more then DecodeChunks(lineReader.Text(), strm.incoming) else Decoded(ok, "", strm.incoming);
    assert piece + "" == piece;
  }

  method ReadOneChunk(strm: Stream, lineReader: StreamLineReader, out: Receiver)
    returns (more: bool, ok: bool, ghost piece: string)
    requires lineReader.strm == strm && lineReader.Valid() && lineReader.Terminated()
    requires lineReader.fixedBuffer.Length > 1
    modifies strm`incoming, out, lineReader, lineReader.fixedBuffer
    ensures lineReader.Valid() && out.received == old(out.received) + piece
    ensures more ==> lineReader.Terminated() && |strm.incoming| < |old(strm.incoming)|
    ensures DecodeChunks(old(lineReader.Text()), old(strm.incoming)) ==
            if more then WithBody(piece, DecodeChunks(lineReader.Text(), strm.incoming))
            else Decoded(ok, piece, strm.incoming)
  {
    hide Strtoul16, GetLine;
    ghost var s := strm.incoming;
    more, ok, piece := false, false, "";
    var sizeText := lineReader.CString();
    var chunkLen := Strtoul16(sizeText);
    if chunkLen == NotANumber { return; }
    if chunkLen.n == ULONG_MAX { return; }
    if chunkLen.n == 0 {
      var last := lineReader.Getline();
      if !last { return; }
      var end := lineReader.CString();
      ok := end == CRLF;
      return;
    }
    var all := ReadContentWithLength(strm, chunkLen.n, out);
    piece := if all then s[..chunkLen.n] else s;
    if !all { return; }
    var got := lineReader.Getline();
    if !got { return; }
    var end := lineReader.CString();
    if end != CRLF {
      ok := true;
      return;
    }
    more := lineReader.Getline();
  }

  lemma WithBodyTwice(a: string, b: string, d: Decoded)
    ensures WithBody(a, WithBody(b, d)) == WithBody(a + b, d)
  {
    Reassociate(a, b, d.body);
  }

  method ReadChunks(strm: Stream, lineReader: StreamLineReader, out: Receiver) returns (ok: bool)
    requires lineReader.strm == strm && lineReader.Valid() && lineReader.Terminated()
    requires lineReader.fixedBuffer.Length > 1
    modifies strm`incoming, out, lineReader, lineReader.fixedBuffer
    ensures var d := DecodeChunks(old(lineReader.Text()), old(strm.incoming));
            && ok == d.ok && strm.incoming == d.rest
            && out.received == old(out.received) + d.body
  {
    ghost var body := "";
    ghost var ahead := DecodeChunks(lineReader.Text(), strm.incoming);
    ghost var whole := ahead;
    assert WithBody("", ahead) == ahead;
    var more := true;
    ok := false;
    while more
      invariant lineReader.Valid() && (more ==> lineReader.Terminated())
      invariant out.received == old(out.received) + body
      invariant whole == WithBody(body, ahead)
      invariant ahead == if more then DecodeChunks(lineReader.Text(), strm.incoming) else Decoded(ok, "", strm.incoming)
      decreases more, |strm.incoming|
    {
      ghost var piece;
      more, ok, piece, ahead := ReadChunk(strm, lineReader, out);
      WithBodyTwice(body, piece, ahead);
      Reassociate(old(out.received), body, piece);
      body := body + piece;
    }
  }
}
