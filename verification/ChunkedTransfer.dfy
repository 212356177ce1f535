/** A chunked body from one end of the connection to the other: what the content provider does with the sink of
    lib/httplib/httplib.h, and what the receiver gets of it. */
module ChunkedTransfer {
  import opened ChunkedCodec
  import opened ChunkedStreams

  // The uses of the sink that are made: calls stop after the first one whose last use ends the data
  function Uses(calls: seq<ProviderCall>): seq<SinkCall> {
    if calls == [] then []
    else calls[0] + (if StopsAfter(calls[0]) then [] else Uses(calls[1..]))
  }

  // The payloads that are sent before the first Done
  function Before(uses: seq<SinkCall>): seq<string> {
    if uses == [] || uses[0].Done? then []
    else (if uses[0].payload == "" then [] else [uses[0].payload]) + Before(uses[1..])
  }

  // What is sent after the first Done
  function Behind(uses: seq<SinkCall>): string {
    if uses == [] then ""
    else if uses[0].Done? then EmittedBy(uses[1..])
    else Behind(uses[1..])
  }

  lemma {:induction false} EmittedByBoth(a: seq<SinkCall>, b: seq<SinkCall>)
    ensures EmittedBy(a + b) == EmittedBy(a) + EmittedBy(b)
  {
    hide Emitted;
    if b == [] {
      assert a + b == a && EmittedBy(a) + "" == EmittedBy(a);
    } else {
      var n := |b| - 1;
      EmittedByBoth(a, b[..n]);
      assert (a + b)[..|a + b| - 1] == a + b[..n] && (a + b)[|a + b| - 1] == b[n];
      Reassociate(EmittedBy(a), EmittedBy(b[..n]), Emitted(b[n]));
    }
  }

  lemma EmittedByFirst(uses: seq<SinkCall>)
    requires uses != []
    ensures EmittedBy(uses) == Emitted(uses[0]) + EmittedBy(uses[1..])
  {
    hide Emitted;
    assert uses == [uses[0]] + uses[1..];
    EmittedByBoth([uses[0]], uses[1..]);
    assert EmittedBy([uses[0]][..0]) + Emitted(uses[0]) == Emitted(uses[0]);
  }

  lemma {:induction false} EncodingOfUses(calls: seq<ProviderCall>)
    ensures Encoding(calls) == EmittedBy(Uses(calls))
  {
    hide EmittedBy;
    if calls == [] {
      EmittedByNone();
    } else {
      var rest := if StopsAfter(calls[0]) then [] else Uses(calls[1..]);
      EncodingOfUses(calls[1..]);
      EmittedByNone();
      EmittedByBoth(calls[0], rest);
    }
  }

  lemma EmittedByNone()
    ensures EmittedBy([]) == ""
  {
  }

  // The bytes of any uses: chunks up to the first Done, the last chunk there, and whatever is sent behind it
  lemma {:induction false} EmittedByParts(uses: seq<SinkCall>)
    ensures EmittedBy(uses) ==
            Chunks(Before(uses)) + (if SinkCall.Done in uses then LAST_CHUNK + Behind(uses) else "")
  {
    hide EmittedBy, Chunk;
    if uses == [] {
      EmittedByNone();
    } else {
      var first, rest := uses[0], uses[1..];
      EmittedByFirst(uses);
      assert uses == [first] + rest;
      if first.Done? {
        assert "" + (LAST_CHUNK + EmittedBy(rest)) == LAST_CHUNK + EmittedBy(rest);
      } else {
        EmittedByParts(rest);
        var end := if SinkCall.Done in uses then LAST_CHUNK + Behind(uses) else "";
        if first.payload == "" {
          assert [] + Before(rest) == Before(rest) && "" + EmittedBy(rest) == EmittedBy(rest);
        } else {
          assert ([first.payload] + Before(rest))[1..] == Before(rest);
          Reassociate(Chunk(first.payload), Chunks(Before(rest)), end);
        }
      }
    }
  }

  // Sizes are those of a size_t below the largest, which the reader takes for an error
  ghost predicate Sizes(calls: seq<ProviderCall>) {
    forall k, j :: 0 <= k < |calls| && 0 <= j < |calls[k]| && calls[k][j].Write? ==> |calls[k][j].payload| < ULONG_MAX
  }

  lemma {:induction false} UsesHaveSizes(calls: seq<ProviderCall>)
    requires Sizes(calls)
    ensures forall j :: 0 <= j < |Uses(calls)| && Uses(calls)[j].Write? ==> |Uses(calls)[j].payload| < ULONG_MAX
  {
    if calls != [] {
      forall k, j | 0 <= k < |calls[1..]| && 0 <= j < |calls[1..][k]| && calls[1..][k][j].Write?
        ensures |calls[1..][k][j].payload| < ULONG_MAX
      {
        assert calls[1..][k] == calls[k + 1];
      }
      UsesHaveSizes(calls[1..]);
    }
  }

  lemma {:induction false} BeforeHasSizes(uses: seq<SinkCall>)
    requires forall j :: 0 <= j < |uses| && uses[j].Write? ==> |uses[j].payload| < ULONG_MAX
    ensures forall j :: 0 <= j < |Before(uses)| ==> 0 < |Before(uses)[j]| < ULONG_MAX
  {
    if uses != [] && uses[0].Write? { BeforeHasSizes(uses[1..]); }
  }

  // Whatever the provider does: the reader reports success exactly if a Done is reached, and in either case has
  // delivered the payloads written before it; what was sent behind it stays unread
  lemma TransferOutcome(calls: seq<ProviderCall>)
    requires Sizes(calls)
    ensures var uses := Uses(calls);
            Decode(Encoding(calls)) ==
            if SinkCall.Done in uses then Decoded(true, Concat(Before(uses)), Behind(uses))
            else Decoded(false, Concat(Before(uses)), "")
  {
    hide Decode, Encoding, Chunks, Concat, EmittedBy, Uses;
    var uses := Uses(calls);
    EncodingOfUses(calls);
    EmittedByParts(uses);
    UsesHaveSizes(calls);
    BeforeHasSizes(uses);
    if SinkCall.Done in uses {
      Reassociate(Chunks(Before(uses)), LAST_CHUNK, Behind(uses));
      ChunkedRoundTrip(Before(uses), Behind(uses));
    } else {
      assert Chunks(Before(uses)) + "" == Chunks(Before(uses));
      TruncatedFails(Before(uses));
    }
  }

  // ---------- when everything arrives ----------

  // Some call has a Done, and every earlier call leaves data available
  ghost predicate ReachesDone(calls: seq<ProviderCall>) {
    exists i :: 0 <= i < |calls| && SinkCall.Done in calls[i] && forall k :: 0 <= k < i ==> !StopsAfter(calls[k])
  }

  lemma ReachesDoneLater(calls: seq<ProviderCall>)
    requires calls != [] && SinkCall.Done !in calls[0]
    ensures ReachesDone(calls) <==> !StopsAfter(calls[0]) && ReachesDone(calls[1..])
  {
    hide StopsAfter;
    var rest := calls[1..];
    if !StopsAfter(calls[0]) && ReachesDone(rest) {
      var i :| 0 <= i < |rest| && SinkCall.Done in rest[i] && forall k :: 0 <= k < i ==> !StopsAfter(rest[k]);
      assert forall k :: 0 < k < i + 1 ==> calls[k] == rest[k - 1];
      assert SinkCall.Done in calls[i + 1];
    }
    if i :| 0 <= i < |calls| && SinkCall.Done in calls[i] && forall k :: 0 <= k < i ==> !StopsAfter(calls[k]) {
      assert forall k :: 0 <= k < i - 1 ==> rest[k] == calls[k + 1];
      assert SinkCall.Done in rest[i - 1];
    }
  }

  // That is exactly when a Done is among the uses that are made
  lemma {:induction false} DoneIsReached(calls: seq<ProviderCall>)
    ensures SinkCall.Done in Uses(calls) <==> ReachesDone(calls)
  {
    hide StopsAfter;
    if calls != [] {
      if SinkCall.Done !in calls[0] {
        ReachesDoneLater(calls);
        DoneIsReached(calls[1..]);
      }
    }
  }

  // All data the provider writes, before a Done or behind it
  function Written(uses: seq<SinkCall>): string {
    if uses == [] then "" else (if uses[0].Done? then "" else uses[0].payload) + Written(uses[1..])
  }

  ghost predicate NothingBehindDone(uses: seq<SinkCall>) {
    forall i, j :: 0 <= i < j < |uses| && uses[i].Done? && uses[j].Write? ==> uses[j].payload == ""
  }

  lemma {:induction false} NothingWritten(uses: seq<SinkCall>)
    ensures Written(uses) == "" <==> forall j :: 0 <= j < |uses| && uses[j].Write? ==> uses[j].payload == ""
  {
    if uses != [] {
      NothingWritten(uses[1..]);
      assert forall j :: 0 < j < |uses| ==> uses[j] == uses[1..][j - 1];
    }
  }

  // All of it is sent before the first Done exactly if nothing is written behind one
  lemma {:induction false} AllIsBefore(uses: seq<SinkCall>)
    ensures Concat(Before(uses)) == Written(uses) <==> NothingBehindDone(uses)
  {
    hide Concat, NothingBehindDone;
    if uses == [] {
      NoneBehind();
    } else if uses[0].Done? {
      NothingWritten(uses[1..]);
      NothingBehindFirst(uses);
      assert "" + Written(uses[1..]) == Written(uses[1..]);
    } else {
      AllIsBefore(uses[1..]);
      BeforeWrite(uses);
      NothingBehindRest(uses);
      SameBeginning(uses[0].payload, Concat(Before(uses[1..])), Written(uses[1..]));
    }
  }

  lemma NoneBehind()
    ensures Concat([]) == "" && NothingBehindDone([])
  {
  }

  lemma SameBeginning(a: string, b: string, c: string)
    ensures a + b == a + c <==> b == c
  {
    assert (a + b)[|a|..] == b && (a + c)[|a|..] == c;
  }

  lemma NothingBehindFirst(uses: seq<SinkCall>)
    requires uses != [] && uses[0].Done?
    ensures Concat(Before(uses)) == ""
    ensures NothingBehindDone(uses) <==>
            forall j :: 0 <= j < |uses[1..]| && uses[1..][j].Write? ==> uses[1..][j].payload == ""
  {
    var rest := uses[1..];
    if NothingBehindDone(uses) {
      forall j | 0 <= j < |rest| && rest[j].Write? ensures rest[j].payload == "" {
        assert rest[j] == uses[j + 1] && uses[0].Done?;
      }
    }
    if forall j :: 0 <= j < |rest| && rest[j].Write? ==> rest[j].payload == "" {
      forall i, j | 0 <= i < j < |uses| && uses[i].Done? && uses[j].Write? ensures uses[j].payload == "" {
        assert rest[j - 1] == uses[j];
      }
    }
  }

  lemma BeforeWrite(uses: seq<SinkCall>)
    requires uses != [] && uses[0].Write?
    ensures Concat(Before(uses)) == uses[0].payload + Concat(Before(uses[1..]))
  {
    var first, rest := uses[0].payload, Before(uses[1..]);
    if first == "" {
      assert [] + rest == rest && "" + Concat(rest) == Concat(rest);
    } else {
      assert ([first] + rest)[1..] == rest;
    }
  }

  lemma NothingBehindRest(uses: seq<SinkCall>)
    requires uses != [] && uses[0].Write?
    ensures NothingBehindDone(uses) <==> NothingBehindDone(uses[1..])
  {
    var rest := uses[1..];
    if NothingBehindDone(uses) {
      forall i, j | 0 <= i < j < |rest| && rest[i].Done? && rest[j].Write? ensures rest[j].payload == "" {
        assert uses[i + 1] == rest[i] && uses[j + 1] == rest[j];
      }
    }
    if NothingBehindDone(rest) {
      forall i, j | 0 <= i < j < |uses| && uses[i].Done? && uses[j].Write? ensures uses[j].payload == "" {
        assert rest[i - 1] == uses[i] && rest[j - 1] == uses[j];
      }
    }
  }

  // Any provider, over any two streams with any short reads and writes on either
  method TransferAny(writer: Stream, calls: seq<ProviderCall>) returns (ok: bool, received: string, unread: string)
    requires writer.outgoing == "" && Sizes(calls)
    modifies writer`outgoing
    ensures ok <==> ReachesDone(calls)
    ensures received == Concat(Before(Uses(calls))) && unread == if ok then Behind(Uses(calls)) else ""
    ensures received == Written(Uses(calls)) <==> NothingBehindDone(Uses(calls))
  {
    hide Decode, Encoding, Uses, Behind, Concat, Before, Written, NothingBehindDone, ReachesDone;
    WriteContentChunked(writer, calls);
    var reader := new Stream(writer.outgoing);
    var out := new Receiver();
    assert "" + Encoding(calls) == Encoding(calls);
    ok := ReadContentChunked(reader, out);
    received, unread := out.received, reader.incoming;
    TransferOutcome(calls);
    DoneIsReached(calls);
    AllIsBefore(Uses(calls));
  }

  // ---------- providers of common shapes ----------

  function Writes(payloads: seq<string>): ProviderCall {
    seq(|payloads|, k requires 0 <= k < |payloads| => SinkCall.Write(payloads[k]))
  }

  lemma {:induction false} WritesFacts(payloads: seq<string>, end: seq<SinkCall>)
    requires end == [] || end == [SinkCall.Done]
    ensures var uses := Writes(payloads) + end;
            && (SinkCall.Done in uses <==> end != [])
            && Concat(Before(uses)) == Concat(payloads) && Behind(uses) == ""
  {
    if payloads == [] {
      assert Writes(payloads) + end == end;
      assert [SinkCall.Done][1..] == [];
    } else {
      var uses := Writes(payloads) + end;
      assert uses[1..] == Writes(payloads[1..]) + end;
      WritesFacts(payloads[1..], end);
      BeforeWrite(uses);
    }
  }

  // The provider of the documentation writes and says it is done in one call: everything arrives, whatever it writes
  lemma WriteThenDone(payloads: seq<string>)
    requires forall k :: 0 <= k < |payloads| ==> |payloads[k]| < ULONG_MAX
    ensures Decode(Encoding([Writes(payloads) + [SinkCall.Done]])) == Decoded(true, Concat(payloads), "")
  {
    hide Decode, Encoding, Before, Behind, Concat, Writes;
    var call := Writes(payloads) + [SinkCall.Done];
    WritesFacts(payloads, [SinkCall.Done]);
    WritesAre(payloads);
    assert Uses([call]) == call by { OneCall(call); }
    TransferOutcome([call]);
  }

  lemma WritesAre(payloads: seq<string>)
    ensures |Writes(payloads)| == |payloads|
    ensures forall k :: 0 <= k < |payloads| ==> Writes(payloads)[k] == SinkCall.Write(payloads[k])
  {
  }

  lemma OneCall(call: ProviderCall)
    ensures Uses([call]) == call
  {
    assert Uses([]) == [] && call + [] == call;
  }

  // A call that ends with an empty payload does no harm behind a Done, and a payload behind one is never delivered
  lemma BehindDone()
    ensures Decode(Encoding([[SinkCall.Write("a"), SinkCall.Done, SinkCall.Write("")]])) == Decoded(true, "a", "")
    ensures Decode(Encoding([[SinkCall.Write("a"), SinkCall.Done, SinkCall.Write("b")]])) ==
            Decoded(true, "a", Chunk("b"))
  {
    hide Decode, Encoding, Chunk;
    AroundDone(SinkCall.Write("a"), SinkCall.Write(""));
    AroundDone(SinkCall.Write("a"), SinkCall.Write("b"));
  }

  lemma AroundDone(first: SinkCall, last: SinkCall)
    requires first.Write? && 0 < |first.payload| < ULONG_MAX && last.Write? && |last.payload| < ULONG_MAX
    ensures Decode(Encoding([[first, SinkCall.Done, last]])) == Decoded(true, first.payload, Emitted(last))
  {
    hide Decode, Encoding, Emitted;
    var call := [first, SinkCall.Done, last];
    OneCall(call);
    TransferOutcome([call]);
    assert call[1..] == [SinkCall.Done, last] && call[1..][1..] == [last];
    assert Before(call[1..]) == [] && Before(call) == [first.payload] + [];
    assert Concat([first.payload]) == first.payload + Concat([]) by { assert [first.payload][1..] == []; }
    assert first.payload + "" == first.payload;
    EmittedByFirst([last]);
    assert [last][1..] == [] && Emitted(last) + "" == Emitted(last);
  }

  // ---------- groups of payloads, one for each call of the provider ----------

  // The provider ends such a call with a write of nothing
  predicate Breaks(group: seq<string>) {
    group != [] && group[|group| - 1] == ""
  }

  // One call for each group, then a call that says it is done
  function Calls(groups: seq<seq<string>>): seq<ProviderCall> {
    if groups == [] then [[SinkCall.Done]] else [Writes(groups[0])] + Calls(groups[1..])
  }

  function All(groups: seq<seq<string>>): seq<string> {
    if groups == [] then [] else groups[0] + All(groups[1..])
  }

  // The groups up to the first that breaks, with it
  function Sent(groups: seq<seq<string>>): (r: seq<seq<string>>)
    ensures |r| <= |groups| && r == groups[..|r|]
    ensures forall k :: 0 <= k < |r| - 1 ==> !Breaks(r[k])
    ensures r == groups || (r != [] && Breaks(r[|r| - 1]))
  {
    if groups == [] then []
    else if Breaks(groups[0]) then [groups[0]]
    else
      var rest := Sent(groups[1..]);
      var r := [groups[0]] + rest;
      assert r == groups[..|rest| + 1] && forall k :: 0 < k < |r| ==> r[k] == rest[k - 1];
      assert rest == groups[1..] ==> r == groups;
      r
  }

  predicate SomeBreak(groups: seq<seq<string>>) {
    exists k :: 0 <= k < |groups| && Breaks(groups[k])
  }

  lemma NoGroups()
    ensures !SomeBreak([]) && Writes([]) == []
  {
  }

  lemma BreakNow(groups: seq<seq<string>>)
    requires groups != [] && Breaks(groups[0])
    ensures SomeBreak(groups)
  {
  }

  lemma BreakLater(groups: seq<seq<string>>)
    requires groups != [] && !Breaks(groups[0])
    ensures SomeBreak(groups) <==> SomeBreak(groups[1..])
  {
    if k :| 0 <= k < |groups| && Breaks(groups[k]) { assert Breaks(groups[1..][k - 1]); }
    if k :| 0 <= k < |groups[1..]| && Breaks(groups[1..][k]) { assert Breaks(groups[k + 1]); }
  }

  lemma WritesJoined(a: seq<string>, b: seq<string>, end: seq<SinkCall>)
    ensures Writes(a) + (Writes(b) + end) == Writes(a + b) + end
  {
  }

  lemma WritesStop(group: seq<string>)
    ensures StopsAfter(Writes(group)) <==> Breaks(group)
  {
  }

  // The uses are the payloads of the groups up to the first that breaks, and a Done if none does
  lemma {:induction false} UsesOfCalls(groups: seq<seq<string>>)
    ensures Uses(Calls(groups)) ==
            Writes(All(Sent(groups))) + (if SomeBreak(groups) then [] else [SinkCall.Done])
  {
    hide Writes, StopsAfter, Breaks, SomeBreak;
    if groups == [] {
      NoGroups();
      OneCall([SinkCall.Done]);
      assert [] + [SinkCall.Done] == [SinkCall.Done];
    } else {
      var g, rest := groups[0], groups[1..];
      UsesOfCalls(rest);
      assert Calls(groups)[0] == Writes(g) && Calls(groups)[1..] == Calls(rest);
      WritesStop(g);
      if Breaks(g) {
        BreakNow(groups);
        assert All([]) == [] && [g][1..] == [];
        assert Sent(groups) == [g] && All([g]) == g + [] && g + [] == g && Writes(g) + [] == Writes(g);
      } else {
        BreakLater(groups);
        assert Sent(groups) == [g] + Sent(rest) && ([g] + Sent(rest))[1..] == Sent(rest);
        WritesJoined(g, All(Sent(rest)), if SomeBreak(groups) then [] else [SinkCall.Done]);
      }
    }
  }

  ghost predicate GroupSizes(groups: seq<seq<string>>) {
    forall k :: 0 <= k < |groups| ==> forall p :: p in groups[k] ==> |p| < ULONG_MAX
  }

  lemma {:induction false} CallsHaveSizes(groups: seq<seq<string>>)
    requires GroupSizes(groups)
    ensures Sizes(Calls(groups))
  {
    if groups != [] {
      CallsHaveSizes(groups[1..]);
      var calls: seq<ProviderCall> := Calls(groups);
      forall k: nat, j: nat | k < |calls| && j < |calls[k]| && calls[k][j].Write?
        ensures |calls[k][j].payload| < ULONG_MAX
      {
        if k == 0 {
          assert groups[0][j] in groups[0];
        } else {
          assert calls[k] == Calls(groups[1..])[k - 1];
        }
      }
    }
  }

  // A provider that writes its payloads, any number in each call, and then says it is done: over any two streams, with
  // any short reads and writes on either, everything arrives if and only if no call ends with an empty payload. Such a
  // call ends the data without the last chunk, and the reader reports failure after what came up to there.
  method TransferCalls(writer: Stream, groups: seq<seq<string>>) returns (ok: bool, received: string)
    requires writer.outgoing == "" && GroupSizes(groups)
    modifies writer`outgoing
    ensures ok <==> forall k :: 0 <= k < |groups| ==> !Breaks(groups[k])
    ensures ok ==> received == Concat(All(groups))
    ensures !ok ==> exists n ::
              && 0 <= n < |groups| && Breaks(groups[n]) && (forall k :: 0 <= k < n ==> !Breaks(groups[k]))
              && received == Concat(All(groups[..n + 1]))
  {
    hide Uses, Before, Written, NothingBehindDone, ReachesDone, Concat, All, Breaks, Sent, Calls;
    CallsHaveSizes(groups);
    ghost var uses := Uses(Calls(groups));
    ghost var unread;
    DoneIsReached(Calls(groups));
    ok, received, unread := TransferAny(writer, Calls(groups));
    UsesOfCalls(groups);
    WritesFacts(All(Sent(groups)), if SomeBreak(groups) then [] else [SinkCall.Done]);
    BreakIsLast(groups);
  }

  lemma BreakIsLast(groups: seq<seq<string>>)
    ensures !SomeBreak(groups) ==> Sent(groups) == groups
    ensures SomeBreak(groups) ==>
              var n := |Sent(groups)| - 1;
              && n >= 0 && Breaks(groups[n]) && (forall k :: 0 <= k < n ==> !Breaks(groups[k]))
              && Sent(groups) == groups[..n + 1]
  {
    hide Sent, Breaks;
    var r := Sent(groups);
    if SomeBreak(groups) {
      var m :| 0 <= m < |groups| && Breaks(groups[m]);
      assert r == groups ==> m == |r| - 1;
      assert r != [] && Breaks(r[|r| - 1]);
      assert forall k :: 0 <= k < |r| ==> r[k] == groups[k];
    } else if r != [] {
      assert r[|r| - 1] == groups[|r| - 1];
    }
  }

  // One payload in each call
  function Singles(payloads: seq<string>): seq<seq<string>> {
    seq(|payloads|, k requires 0 <= k < |payloads| => [payloads[k]])
  }

  lemma {:induction false} AllSingles(payloads: seq<string>)
    ensures All(Singles(payloads)) == payloads
  {
    if payloads != [] {
      assert Singles(payloads)[1..] == Singles(payloads[1..]);
      AllSingles(payloads[1..]);
    }
  }

  lemma SinglesBreak(payloads: seq<string>)
    ensures forall k :: 0 <= k < |payloads| ==> (Breaks(Singles(payloads)[k]) <==> payloads[k] == "")
  {
  }

  lemma {:induction false} ConcatMore(payloads: seq<string>, last: string)
    ensures Concat(payloads + [last]) == Concat(payloads) + last
  {
    var all := payloads + [last];
    if payloads == [] {
      assert all[1..] == [] && last + "" == last;
    } else {
      assert all[1..] == payloads[1..] + [last];
      ConcatMore(payloads[1..], last);
      Reassociate(payloads[0], Concat(payloads[1..]), last);
    }
  }

  lemma SinglesUpTo(payloads: seq<string>, n: nat)
    requires n < |payloads| && payloads[n] == ""
    ensures Concat(All(Singles(payloads)[..n + 1])) == Concat(payloads[..n])
  {
    assert Singles(payloads)[..n + 1] == Singles(payloads[..n + 1]);
    AllSingles(payloads[..n + 1]);
    assert payloads[..n + 1] == payloads[..n] + [""];
    ConcatMore(payloads[..n], "");
    assert Concat(payloads[..n]) + "" == Concat(payloads[..n]);
  }

  // With one payload in each call everything arrives if and only if no payload is empty
  method Transfer(writer: Stream, payloads: seq<string>) returns (ok: bool, received: string)
    requires writer.outgoing == ""
    requires forall k :: 0 <= k < |payloads| ==> |payloads[k]| < ULONG_MAX
    modifies writer`outgoing
    ensures ok <==> forall k :: 0 <= k < |payloads| ==> payloads[k] != ""
    ensures ok ==> received == Concat(payloads)
    ensures !ok ==> exists n :: 0 <= n < |payloads| && payloads[n] == "" && received == Concat(payloads[..n])
  {
    hide Concat, All, Breaks;
    ok, received := TransferCalls(writer, Singles(payloads));
    AllSingles(payloads);
    SinglesBreak(payloads);
    if !ok {
      ghost var n: nat :| n < |payloads| && Breaks(Singles(payloads)[n])
                          && received == Concat(All(Singles(payloads)[..n + 1]));
      SinglesUpTo(payloads, n);
    }
  }
}
