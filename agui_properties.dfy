/** What `streamChatAGUI` and `streamChat` guarantee, proved about the
    functions that specify them. */
module AguiProperties {
  import opened Wrappers
  import opened JsStrings
  import opened SseLines
  import opened Agui

  // ---------------------------------------------------------------------
  // Framing of the lifecycle events

  /** One read's lines yield content events only, except that a `return`
      ends them with one ERROR. */
  lemma {:induction false} AguiLinesShape(messageId: string, lines: seq<string>, parse: Parser)
    ensures var o := AguiLines(messageId, lines, parse);
      (o.exit != Returned ==> AllContent(messageId, o.events)) &&
      (o.exit == Returned ==> |o.events| >= 1 && AllContent(messageId, Init(o.events)) && Last(o.events).Error?)
  {
    if lines != [] {
      AguiLinesShape(messageId, lines[1..], parse);
      var rest := AguiLines(messageId, lines[1..], parse);
      match ParseLine(lines[0], parse)
      case None =>
      case Some(e) =>
        match FrameAction(messageId, e)
        case Emit(event) =>
          var evs := [event] + rest.events;
          assert forall k :: 1 <= k < |evs| ==> evs[k] == rest.events[k - 1];
        case Skip =>
        case EmitAndReturn(event) =>
        case BreakLines =>
    }
  }

  /** The read loop ends with exactly one END or ERROR and yields only
      content events before it; a thrown failure is reported by that ERROR. */
  lemma {:induction false} AguiReadsShape(messageId: string, buffer: string, chunks: seq<Read>, parse: Parser)
    ensures var r := AguiReads(messageId, buffer, chunks, parse);
      ContentThenTerminal(messageId, r.events) &&
      (r.thrown.Some? ==> Last(r.events) == Error(FailureMessage(r.thrown.value)))
    decreases |chunks|
  {
    if chunks != [] && chunks[0].Bytes? {
      var fed := Feed(buffer, chunks[0].text);
      var o := AguiLines(messageId, fed.lines, parse);
      var next := AguiReads(messageId, fed.rest, chunks[1..], parse);
      AguiLinesShape(messageId, fed.lines, parse);
      AguiReadsShape(messageId, fed.rest, chunks[1..], parse);
      if o.exit != Returned {
        var evs := o.events + next.events;
        assert Init(evs) == o.events + Init(next.events);
        assert forall k :: |o.events| <= k < |Init(evs)| ==> Init(evs)[k] == Init(next.events)[k - |o.events|];
      }
    }
  }

  /** `streamChatAGUI` always yields START first, then content events
      carrying the same id, then exactly one END or ERROR; a rethrown error
      is the one the last ERROR reports, and END means nothing was thrown. */
  lemma SessionWellFramed(messageId: string, response: Response, parse: Parser)
    ensures var r := AguiSession(messageId, response, parse);
      WellFramed(messageId, r.events) &&
      (r.thrown.Some? ==> Last(r.events) == Error(FailureMessage(r.thrown.value))) &&
      (Last(r.events).TextMessageEnd? ==> r.thrown.None?)
  {
    if response.Received? && IsOk(response.status) && response.body.Some? {
      AguiReadsShape(messageId, "", response.body.value, parse);
      var r := AguiSession(messageId, response, parse);
      assert r.events[1..] == AguiReads(messageId, "", response.body.value, parse).events;
    } else {
      var r := AguiSession(messageId, response, parse);
      assert r.events[1..] == [Last(r.events)];
    }
  }

  /** In a well-framed sequence START occurs once, at the front, and END or
      ERROR occurs once, at the back. */
  lemma WellFramedCounts(messageId: string, events: seq<AguiEvent>)
    requires WellFramed(messageId, events)
    ensures forall k :: 0 < k < |events| ==> !events[k].TextMessageStart?
    ensures forall k :: 0 <= k < |events| - 1 ==> !events[k].TextMessageEnd? && !events[k].Error?
    ensures forall k :: 0 <= k < |events| && events[k].TextMessageContent? ==> events[k].delta != ""
  {
    var body := events[1..];
    forall k | 0 < k < |events| - 1
      ensures IsContent(messageId, events[k])
    {
      assert events[k] == Init(body)[k - 1];
    }
    assert Last(events) == Last(body);
  }

  // ---------------------------------------------------------------------
  // Lines, frames and the mapper

  /** The frames of a run of lines: the payload of every data line that
      parses, in order; other lines and unparsable payloads give nothing. */
  function Frames(lines: seq<string>, parse: Parser): seq<WireEvent>
  {
    if lines == [] then []
    else
      (match ParseLine(lines[0], parse) case None => [] case Some(e) => [e]) + Frames(lines[1..], parse)
  }

  /** The lifecycle mapper over frames: a non-empty chunk becomes CONTENT, an
      error becomes ERROR and stops, done stops without an event. */
  function MapFrames(messageId: string, frames: seq<WireEvent>): LinesOutcome
  {
    if frames == [] then LinesOutcome([], Exhausted)
    else
      match FrameAction(messageId, frames[0])
      case Emit(event) =>
        var rest := MapFrames(messageId, frames[1..]);
        LinesOutcome([event] + rest.events, rest.exit)
      case Skip => MapFrames(messageId, frames[1..])
      case EmitAndReturn(event) => LinesOutcome([event], Returned)
      case BreakLines => LinesOutcome([], Broke)
  }

  /** Handling one read's lines is decoding their frames and mapping those:
      a line without the data prefix or with a payload that does not parse is
      skipped and the lines after it are still handled. */
  lemma {:induction false} AguiLinesMapsFrames(messageId: string, lines: seq<string>, parse: Parser)
    ensures AguiLines(messageId, lines, parse) == MapFrames(messageId, Frames(lines, parse))
  {
    if lines != [] {
      AguiLinesMapsFrames(messageId, lines[1..], parse);
      var frames := Frames(lines, parse);
      match ParseLine(lines[0], parse)
      case None =>
        assert frames == Frames(lines[1..], parse);
      case Some(e) =>
        assert frames == [e] + Frames(lines[1..], parse);
        assert frames[1..] == Frames(lines[1..], parse);
    }
  }

  /** Handling two runs of lines together is handling them one after the
      other, unless the first run already leaves the loop by `break` or
      `return`, in which case the second run is never looked at. */
  lemma {:induction false} AguiLinesAppend(messageId: string, lines1: seq<string>, lines2: seq<string>, parse: Parser)
    ensures var o1 := AguiLines(messageId, lines1, parse);
      var o2 := AguiLines(messageId, lines2, parse);
      AguiLines(messageId, lines1 + lines2, parse) ==
        if o1.exit == Exhausted then LinesOutcome(o1.events + o2.events, o2.exit) else o1
  {
    if lines1 == [] {
      assert lines1 + lines2 == lines2;
    } else {
      assert (lines1 + lines2)[1..] == lines1[1..] + lines2;
      AguiLinesAppend(messageId, lines1[1..], lines2, parse);
      var o2 := AguiLines(messageId, lines2, parse);
      var rest := AguiLines(messageId, lines1[1..], parse);
      match ParseLine(lines1[0], parse)
      case None =>
      case Some(e) =>
        match FrameAction(messageId, e)
        case Emit(event) =>
          assert [event] + (rest.events + o2.events) == ([event] + rest.events) + o2.events;
        case Skip =>
        case EmitAndReturn(event) =>
        case BreakLines =>
    }
  }

  /** The inner loop leaves by `break` only on a done frame. */
  lemma {:induction false} BrokeMeansDone(messageId: string, lines: seq<string>, parse: Parser)
    ensures AguiLines(messageId, lines, parse).exit == Broke ==> Done in Frames(lines, parse)
  {
    if lines != [] {
      BrokeMeansDone(messageId, lines[1..], parse);
      match ParseLine(lines[0], parse)
      case None =>
        assert Frames(lines, parse) == Frames(lines[1..], parse);
      case Some(e) =>
        assert Frames(lines, parse) == [e] + Frames(lines[1..], parse);
    }
  }

  /** No frame but the last is a done frame: the shape of a stream that ends
      normally with `done`, or without one. */
  predicate DoneOnlyLast(frames: seq<WireEvent>)
  {
    forall k :: 0 <= k < |frames| - 1 ==> frames[k] != Done
  }

  lemma DoneOnlyLastSplit(frames1: seq<WireEvent>, frames2: seq<WireEvent>)
    requires DoneOnlyLast(frames1 + frames2)
    ensures DoneOnlyLast(frames2)
    ensures Done in frames1 ==> frames2 == []
  {
    forall k | 0 <= k < |frames2| - 1
      ensures frames2[k] != Done
    {
      assert frames2[k] == (frames1 + frames2)[|frames1| + k];
    }
    if Done in frames1 {
      var k :| 0 <= k < |frames1| && frames1[k] == Done;
      assert (frames1 + frames2)[k] == Done;
    }
  }

  /** The reads, each decoded text delivered whole. */
  function AsReads(texts: seq<string>): (chunks: seq<Read>)
    ensures |chunks| == |texts|
    ensures forall k :: 0 <= k < |texts| ==> chunks[k] == Bytes(texts[k])
  {
    if texts == [] then [] else [Bytes(texts[0])] + AsReads(texts[1..])
  }

  /** The read loop's events once the stream is over, from the outcome of
      handling all of its lines together. */
  function Finish(messageId: string, o: LinesOutcome): Run<AguiEvent>
  {
    if o.exit == Returned then Run(o.events, None) else Run(o.events + [TextMessageEnd(messageId)], None)
  }

  /** When a done frame, if any, is the last frame of the stream, the read
      loop behaves as if all lines of the stream had arrived in one read:
      `break` then skips no frame that a later read would have yielded. */
  lemma {:induction false} AguiReadsDoneLast(messageId: string, buffer: string, texts: seq<string>, parse: Parser)
    requires DoneOnlyLast(Frames(DecodeFrom(buffer, texts).lines, parse))
    ensures AguiReads(messageId, buffer, AsReads(texts), parse)
         == Finish(messageId, AguiLines(messageId, DecodeFrom(buffer, texts).lines, parse))
    decreases |texts|
  {
    var chunks := AsReads(texts);
    if texts == [] {
      assert DecodeFrom(buffer, texts).lines == [];
    } else {
      assert chunks[1..] == AsReads(texts[1..]);
      var fed := Feed(buffer, texts[0]);
      var after := DecodeFrom(fed.rest, texts[1..]);
      assert DecodeFrom(buffer, texts).lines == fed.lines + after.lines;
      FramesAppend(fed.lines, after.lines, parse);
      DoneOnlyLastSplit(Frames(fed.lines, parse), Frames(after.lines, parse));
      AguiLinesAppend(messageId, fed.lines, after.lines, parse);
      AguiReadsDoneLast(messageId, fed.rest, texts[1..], parse);
      var o1 := AguiLines(messageId, fed.lines, parse);
      var o2 := AguiLines(messageId, after.lines, parse);
      assert AguiReads(messageId, buffer, chunks, parse) == AfterLines(o1, Finish(messageId, o2));
      if o1.exit == Broke {
        BrokeMeansDone(messageId, fed.lines, parse);
        AguiLinesMapsFrames(messageId, after.lines, parse);
      }
      FinishAfterLines(messageId, o1, o2);
    }
  }

  /** One read's outcome followed by the rest of the stream, handled whole. */
  lemma FinishAfterLines(messageId: string, o1: LinesOutcome, o2: LinesOutcome)
    requires o1.exit == Broke ==> o2 == LinesOutcome([], Exhausted)
    ensures AfterLines(o1, Finish(messageId, o2))
         == Finish(messageId, if o1.exit == Exhausted then LinesOutcome(o1.events + o2.events, o2.exit) else o1)
  {
    if o1.exit == Exhausted {
      assert o1.events + (o2.events + [TextMessageEnd(messageId)]) == (o1.events + o2.events) + [TextMessageEnd(messageId)];
    } else if o1.exit == Broke {
      assert o1.events + [] == o1.events;
    }
  }

  /** `streamChatAGUI` yields the same events however the transport splits
      the stream into successful reads, as long as no frame follows a done
      frame. */
  lemma AguiIgnoresFragmentation(messageId: string, status: nat, texts1: seq<string>, texts2: seq<string>, parse: Parser)
    requires IsOk(status)
    requires Concat(texts1) == Concat(texts2)
    requires DoneOnlyLast(Frames(Decode(texts1).lines, parse))
    ensures AguiSession(messageId, Received(status, Some(AsReads(texts1))), parse)
         == AguiSession(messageId, Received(status, Some(AsReads(texts2))), parse)
  {
    DecodeIgnoresFragmentation(texts1, texts2);
    AguiReadsDoneLast(messageId, "", texts1, parse);
    AguiReadsDoneLast(messageId, "", texts2, parse);
  }

  // ---------------------------------------------------------------------
  // Concrete streams

  /** `break` on a done frame leaves only the lines of its own read: a chunk
      after it in the same read is dropped, the same chunk in a later read is
      still yielded, and END comes once, after the read loop. */
  lemma DoneSkipsOnlyItsOwnRead(messageId: string, parse: Parser)
    requires parse("D") == Some(Done)
    requires parse("C") == Some(Chunk(Some("x")))
    ensures AguiSession(messageId, Received(200, Some([Bytes("data: D\ndata: C\n")])), parse).events
         == [TextMessageStart(messageId), TextMessageEnd(messageId)]
    ensures AguiSession(messageId, Received(200, Some([Bytes("data: D\n"), Bytes("data: C\n")])), parse).events
         == [TextMessageStart(messageId), TextMessageContent(messageId, "x"), TextMessageEnd(messageId)]
  {
    var d, c := "data: D", "data: C";
    assert DataPayload(d) == Some("D") by { DataPayloadOfPrefixed("D"); assert d == DataPrefix + "D"; }
    assert DataPayload(c) == Some("C") by { DataPayloadOfPrefixed("C"); assert c == DataPrefix + "C"; }
    SplitWithoutNewline("");
    SplitAtNewline(c, "");
    SplitAtNewline(d, c + "\n" + "");
    SplitAtNewline(d, "");
    assert "" + "data: D\ndata: C\n" == d + "\n" + (c + "\n" + "");
    assert Split("" + "data: D\ndata: C\n") == [d, c, ""];
    assert AguiLines(messageId, [d, c], parse) == LinesOutcome([], Broke);
    assert "" + "data: D\n" == d + "\n" + "";
    assert "" + "data: C\n" == c + "\n" + "";
    assert Split("" + "data: D\n") == [d, ""];
    assert Split("" + "data: C\n") == [c, ""];
    assert AguiLines(messageId, [c], parse) == LinesOutcome([TextMessageContent(messageId, "x")], Exhausted);
    assert AguiLines(messageId, [d], parse) == LinesOutcome([], Broke);
  }

  const HelloHead: string := "data: {\"type\":\"chunk\",\"content\":\"He"
  const HelloTail: string := "llo\"}\n"
  const HelloLine: string := DataPrefix + HelloPayload
  const DoneLine: string := DataPrefix + DonePayload

  /** The first read holds no complete line: it all stays in the buffer. */
  lemma HelloHeadIsBuffered()
    ensures Feed("", HelloHead) == Fed([], HelloHead)
  {
    assert NoNewline(HelloHead);
    assert "" + HelloHead == HelloHead;
    SplitWithoutNewline(HelloHead);
  }

  lemma HelloReadsJoin()
    ensures HelloHead + HelloTail == HelloLine + "\n" + ""
  {
  }

  lemma HelloLineIsOneLine()
    ensures NoNewline(HelloLine)
  {
  }

  /** The second read completes the chunk line. */
  lemma HelloTailCompletesLine()
    ensures Feed(HelloHead, HelloTail) == Fed([HelloLine], "")
  {
    HelloLineIsOneLine();
    HelloReadsJoin();
    SplitWithoutNewline("");
    SplitAtNewline(HelloLine, "");
  }

  /** The third read is one complete done line. */
  lemma DoneReadIsOneLine()
    ensures Feed("", DoneLine + "\n") == Fed([DoneLine], "")
  {
    assert NoNewline(DoneLine);
    SplitWithoutNewline("");
    SplitAtNewline(DoneLine, "");
    assert "" + (DoneLine + "\n") == DoneLine + "\n" + "";
  }

  const HelloPayload: string := "{\"type\":\"chunk\",\"content\":\"Hello\"}"
  const DonePayload: string := "{\"type\":\"done\"}"

  lemma ScenarioPayloads()
    ensures DataPayload(HelloLine) == Some(HelloPayload)
    ensures DataPayload(DoneLine) == Some(DonePayload)
  {
    DataPayloadOfPrefixed(HelloPayload);
    DataPayloadOfPrefixed(DonePayload);
  }

  /** The read holding the done line ends the loop's lines; END follows. */
  lemma DoneReadEnds(messageId: string, parse: Parser)
    requires parse(DonePayload) == Some(Done)
    ensures AguiReads(messageId, "", [Bytes(DoneLine + "\n")], parse) == Run([TextMessageEnd(messageId)], None)
  {
    ScenarioPayloads();
    DoneReadIsOneLine();
    assert [Bytes(DoneLine + "\n")][1..] == [];
    assert AguiLines(messageId, [DoneLine], parse) == LinesOutcome([], Broke);
    assert [] + [TextMessageEnd(messageId)] == [TextMessageEnd(messageId)];
  }

  /** The read completing the chunk line yields its content. */
  lemma HelloTailYields(messageId: string, parse: Parser)
    requires parse(HelloPayload) == Some(Chunk(Some("Hello")))
    requires parse(DonePayload) == Some(Done)
    ensures AguiReads(messageId, HelloHead, [Bytes(HelloTail), Bytes(DoneLine + "\n")], parse)
         == Run([TextMessageContent(messageId, "Hello"), TextMessageEnd(messageId)], None)
  {
    ScenarioPayloads();
    HelloTailCompletesLine();
    DoneReadEnds(messageId, parse);
    assert [Bytes(HelloTail), Bytes(DoneLine + "\n")][1..] == [Bytes(DoneLine + "\n")];
    assert AguiLines(messageId, [HelloLine], parse) == LinesOutcome([TextMessageContent(messageId, "Hello")], Exhausted);
  }

  /** A chunk split across two reads is yielded once, whole, and the done
      frame of a third read is followed by END. */
  lemma ChunkAcrossReads(messageId: string, parse: Parser)
    requires parse(HelloPayload) == Some(Chunk(Some("Hello")))
    requires parse(DonePayload) == Some(Done)
    ensures AguiSession(messageId, Received(200, Some([Bytes(HelloHead), Bytes(HelloTail), Bytes(DoneLine + "\n")])), parse)
         == Run([TextMessageStart(messageId), TextMessageContent(messageId, "Hello"), TextMessageEnd(messageId)], None)
  {
    var chunks := [Bytes(HelloHead), Bytes(HelloTail), Bytes(DoneLine + "\n")];
    HelloHeadIsBuffered();
    HelloTailYields(messageId, parse);
    assert chunks[1..] == [Bytes(HelloTail), Bytes(DoneLine + "\n")];
  }

  const LineA: string := DataPrefix + "A"
  const LineB: string := DataPrefix + "B"
  const LineD: string := DataPrefix + "D"
  /** One read holding two chunk lines and a done line. */
  const Batch: string := LineA + "\n" + (LineB + "\n" + (LineD + "\n" + ""))

  lemma BatchIsThreeLines()
    ensures Feed("", Batch) == Fed([LineA, LineB, LineD], "")
  {
    assert NoNewline(LineA) && NoNewline(LineB) && NoNewline(LineD);
    SplitWithoutNewline("");
    SplitAtNewline(LineD, "");
    SplitAtNewline(LineB, LineD + "\n" + "");
    SplitAtNewline(LineA, LineB + "\n" + (LineD + "\n" + ""));
    assert "" + Batch == Batch;
  }

  lemma BatchLines(messageId: string, parse: Parser)
    requires parse("A") == Some(Chunk(Some("Hel")))
    requires parse("B") == Some(Chunk(Some("lo")))
    requires parse("D") == Some(Done)
    ensures AguiLines(messageId, [LineA, LineB, LineD], parse)
         == LinesOutcome([TextMessageContent(messageId, "Hel"), TextMessageContent(messageId, "lo")], Broke)
  {
    DataPayloadOfPrefixed("A");
    DataPayloadOfPrefixed("B");
    DataPayloadOfPrefixed("D");
    assert [LineA, LineB, LineD][1..] == [LineB, LineD] && [LineB, LineD][1..] == [LineD];
    assert AguiLines(messageId, [LineD], parse) == LinesOutcome([], Broke);
  }

  /** Two chunks in one read are yielded as two deltas, in arrival order,
      and the done line after them leads to END. */
  lemma DeltasKeepOrder(messageId: string, parse: Parser)
    requires parse("A") == Some(Chunk(Some("Hel")))
    requires parse("B") == Some(Chunk(Some("lo")))
    requires parse("D") == Some(Done)
    ensures AguiSession(messageId, Received(200, Some([Bytes(Batch)])), parse)
         == Run([TextMessageStart(messageId), TextMessageContent(messageId, "Hel"),
                 TextMessageContent(messageId, "lo"), TextMessageEnd(messageId)], None)
  {
    BatchIsThreeLines();
    BatchLines(messageId, parse);
    assert [Bytes(Batch)][1..] == [];
    var body := [TextMessageContent(messageId, "Hel"), TextMessageContent(messageId, "lo")];
    assert AguiReads(messageId, "", [Bytes(Batch)], parse) == Run(body + [TextMessageEnd(messageId)], None);
  }

  /** A 500 response yields START and the HTTP error, and throws it. */
  lemma ServerErrorScenario(messageId: string, body: Option<seq<Read>>, parse: Parser)
    ensures AguiSession(messageId, Received(500, body), parse)
         == Run([TextMessageStart(messageId), Error("HTTP error! status: 500")],
                Some(ErrorObject("HTTP error! status: 500")))
  {
    assert NatToString(5) == "5";
    assert NatToString(50) == "50";
    assert NatToString(500) == "500";
    assert HttpErrorMessage(500) == "HTTP error! status: 500";
  }

  // ---------------------------------------------------------------------
  // streamChat (legacy)

  /** The frames up to and including the first done or error frame. */
  function UpToTerminal(frames: seq<WireEvent>): seq<WireEvent>
  {
    if frames == [] then []
    else if StopsLegacy(frames[0]) then [frames[0]]
    else [frames[0]] + UpToTerminal(frames[1..])
  }

  predicate HasTerminal(frames: seq<WireEvent>)
  {
    exists e :: e in frames && StopsLegacy(e)
  }

  /** One read's lines yield their frames verbatim up to the first done or
      error frame, and return exactly when there is one. */
  lemma {:induction false} LegacyLinesUpToTerminal(lines: seq<string>, parse: Parser)
    ensures LegacyLines(lines, parse) == FramesOutcome(UpToTerminal(Frames(lines, parse)), HasTerminal(Frames(lines, parse)))
  {
    if lines != [] {
      LegacyLinesUpToTerminal(lines[1..], parse);
      var frames := Frames(lines, parse);
      var tail := Frames(lines[1..], parse);
      match ParseLine(lines[0], parse)
      case None =>
        assert frames == tail;
      case Some(e) =>
        assert frames == [e] + tail;
        assert frames[1..] == tail;
        assert e in frames;
        assert forall x :: x in frames ==> x == e || x in tail;
        assert forall x :: x in tail ==> x in frames;
    }
  }

  lemma {:induction false} FramesAppend(lines1: seq<string>, lines2: seq<string>, parse: Parser)
    ensures Frames(lines1 + lines2, parse) == Frames(lines1, parse) + Frames(lines2, parse)
  {
    if lines1 == [] {
      assert lines1 + lines2 == lines2;
    } else {
      assert (lines1 + lines2)[1..] == lines1[1..] + lines2;
      FramesAppend(lines1[1..], lines2, parse);
    }
  }

  lemma {:induction false} UpToTerminalAppend(frames1: seq<WireEvent>, frames2: seq<WireEvent>)
    ensures UpToTerminal(frames1 + frames2) ==
      if HasTerminal(frames1) then UpToTerminal(frames1) else frames1 + UpToTerminal(frames2)
  {
    if frames1 == [] {
      assert frames1 + frames2 == frames2;
    } else {
      var whole := frames1 + frames2;
      assert whole[0] == frames1[0];
      assert whole[1..] == frames1[1..] + frames2;
      HasTerminalCons(frames1);
      if !StopsLegacy(frames1[0]) {
        UpToTerminalAppend(frames1[1..], frames2);
        assert UpToTerminal(whole) == [frames1[0]] + UpToTerminal(frames1[1..] + frames2);
        if !HasTerminal(frames1[1..]) {
          assert [frames1[0]] + (frames1[1..] + UpToTerminal(frames2)) == frames1 + UpToTerminal(frames2);
        }
      }
    }
  }

  lemma HasTerminalCons(frames: seq<WireEvent>)
    requires frames != []
    ensures HasTerminal(frames) <==> StopsLegacy(frames[0]) || HasTerminal(frames[1..])
  {
    assert frames[0] in frames;
    assert forall x :: x in frames ==> x == frames[0] || x in frames[1..];
    assert forall x :: x in frames[1..] ==> x in frames;
  }

  /** Without read failures, `streamChat` yields the frames of the whole
      stream up to and including the first done or error frame. */
  lemma {:induction false} LegacyReadsWhole(buffer: string, texts: seq<string>, parse: Parser)
    ensures LegacyReads(buffer, AsReads(texts), parse)
         == Run(UpToTerminal(Frames(DecodeFrom(buffer, texts).lines, parse)), None)
    decreases |texts|
  {
    if texts != [] {
      var chunks := AsReads(texts);
      assert chunks[1..] == AsReads(texts[1..]);
      var fed := Feed(buffer, texts[0]);
      var after := DecodeFrom(fed.rest, texts[1..]);
      assert DecodeFrom(buffer, texts).lines == fed.lines + after.lines;
      LegacyLinesUpToTerminal(fed.lines, parse);
      LegacyReadsWhole(fed.rest, texts[1..], parse);
      FramesAppend(fed.lines, after.lines, parse);
      UpToTerminalAppend(Frames(fed.lines, parse), Frames(after.lines, parse));
      if !HasTerminal(Frames(fed.lines, parse)) {
        UpToTerminalWithoutTerminal(Frames(fed.lines, parse));
      }
    }
  }

  /** `streamChat` yields the same frames however the transport splits the
      stream into reads. */
  lemma LegacyIgnoresFragmentation(status: nat, texts1: seq<string>, texts2: seq<string>, parse: Parser)
    requires IsOk(status)
    requires Concat(texts1) == Concat(texts2)
    ensures LegacySession(Received(status, Some(AsReads(texts1))), parse)
         == LegacySession(Received(status, Some(AsReads(texts2))), parse)
  {
    DecodeIgnoresFragmentation(texts1, texts2);
    LegacyReadsWhole("", texts1, parse);
    LegacyReadsWhole("", texts2, parse);
  }

  /** No frame but the last is a done or error frame. */
  predicate TerminalOnlyLast(frames: seq<WireEvent>)
  {
    forall k :: 0 <= k < |frames| - 1 ==> !StopsLegacy(frames[k])
  }

  /** Whatever the reads, `streamChat` yields no frame after a done or error frame. */
  lemma {:induction false} LegacyStopsAtTerminal(buffer: string, chunks: seq<Read>, parse: Parser)
    ensures TerminalOnlyLast(LegacyReads(buffer, chunks, parse).events)
    decreases |chunks|
  {
    if chunks != [] && chunks[0].Bytes? {
      var fed := Feed(buffer, chunks[0].text);
      var o := LegacyLines(fed.lines, parse);
      LegacyStopsAtTerminal(fed.rest, chunks[1..], parse);
      LegacyLinesUpToTerminal(fed.lines, parse);
      UpToTerminalShape(Frames(fed.lines, parse));
      var next := LegacyReads(fed.rest, chunks[1..], parse);
      if !o.returned {
        var evs := o.frames + next.events;
        forall k | 0 <= k < |evs| - 1
          ensures !StopsLegacy(evs[k])
        {
          if k < |o.frames| {
            assert !HasTerminal(Frames(fed.lines, parse));
            assert o.frames == UpToTerminal(Frames(fed.lines, parse));
            assert evs[k] == o.frames[k];
          } else {
            assert evs[k] == next.events[k - |o.frames|];
            assert k - |o.frames| < |next.events| - 1;
            assert TerminalOnlyLast(next.events);
          }
        }
      }
    }
  }

  /** The CONTENT events of some frames: one per chunk with non-empty
      content, carrying that content, in order; other frames give none. */
  function ContentEvents(messageId: string, frames: seq<WireEvent>): seq<AguiEvent>
  {
    if frames == [] then []
    else
      (if frames[0].Chunk? && frames[0].content.Some? && frames[0].content.value != ""
       then [TextMessageContent(messageId, frames[0].content.value)] else [])
      + ContentEvents(messageId, frames[1..])
  }

  /** The mapper over one read's frames, stated through the legacy cut:
      it yields the CONTENT events of the frames up to the first done or
      error frame, then ERROR if that frame is an error; it breaks on done,
      returns on error, and runs out of frames when there is neither. */
  lemma {:induction false} MapFramesUpToTerminal(messageId: string, frames: seq<WireEvent>)
    ensures var u := UpToTerminal(frames);
      var o := MapFrames(messageId, frames);
      (o.exit == Exhausted <==> !HasTerminal(frames)) &&
      (o.exit == Broke <==> |u| >= 1 && Last(u).Done?) &&
      (o.exit == Returned <==> |u| >= 1 && Last(u).WireError?) &&
      o.events == ContentEvents(messageId, u) +
        (if |u| >= 1 && Last(u).WireError? then [Error(OrUnknown(Last(u).error))] else [])
  {
    if frames != [] {
      var f := frames[0];
      var u := UpToTerminal(frames);
      var u1 := UpToTerminal(frames[1..]);
      assert f in frames;
      assert forall x :: x in frames ==> x == f || x in frames[1..];
      assert forall x :: x in frames[1..] ==> x in frames;
      if StopsLegacy(f) {
        assert u == [f];
        assert ContentEvents(messageId, u) == [];
      } else {
        MapFramesUpToTerminal(messageId, frames[1..]);
        UpToTerminalShape(frames[1..]);
        assert u == [f] + u1;
        assert u[1..] == u1;
        if u1 != [] {
          assert Last(u) == Last(u1);
        }
        var head := if f.Chunk? && f.content.Some? && f.content.value != ""
          then [TextMessageContent(messageId, f.content.value)] else [];
        assert ContentEvents(messageId, u) == head + ContentEvents(messageId, u1);
        var tail := if |u1| >= 1 && Last(u1).WireError? then [Error(OrUnknown(Last(u1).error))] else [];
        assert head + (ContentEvents(messageId, u1) + tail) == (head + ContentEvents(messageId, u1)) + tail;
      }
    }
  }

  lemma {:induction false} UpToTerminalWithoutTerminal(frames: seq<WireEvent>)
    requires !HasTerminal(frames)
    ensures UpToTerminal(frames) == frames
  {
    if frames != [] {
      assert frames[0] in frames;
      assert forall x :: x in frames[1..] ==> x in frames;
      UpToTerminalWithoutTerminal(frames[1..]);
    }
  }

  /** Only the last frame kept can be a done or error frame, and it is one
      exactly when the frames hold one. */
  lemma {:induction false} UpToTerminalShape(frames: seq<WireEvent>)
    ensures var u := UpToTerminal(frames);
      (forall k :: 0 <= k < |u| - 1 ==> !StopsLegacy(u[k])) &&
      (!HasTerminal(frames) ==> forall k :: 0 <= k < |u| ==> !StopsLegacy(u[k])) &&
      (HasTerminal(frames) <==> |u| >= 1 && StopsLegacy(Last(u)))
  {
    if frames != [] {
      UpToTerminalShape(frames[1..]);
      assert frames[0] in frames;
      assert forall x :: x in frames ==> x == frames[0] || x in frames[1..];
      assert forall x :: x in frames[1..] ==> x in frames;
      if !StopsLegacy(frames[0]) {
        var u := [frames[0]] + UpToTerminal(frames[1..]);
        assert forall k :: 1 <= k < |u| ==> u[k] == UpToTerminal(frames[1..])[k - 1];
      }
    }
  }
}
