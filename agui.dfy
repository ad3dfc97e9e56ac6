/** The HTTP streaming client of the AG-UI chat front end: `streamChatAGUI`,
    which turns the server's event stream into lifecycle events, and the
    legacy `streamChat`, which hands on the server's frames as they are. */
module Agui {
  import opened Wrappers
  import opened JsStrings
  import opened SseLines

  /** A frame sent by the server, as `JSON.parse` of one payload gives it. */
  datatype WireEvent =
    | Chunk(content: Option<string>)
    | Done
    | WireError(error: Option<string>)
    | Unrecognised   // any other `type`, or a value without one

  /** `JSON.parse` followed by the cast: `None` is a payload it rejects. */
  type Parser = string -> Option<WireEvent>

  /** The lifecycle events yielded by `streamChatAGUI`. */
  datatype AguiEvent =
    | TextMessageStart(messageId: string)
    | TextMessageContent(messageId: string, delta: string)
    | TextMessageEnd(messageId: string)
    | Error(error: string)

  /** A thrown value: an `Error` object carries a message, anything else does not. */
  datatype Failure = ErrorObject(message: string) | NonErrorValue

  /** One `reader.read()`: decoded text, or a rejected read. The end of the
      list is the read that reports `done`. */
  datatype Read = Bytes(text: string) | ReadFailed(reason: Failure)

  /** What `fetch` gives back: a rejection, or a status and a body that may be missing. */
  datatype Response = FetchFailed(reason: Failure) | Received(status: nat, body: Option<seq<Read>>)

  /** Everything one generator yields, and what it throws at the end, if anything. */
  datatype Run<E> = Run(events: seq<E>, thrown: Option<Failure>)

  function Prepend<E>(events: seq<E>, r: Run<E>): Run<E>
  {
    Run(events + r.events, r.thrown)
  }

  /** `response.ok`. */
  predicate IsOk(status: nat)
  {
    200 <= status <= 299
  }

  function HttpErrorMessage(status: nat): string
  {
    "HTTP error! status: " + NatToString(status)
  }

  const NoBodyMessage: string := "No response body"

  /** `error instanceof Error ? error.message : 'Unknown error'`. */
  function FailureMessage(f: Failure): string
  {
    match f
    case ErrorObject(message) => message
    case NonErrorValue => UnknownError
  }

  /** The payload of a line, parsed: `None` for a line without the data
      prefix and for a payload that does not parse (both are skipped). */
  function ParseLine(line: string, parse: Parser): Option<WireEvent>
  {
    match DataPayload(line)
    case None => None
    case Some(payload) => parse(payload)
  }

  // ---------------------------------------------------------------------
  // streamChatAGUI

  /** What the inner `for` loop does with one frame. */
  datatype Action = Emit(event: AguiEvent) | Skip | EmitAndReturn(event: AguiEvent) | BreakLines

  function FrameAction(messageId: string, e: WireEvent): Action
  {
    match e
    case Chunk(content) =>
      if content.Some? && content.value != "" then Emit(TextMessageContent(messageId, content.value)) else Skip
    case WireError(error) => EmitAndReturn(Error(OrUnknown(error)))
    case Done => BreakLines
    case Unrecognised => Skip
  }

  /** How the inner `for` loop over the lines of one read ended. */
  datatype LoopExit = Exhausted | Broke | Returned

  datatype LinesOutcome = LinesOutcome(events: seq<AguiEvent>, exit: LoopExit)

  predicate IsContent(messageId: string, e: AguiEvent)
  {
    e.TextMessageContent? && e.messageId == messageId && e.delta != ""
  }

  predicate AllContent(messageId: string, events: seq<AguiEvent>)
  {
    forall k :: 0 <= k < |events| ==> IsContent(messageId, events[k])
  }

  predicate IsTerminal(messageId: string, e: AguiEvent)
  {
    e == TextMessageEnd(messageId) || e.Error?
  }

  /** Content events, then exactly one END or ERROR. */
  predicate ContentThenTerminal(messageId: string, events: seq<AguiEvent>)
  {
    |events| >= 1 && AllContent(messageId, Init(events)) && IsTerminal(messageId, Last(events))
  }

  /** START, content events carrying the same id, then exactly one END or ERROR. */
  predicate WellFramed(messageId: string, events: seq<AguiEvent>)
  {
    |events| >= 2 && events[0] == TextMessageStart(messageId) && ContentThenTerminal(messageId, events[1..])
  }

  /** The inner `for` loop over the complete lines of one read. */
  function AguiLines(messageId: string, lines: seq<string>, parse: Parser): LinesOutcome
  {
    if lines == [] then LinesOutcome([], Exhausted)
    else
      var rest := AguiLines(messageId, lines[1..], parse);
      match ParseLine(lines[0], parse)
      case None => rest
      case Some(e) =>
        match FrameAction(messageId, e)
        case Emit(event) => LinesOutcome([event] + rest.events, rest.exit)
        case Skip => rest
        case EmitAndReturn(event) => LinesOutcome([event], Returned)
        case BreakLines => LinesOutcome([], Broke)
  }

  /** The rest of the generator once the lines of one read are done:
      `return` ends it, otherwise the read loop goes on with `next`. */
  function AfterLines(o: LinesOutcome, next: Run<AguiEvent>): Run<AguiEvent>
  {
    if o.exit == Returned then Run(o.events, None) else Prepend(o.events, next)
  }

  /** The `catch` at agui.ts:144-151: yield ERROR, then rethrow. */
  function Raise(f: Failure): Run<AguiEvent>
  {
    Run([Error(FailureMessage(f))], Some(f))
  }

  /** The `while (true)` read loop from a given buffer, then END. */
  function AguiReads(messageId: string, buffer: string, chunks: seq<Read>, parse: Parser): Run<AguiEvent>
    decreases |chunks|
  {
    if chunks == [] then Run([TextMessageEnd(messageId)], None)
    else
      match chunks[0]
      case ReadFailed(f) => Raise(f)
      case Bytes(text) =>
        var fed := Feed(buffer, text);
        var o := AguiLines(messageId, fed.lines, parse);
        var next := AguiReads(messageId, fed.rest, chunks[1..], parse);
        AfterLines(o, next)
  }

  /** The whole of `streamChatAGUI`: START first, then the request. */
  function AguiSession(messageId: string, response: Response, parse: Parser): (r: Run<AguiEvent>)
    ensures response.Received? && !IsOk(response.status) ==>
      r == Run([TextMessageStart(messageId), Error(HttpErrorMessage(response.status))],
               Some(ErrorObject(HttpErrorMessage(response.status))))
  {
    Prepend([TextMessageStart(messageId)],
      match response
      case FetchFailed(f) => Raise(f)
      case Received(status, body) =>
        if !IsOk(status) then Raise(ErrorObject(HttpErrorMessage(status)))
        else if body.None? then Raise(ErrorObject(NoBodyMessage))
        else AguiReads(messageId, "", body.value, parse))
  }

  /** The inner `for (const line of lines)` loop of `streamChatAGUI`: the
      events it yields and whether it ran out of lines, hit `break` or `return`. */
  method ForEachLine(messageId: string, lines: seq<string>, parse: Parser)
    returns (events: seq<AguiEvent>, exit: LoopExit)
    ensures LinesOutcome(events, exit) == AguiLines(messageId, lines, parse)
  {
    events := [];
    var j := 0;
    while j < |lines|
      invariant 0 <= j <= |lines|
      invariant var o := AguiLines(messageId, lines[j..], parse);
        LinesOutcome(events + o.events, o.exit) == AguiLines(messageId, lines, parse)
    {
      assert lines[j..][1..] == lines[j + 1..];
      var data := DataPayload(lines[j]);
      if data.Some? {
        var frame := parse(data.value);
        if frame.Some? {
          var e := frame.value;
          if e.Chunk? && e.content.Some? && e.content.value != "" {
            ghost var later := AguiLines(messageId, lines[j + 1..], parse);
            assert events + ([TextMessageContent(messageId, e.content.value)] + later.events)
                == (events + [TextMessageContent(messageId, e.content.value)]) + later.events;
            events := events + [TextMessageContent(messageId, e.content.value)];
          } else if e.WireError? {
            events := events + [Error(OrUnknown(e.error))];
            exit := Returned;
            return;
          } else if e.Done? {
            assert events + [] == events;
            exit := Broke;
            return;
          }
        }
      }
      j := j + 1;
    }
    assert events + [] == events;
    exit := Exhausted;
  }

  /** `streamChatAGUI`, with the messages already sent, the id already drawn
      and every read already decoded. */
  method StreamChatAGUI(messageId: string, response: Response, parse: Parser)
    returns (events: seq<AguiEvent>, thrown: Option<Failure>)
    ensures Run(events, thrown) == AguiSession(messageId, response, parse)
  {
    events := [TextMessageStart(messageId)];
    thrown := None;
    var failure: Option<Failure> := None;
    if response.FetchFailed? {
      failure := Some(response.reason);
    } else if !IsOk(response.status) {
      failure := Some(ErrorObject(HttpErrorMessage(response.status)));
    } else if response.body.None? {
      failure := Some(ErrorObject(NoBodyMessage));
    } else {
      ghost var whole := AguiSession(messageId, response, parse);
      var chunks := response.body.value;
      var buffer := "";
      var i := 0;
      while i < |chunks|
        invariant 0 <= i <= |chunks|
        invariant failure.None?
        invariant Prepend(events, AguiReads(messageId, buffer, chunks[i..], parse)) == whole
      {
        if chunks[i].ReadFailed? {
          failure := Some(chunks[i].reason);
          break;
        }
        assert chunks[i..][1..] == chunks[i + 1..];
        var pieces := Split(buffer + chunks[i].text);
        var lines := pieces[..|pieces| - 1];
        buffer := pieces[|pieces| - 1];
        var lineEvents, exit := ForEachLine(messageId, lines, parse);
        ghost var next := AguiReads(messageId, buffer, chunks[i + 1..], parse);
        assert events + (lineEvents + next.events) == (events + lineEvents) + next.events;
        events := events + lineEvents;
        if exit == Returned {
          return;
        }
        i := i + 1;
      }
    }
    if failure.Some? {
      events := events + [Error(FailureMessage(failure.value))];
      thrown := failure;
    } else {
      events := events + [TextMessageEnd(messageId)];
    }
  }

  // ---------------------------------------------------------------------
  // streamChat (legacy)

  predicate StopsLegacy(e: WireEvent)
  {
    e.Done? || e.WireError?
  }

  /** The frames the inner loop yields, and whether it returned. */
  datatype FramesOutcome = FramesOutcome(frames: seq<WireEvent>, returned: bool)

  function LegacyLines(lines: seq<string>, parse: Parser): FramesOutcome
  {
    if lines == [] then FramesOutcome([], false)
    else
      var rest := LegacyLines(lines[1..], parse);
      match ParseLine(lines[0], parse)
      case None => rest
      case Some(e) =>
        if StopsLegacy(e) then FramesOutcome([e], true)
        else FramesOutcome([e] + rest.frames, rest.returned)
  }

  function LegacyReads(buffer: string, chunks: seq<Read>, parse: Parser): Run<WireEvent>
    decreases |chunks|
  {
    if chunks == [] then Run([], None)
    else
      match chunks[0]
      case ReadFailed(f) => Run([], Some(f))
      case Bytes(text) =>
        var fed := Feed(buffer, text);
        var o := LegacyLines(fed.lines, parse);
        var next := LegacyReads(fed.rest, chunks[1..], parse);
        if o.returned then Run(o.frames, None) else Prepend(o.frames, next)
  }

  /** The whole of `streamChat`: nothing is yielded before the response is known. */
  function LegacySession(response: Response, parse: Parser): (r: Run<WireEvent>)
    ensures response.Received? && !IsOk(response.status) ==>
      r == Run([], Some(ErrorObject(HttpErrorMessage(response.status))))
  {
    match response
    case FetchFailed(f) => Run([], Some(f))
    case Received(status, body) =>
      if !IsOk(status) then Run([], Some(ErrorObject(HttpErrorMessage(status))))
      else if body.None? then Run([], Some(ErrorObject(NoBodyMessage)))
      else LegacyReads("", body.value, parse)
  }

  /** The inner `for (const line of lines)` loop of `streamChat`: the frames
      it yields and whether it returned. */
  method ForEachLegacyLine(lines: seq<string>, parse: Parser)
    returns (frames: seq<WireEvent>, returned: bool)
    ensures FramesOutcome(frames, returned) == LegacyLines(lines, parse)
  {
    frames := [];
    var j := 0;
    while j < |lines|
      invariant 0 <= j <= |lines|
      invariant var o := LegacyLines(lines[j..], parse);
        FramesOutcome(frames + o.frames, o.returned) == LegacyLines(lines, parse)
    {
      assert lines[j..][1..] == lines[j + 1..];
      var data := DataPayload(lines[j]);
      if data.Some? {
        var frame := parse(data.value);
        if frame.Some? {
          ghost var later := LegacyLines(lines[j + 1..], parse);
          assert frames + ([frame.value] + later.frames) == (frames + [frame.value]) + later.frames;
          frames := frames + [frame.value];
          if frame.value.Done? || frame.value.WireError? {
            returned := true;
            return;
          }
        }
      }
      j := j + 1;
    }
    assert frames + [] == frames;
    returned := false;
  }

  /** `streamChat`, with the messages already sent and every read already decoded. */
  method StreamChat(response: Response, parse: Parser)
    returns (frames: seq<WireEvent>, thrown: Option<Failure>)
    ensures Run(frames, thrown) == LegacySession(response, parse)
  {
    frames := [];
    thrown := None;
    if response.FetchFailed? {
      thrown := Some(response.reason);
      return;
    }
    if !IsOk(response.status) {
      thrown := Some(ErrorObject(HttpErrorMessage(response.status)));
      return;
    }
    if response.body.None? {
      thrown := Some(ErrorObject(NoBodyMessage));
      return;
    }
    ghost var whole := LegacySession(response, parse);
    var chunks := response.body.value;
    var buffer := "";
    var i := 0;
    while i < |chunks|
      invariant 0 <= i <= |chunks|
      invariant Prepend(frames, LegacyReads(buffer, chunks[i..], parse)) == whole
    {
      if chunks[i].ReadFailed? {
        assert frames + [] == frames;
        thrown := Some(chunks[i].reason);
        return;
      }
      assert chunks[i..][1..] == chunks[i + 1..];
      var pieces := Split(buffer + chunks[i].text);
      var lines := pieces[..|pieces| - 1];
      buffer := pieces[|pieces| - 1];
      var lineFrames, returned := ForEachLegacyLine(lines, parse);
      ghost var next := LegacyReads(buffer, chunks[i + 1..], parse);
      assert frames + (lineFrames + next.events) == (frames + lineFrames) + next.events;
      frames := frames + lineFrames;
      if returned {
        return;
      }
      i := i + 1;
    }
    assert frames + [] == frames;
  }
}
