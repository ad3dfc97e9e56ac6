# AG-UI streaming client, modelled in Dafny

This project models the client-side streaming engine of the chat front end
(`frontend/src/lib/agui.ts`). It also models the text-accumulating
subscriber of the agent bridge (`frontend/src/lib/bedrock-agent.ts`).

- **`SseLines`** — the server-sent-events line decoder. Each read is
  appended to a buffer. The buffer is split on `'\n'` with JavaScript
  `split` semantics, and the last piece is kept as the new buffer. A line
  is passed on only if it starts with `data: `. An unterminated tail is
  dropped when the stream ends.
- **`Agui`** — `streamChatAGUI` and the legacy `streamChat`.
  - Both are imperative methods: the `while (true)` read loop, with its
    inner `for` loop over lines factored into its own method.
  - Each method is proved equal to a specification function
    (`AguiSession`, `LegacySession`).
  - The input is the message id, the outcome of `fetch` and the list of
    reads. The output is the yielded events plus what the generator throws.
  - Two behaviours of the code are kept exactly as written:
    - a `done` frame leaves only the lines of its own read;
    - a transport failure yields ERROR and is then rethrown.
- **`AguiProperties`** — lemmas about those specification functions:
  - framing: START first, then content carrying the same id, then exactly
    one END or ERROR;
  - the decoder-to-mapper decomposition;
  - fragmentation invariance, for an ok status and reads that all
    succeed: always for `streamChat`, and for `streamChatAGUI` when no
    frame follows a `done` frame;
  - concrete scenarios.
- **`WebSocketListeners`** — the listener registry of `AGUIWebSocketClient`.
  It is a class holding a map from event name to callbacks, identified by
  opaque ids.
- **`BedrockSubscriber`** — `createStreamSubscriber`. It is modelled as a
  class whose fields are the closure variables `currentText` and
  `currentMessageId`, with one method per callback. The calls made to the
  caller's callbacks are recorded in a `notifications` field.
- **`JsStrings`** and **`Wrappers`** — `Option`, string concatenation,
  `x || 'Unknown error'`, and decimal rendering of the status code.

`JSON.parse` is the parameter `parse: string -> Option<WireEvent>`, where
`None` means the parse threw. `Date.now()` is replaced by the `messageId`
parameter. Each read is given as already-decoded text.

## Model

| member | source | states |
|---|---|---|
| SseLines.Split | frontend/src/lib/agui.ts:103 | `split('\n')` always yields at least one piece |
| SseLines.SplitRejoins | frontend/src/lib/agui.ts:103 | no piece of `split('\n')` contains a newline, and the pieces rejoined with `'\n'` give back the input |
| SseLines.FeedRejoins | frontend/src/lib/agui.ts:102-104 | after one read, the complete lines rejoined with `'\n'`, followed by the new buffer, equal the old buffer followed by the read; neither the lines nor the buffer contain a newline |
| SseLines.DecodeFromRejoins | frontend/src/lib/agui.ts:95-104 | over any number of reads, the lines handed on, rejoined, followed by the final buffer, equal the initial buffer followed by the concatenation of all reads |
| SseLines.DecodeFromSplitsLines | frontend/src/lib/agui.ts:102-104 | after every read, no line handed on and not the buffer contains a newline |
| SseLines.TerminatedUnique | frontend/src/lib/agui.ts:103-104 | newline-free lines plus a newline-free rest are determined by their rejoined text |
| SseLines.SplitOfCut | frontend/src/lib/agui.ts:103 | `split('\n')` of a rejoined text gives back the lines and the rest |
| SseLines.DecodeIsSplitOfConcat | frontend/src/lib/agui.ts:95-104 | the lines and buffer after all reads are those of one split of the whole concatenated input |
| SseLines.DecodeIgnoresFragmentation | frontend/src/lib/agui.ts:95-104 | two read sequences with the same concatenation give the same lines and the same buffer |
| SseLines.Feed | frontend/src/lib/agui.ts:102-104 | one read: the complete lines and the new buffer; given meaning by FeedRejoins, which shows that they rejoin to the old buffer plus the read, with no newline in any of them |
| SseLines.DecodeFrom | frontend/src/lib/agui.ts:95-104 | the read loop's line buffering over many reads; given meaning by DecodeFromRejoins, DecodeFromSplitsLines and DecodeIsSplitOfConcat |
| SseLines.Decode | frontend/src/lib/agui.ts:92-104 | the read loop's line buffering started from `let buffer = ''`; DecodeIsSplitOfConcat shows it is one split of the concatenated input, and DecodeIgnoresFragmentation that the cut into reads does not matter |
| SseLines.DataPayload | frontend/src/lib/agui.ts:107-108 | a payload exists exactly when the line starts with `data: `, and it is the line with that 6-character prefix removed |
| SseLines.DataPayloadOfPrefixed | frontend/src/lib/agui.ts:107-108 | the payload of `data: ` followed by p is p |
| JsStrings.OrUnknown | frontend/src/lib/agui.ts:122 | `error \|\| 'Unknown error'`: the given message when it is non-empty, otherwise 'Unknown error'; never empty |
| JsStrings.NatToString | frontend/src/lib/agui.ts:83 | the status renders as digits only, with no leading zero |
| JsStrings.NatToStringValue | frontend/src/lib/agui.ts:83 | the digits rendered for the status denote the status in decimal |
| JsStrings.NatToStringInjective | frontend/src/lib/agui.ts:83 | distinct statuses give distinct renderings, so the HTTP error message names the status |
| JsStrings.ConcatAppend | frontend/src/lib/bedrock-agent.ts:102 | concatenating two runs of deltas is concatenating their texts |
| Agui.IsOk | frontend/src/lib/agui.ts:82 | `response.ok`: a status from 200 to 299; AguiSession's contract and ServerErrorScenario give the non-ok outcome |
| Agui.HttpErrorMessage | frontend/src/lib/agui.ts:83 | the template literal `HTTP error! status: ${response.status}` (also agui.ts:166); NatToStringValue shows the digits denote the status, and ServerErrorScenario gives the text for 500 |
| Agui.Raise | frontend/src/lib/agui.ts:144-151 | the `catch`: yield ERROR with the failure's message, then rethrow the same failure; AguiReadsShape and SessionWellFramed show that a thrown failure is always the one the final ERROR reports |
| Agui.AfterLines | frontend/src/lib/agui.ts:119-124 | after one read's lines, `return` ends the run with the events so far, and otherwise the read loop goes on; AguiReadsShape and SessionWellFramed show nothing follows an ERROR from the wire |
| Agui.FailureMessage | frontend/src/lib/agui.ts:148 | the message an ERROR event reports for a thrown value: an `Error`'s message, otherwise 'Unknown error'; AguiReadsShape and SessionWellFramed tie it to what is rethrown |
| Agui.ParseLine | frontend/src/lib/agui.ts:107-110 | the frame of one line: DataPayload of the line, then `JSON.parse`; AguiLinesMapsFrames shows that lines without it are skipped |
| Agui.FrameAction | frontend/src/lib/agui.ts:112-128 | what the inner loop does with one frame; MapFramesUpToTerminal characterises the result over many frames |
| Agui.AguiLines | frontend/src/lib/agui.ts:106-133 | the inner loop over one read's lines; ForEachLine is proved equal to it, and AguiLinesShape, AguiLinesMapsFrames and MapFramesUpToTerminal give its meaning |
| Agui.AguiReads | frontend/src/lib/agui.ts:95-143 | the read loop, then END; the loop in StreamChatAGUI is proved equal to it, and AguiReadsShape and AguiReadsDoneLast give its meaning |
| Agui.AguiSession | frontend/src/lib/agui.ts:82-84 | a non-ok status yields exactly START and ERROR("HTTP error! status: N"), and rethrows that error |
| Agui.ForEachLine | frontend/src/lib/agui.ts:106-133 | the inner loop yields the events, and ends with the exhausted, break or return outcome, that the line-by-line specification gives |
| Agui.StreamChatAGUI | frontend/src/lib/agui.ts:60-153 | the generator yields exactly the events, and throws exactly the failure, of the specification `AguiSession` |
| Agui.LegacySession | frontend/src/lib/agui.ts:165-167 | a non-ok status yields no frame and throws the HTTP error |
| Agui.LegacyLines | frontend/src/lib/agui.ts:189-203 | the legacy inner loop over one read's lines; ForEachLegacyLine is proved equal to it, and LegacyLinesUpToTerminal gives its meaning |
| Agui.LegacyReads | frontend/src/lib/agui.ts:177-207 | the legacy read loop; the loop in StreamChat is proved equal to it, and LegacyReadsWhole and LegacyStopsAtTerminal give its meaning |
| Agui.StopsLegacy | frontend/src/lib/agui.ts:196 | `event.type === 'done' \|\| event.type === 'error'`; UpToTerminalShape and LegacyStopsAtTerminal show no frame is yielded after one that meets it |
| Agui.ForEachLegacyLine | frontend/src/lib/agui.ts:189-203 | the inner loop yields the frames, and returns or not, as the line-by-line specification gives |
| Agui.StreamChat | frontend/src/lib/agui.ts:156-208 | the legacy generator yields exactly the frames, and throws exactly the failure, of the specification `LegacySession` |
| AguiProperties.AguiLinesShape | frontend/src/lib/agui.ts:106-133 | one read's lines yield only non-empty CONTENT events for the message id; when the loop returns, they end with a single ERROR |
| AguiProperties.AguiReadsShape | frontend/src/lib/agui.ts:95-143 | the read loop yields content events, then exactly one END or ERROR; when something is thrown, that ERROR carries the thrown error's message |
| AguiProperties.SessionWellFramed | frontend/src/lib/agui.ts:60-153 | every run of `streamChatAGUI` is START(id), CONTENT(id, ·)*, then one END(id) or ERROR; a rethrown error is the one the final ERROR reports, and END means nothing was thrown |
| AguiProperties.WellFramedCounts | frontend/src/lib/agui.ts:66-72 | in a framed run, START appears only first, END and ERROR only last, and no delta is empty |
| AguiProperties.AguiLinesMapsFrames | frontend/src/lib/agui.ts:106-131 | handling a read's lines means taking the payloads that parse from its data lines, then mapping those frames; other lines and unparsable payloads are skipped, and later lines are still handled |
| AguiProperties.MapFramesUpToTerminal | frontend/src/lib/agui.ts:112-128 | the mapped events are one CONTENT per non-empty chunk, in order, up to the first done or error frame, then ERROR(`error \|\| 'Unknown error'`) if that frame is an error; the loop breaks exactly on done, returns exactly on error, and otherwise runs out |
| AguiProperties.AguiLinesAppend | frontend/src/lib/agui.ts:106-133 | handling two runs of lines together equals handling them one after the other when the first run is exhausted; when it breaks or returns, the second run is never looked at |
| AguiProperties.BrokeMeansDone | frontend/src/lib/agui.ts:125-127 | the inner loop leaves by `break` only when a done frame was among its frames |
| AguiProperties.AsReads | frontend/src/lib/agui.ts:96-102 | the reads that deliver the given texts, one by one |
| AguiProperties.DoneOnlyLastSplit | frontend/src/lib/agui.ts:125-127 | when no frame follows a done frame in a stream, none does in any suffix, and a part holding a done frame is followed by no frame |
| AguiProperties.AguiReadsDoneLast | frontend/src/lib/agui.ts:95-143 | when no frame follows a done frame, the read loop over successful reads behaves as if every line had arrived in one read; the unterminated tail is dropped |
| AguiProperties.AguiIgnoresFragmentation | frontend/src/lib/agui.ts:95-143 | for an ok status and successful reads, when no frame follows a done frame (a stream ending normally with `done`, or without one), `streamChatAGUI` yields the same events however the stream is cut into reads |
| AguiProperties.DoneSkipsOnlyItsOwnRead | frontend/src/lib/agui.ts:125-127 | `break` on done drops a chunk later in the same read, but a chunk in a later read is still yielded; END comes once, after the read loop |
| AguiProperties.HelloHeadIsBuffered | frontend/src/lib/agui.ts:102-104 | a read without a newline is kept whole in the buffer |
| AguiProperties.HelloTailCompletesLine | frontend/src/lib/agui.ts:102-104 | the next read completes the buffered line |
| AguiProperties.DoneReadIsOneLine | frontend/src/lib/agui.ts:102-104 | a read holding one terminated line gives that line and an empty buffer |
| AguiProperties.ScenarioPayloads | frontend/src/lib/agui.ts:107-108 | the payloads of the scenario's two data lines |
| AguiProperties.DoneReadEnds | frontend/src/lib/agui.ts:125-143 | a read holding only a done frame leads to END |
| AguiProperties.HelloTailYields | frontend/src/lib/agui.ts:112-118 | the chunk completed by the second read is yielded once, whole |
| AguiProperties.ChunkAcrossReads | frontend/src/lib/agui.ts:60-143 | the reads `data: {"type":"chunk","content":"He`, `llo"}\n` and a done line yield exactly START, CONTENT("Hello"), END |
| AguiProperties.BatchIsThreeLines | frontend/src/lib/agui.ts:102-104 | a read of three terminated lines gives those lines and an empty buffer |
| AguiProperties.BatchLines | frontend/src/lib/agui.ts:106-128 | two chunk lines and a done line in one read give two CONTENT events, in order, and then a break |
| AguiProperties.DeltasKeepOrder | frontend/src/lib/agui.ts:60-143 | chunks "Hel" then "lo", then done, in one read yield START, CONTENT("Hel"), CONTENT("lo"), END: the deltas are neither merged nor reordered |
| AguiProperties.ServerErrorScenario | frontend/src/lib/agui.ts:82-84 | a 500 response yields START and ERROR("HTTP error! status: 500"), and throws that error |
| AguiProperties.LegacyLinesUpToTerminal | frontend/src/lib/agui.ts:189-203 | one read's lines yield their frames verbatim, up to and including the first done or error frame, and return exactly when there is one |
| AguiProperties.FramesAppend | frontend/src/lib/agui.ts:189-193 | the frames of two runs of lines together are the frames of each, one after the other |
| AguiProperties.UpToTerminalAppend | frontend/src/lib/agui.ts:196-198 | cutting at the first done or error frame distributes over concatenation |
| AguiProperties.UpToTerminalWithoutTerminal | frontend/src/lib/agui.ts:196-198 | frames without a done or error frame are kept whole |
| AguiProperties.UpToTerminalShape | frontend/src/lib/agui.ts:196-198 | only the last frame kept can be done or error, and it is one exactly when the frames hold one |
| AguiProperties.LegacyReadsWhole | frontend/src/lib/agui.ts:177-207 | without read failures, `streamChat` yields the frames of the whole stream up to and including the first done or error frame |
| AguiProperties.LegacyIgnoresFragmentation | frontend/src/lib/agui.ts:156-208 | `streamChat` yields the same frames however the stream is cut into reads |
| AguiProperties.LegacyStopsAtTerminal | frontend/src/lib/agui.ts:194-198 | whatever the reads, no frame follows a done or error frame |
| WebSocketListeners.Added | frontend/src/lib/agui.ts:260 | `Set.add`: the members are the old ones plus the callback, with no duplicates; adding a member again changes nothing; a new one goes last |
| WebSocketListeners.Removed | frontend/src/lib/agui.ts:264 | `Set.delete`: exactly that callback leaves; no duplicates appear |
| WebSocketListeners.RemovedKeepsOrder | frontend/src/lib/agui.ts:264 | `Set.delete` keeps the remaining callbacks in their insertion order: deleting from two runs of callbacks is deleting from each |
| WebSocketListeners.RemovedSingle | frontend/src/lib/agui.ts:264 | on a single callback, `Set.delete` drops it exactly when it is the one deleted |
| WebSocketListeners.Registered | frontend/src/lib/agui.ts:268 | `listeners.get(event)?.`: the event's callbacks, or none for an unknown event (also agui.ts:264); Emit calls exactly these, and Off leaves an unknown event alone |
| WebSocketListeners.RemovedUndoesAdded | frontend/src/lib/agui.ts:256-265 | `off` of a callback that was not registered before, just added by `on`, restores the event's set; a callback already registered is unchanged by `on` and then removed by `off` |
| WebSocketListeners.RemovedAbsent | frontend/src/lib/agui.ts:264 | deleting a callback that is not registered changes nothing |
| WebSocketListeners.AguiWebSocketClient.constructor | frontend/src/lib/agui.ts:214-216 | a new client has no listeners |
| WebSocketListeners.AguiWebSocketClient.On | frontend/src/lib/agui.ts:256-261 | the event's set is created when missing, and the callback is added to it; every other event is untouched |
| WebSocketListeners.AguiWebSocketClient.Off | frontend/src/lib/agui.ts:263-265 | only that callback leaves only that event's set; an unknown event changes nothing, and an emptied set stays in the map |
| WebSocketListeners.AguiWebSocketClient.Emit | frontend/src/lib/agui.ts:267-269 | exactly the callbacks registered for the event are called, once each, in registration order |
| WebSocketListeners.AguiWebSocketClient.Disconnect | frontend/src/lib/agui.ts:271-275 | the registry is empty afterwards |
| BedrockSubscriber.StreamSubscriber.constructor | frontend/src/lib/bedrock-agent.ts:85-93 | both closure variables start as `''` |
| BedrockSubscriber.StreamSubscriber.OnTextMessageStart | frontend/src/lib/bedrock-agent.ts:96-100 | the id is recorded, the text is reset to `''`, and `onTextStart` receives the id when present |
| BedrockSubscriber.StreamSubscriber.OnTextMessageContent | frontend/src/lib/bedrock-agent.ts:101-104 | the delta is appended to the text whatever message it names; `onTextDelta` receives the delta unchanged when present |
| BedrockSubscriber.StreamSubscriber.OnTextMessageEnd | frontend/src/lib/bedrock-agent.ts:105-109 | `onTextEnd` receives the event's id and the concatenation of every delta since the text was last reset; afterwards both closure variables are `''` |
| BedrockSubscriber.StreamSubscriber.OnError | frontend/src/lib/bedrock-agent.ts:110-113 | `onError` receives an error whose message is `event.error`, or 'Unknown error' when that is missing or empty; the text is unchanged |
| BedrockSubscriber.StreamSubscriber.OnComplete | frontend/src/lib/bedrock-agent.ts:114-116 | `onComplete` is called when present, and nothing else changes |

A `done` frame runs `break` at `agui.ts:127`, which leaves only the inner
`for` loop. Later reads are still handled, and END follows after the read
loop. The events of `streamChatAGUI` therefore depend on how the stream is
cut into reads whenever a `done` frame is followed by a chunk with
non-empty content or by an error frame. Lines without the data prefix,
unparsable payloads, unrecognised frames and empty chunks after a `done`
yield nothing under any cut. The model
follows the code; `DoneSkipsOnlyItsOwnRead` shows one stream cut two ways
that yields different events. Fragmentation invariance is proved for an
ok status and reads that all succeed. For `streamChat` there is no further
condition. For `streamChatAGUI` it additionally needs that no frame follows
a `done` frame; a stream that ends normally with `done`, or without one,
meets that condition.

## Left out

- `fetch`, the request body and headers, `getReader()` and `releaseLock()` are network I/O. `fetch`'s outcome is the `Response` input; a missing body is `body == None`.
- `TextDecoder` is not modelled: each read is given as already-decoded text, so UTF-8 sequences split across reads are not represented.
- `JSON.parse` and the cast to the frame type are an uninterpreted `parse` parameter. Frames of another `type` are `Unrecognised`.
- `Date.now()` for the message id is the `messageId` parameter.
- Generator suspension, and a consumer that stops early or throws into the generator, are not modelled: each run is the complete list of yielded events.
- The `started` flag (agui.ts:62, 72, 145) is not a variable. START is yielded before `fetch` is called, so every failure the model can raise reaches the catch with the flag set.
- The `role: 'assistant'` field of START is constant and is not modelled.
- WebSocket `connect`, `send`, `onopen`, `onerror`, `onmessage`, `onclose` and the `socket` field (agui.ts:213, 218-254, 272-273) are socket I/O. When `disconnect` starts the close, the `close` emit from `onclose` fires after the registry was cleared, so it reaches no listener. A close from the server or a lost connection runs `onclose` with the registry intact and calls the 'close' listeners; that path is socket I/O and is not modelled.
- Callbacks are taken to return normally. A callback that throws would end `forEach` early in `emit` (agui.ts:268), and the exception would reach `onmessage`'s catch. A throwing `onTextEnd` would skip the resets at bedrock-agent.ts:107-108. Neither case is modelled.
- WebSocketListeners.AguiWebSocketClient.Emit: the data argument passed to each callback is not modelled, nor are callbacks that change the registry while it is being iterated.
- The `BedrockAgent` class (bedrock-agent.ts:26-80) wraps an external HTTP agent, whose code is not part of this model.
- `console.log` and `console.error` diagnostics are not modelled, and neither are the React components.
