/** `createStreamSubscriber`: the callbacks handed to the agent runtime keep
    the text received so far and the current message id in two closure
    variables, and pass what they learn on to the caller's own callbacks. */
module BedrockSubscriber {
  import opened Wrappers
  import opened JsStrings

  /** Which of the caller's optional callbacks are present. */
  datatype Callbacks = Callbacks(
    onTextStart: bool, onTextDelta: bool, onTextEnd: bool, onError: bool, onComplete: bool)

  /** One call made to a caller's callback, with its arguments. */
  datatype Notification =
    | TextStart(messageId: string)
    | TextDelta(delta: string)
    | TextEnd(messageId: string, fullText: string)
    | Failed(message: string)
    | Completed

  /** The subscriber object with its closure state. `notifications` records
      the calls made to the caller's callbacks, in order. */
  class StreamSubscriber {
    const callbacks: Callbacks
    var currentText: string
    var currentMessageId: string
    var notifications: seq<Notification>
    /** The deltas received since the text was last reset. */
    ghost var deltas: seq<string>

    ghost predicate Valid()
      reads this
    {
      currentText == Concat(deltas)
    }

    constructor (callbacks: Callbacks)
      ensures Valid()
      ensures this.callbacks == callbacks
      ensures currentText == "" && currentMessageId == "" && deltas == [] && notifications == []
    {
      this.callbacks := callbacks;
      currentText := "";
      currentMessageId := "";
      notifications := [];
      deltas := [];
    }

    /** `onTextMessageStart`: record the id, reset the text, tell the caller. */
    method OnTextMessageStart(messageId: string)
      requires Valid()
      modifies this
      ensures Valid()
      ensures currentMessageId == messageId && currentText == "" && deltas == []
      ensures notifications == old(notifications) + (if callbacks.onTextStart then [TextStart(messageId)] else [])
    {
      currentMessageId := messageId;
      currentText := "";
      deltas := [];
      if callbacks.onTextStart {
        notifications := notifications + [TextStart(messageId)];
      }
    }

    /** `onTextMessageContent`: append the delta, whatever message it names,
        and forward it unchanged. */
    method OnTextMessageContent(messageId: string, delta: string)
      requires Valid()
      modifies this
      ensures Valid()
      ensures deltas == old(deltas) + [delta]
      ensures currentText == old(currentText) + delta && currentMessageId == old(currentMessageId)
      ensures notifications == old(notifications) + (if callbacks.onTextDelta then [TextDelta(delta)] else [])
    {
      ConcatAppend(deltas, [delta]);
      assert Concat([delta]) == delta + Concat([]);
      currentText := currentText + delta;
      deltas := deltas + [delta];
      if callbacks.onTextDelta {
        notifications := notifications + [TextDelta(delta)];
      }
    }

    /** `onTextMessageEnd`: hand the event's id and the text accumulated since
        the last reset to the caller, then clear both closure variables. */
    method OnTextMessageEnd(messageId: string)
      requires Valid()
      modifies this
      ensures Valid()
      ensures notifications == old(notifications) +
        (if callbacks.onTextEnd then [TextEnd(messageId, Concat(old(deltas)))] else [])
      ensures currentText == "" && currentMessageId == "" && deltas == []
    {
      if callbacks.onTextEnd {
        notifications := notifications + [TextEnd(messageId, currentText)];
      }
      currentText := "";
      currentMessageId := "";
      deltas := [];
    }

    /** `onError`: pass on an error carrying the event's message, or
        'Unknown error'; the accumulated text is left alone. */
    method OnError(error: Option<string>)
      requires Valid()
      modifies this`notifications
      ensures Valid()
      ensures notifications == old(notifications) + (if callbacks.onError then [Failed(OrUnknown(error))] else [])
    {
      if callbacks.onError {
        notifications := notifications + [Failed(OrUnknown(error))];
      }
    }

    /** `onComplete`: tell the caller, if it asked. */
    method OnComplete()
      requires Valid()
      modifies this`notifications
      ensures Valid()
      ensures notifications == old(notifications) + (if callbacks.onComplete then [Completed] else [])
    {
      if callbacks.onComplete {
        notifications := notifications + [Completed];
      }
    }
  }
}
