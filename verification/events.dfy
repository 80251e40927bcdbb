/**
 The agent's input `Event` (core/src/k/agent/core/entities.py): channel
 validation and normalisation on construction, the effective out-channel,
 and the exception guard wrapped around tool functions.
 */
module Events {
  import opened Wrappers
  import opened PyStr
  import opened Channels

  datatype Event = Event(inChannel: string, outChannel: Option<string>, content: string)

  /** What every constructed `Event` satisfies. */
  predicate WellFormed(e: Event)
  {
    && IsChannel(e.inChannel)
    && (e.outChannel.Some? ==> IsChannel(e.outChannel.value) && e.outChannel.value != e.inChannel)
  }

  /**
   Construction: validate `in_channel` (required), validate a non-null
   `out_channel`, then store an out-channel equal to the in-channel as None.
   A missing or invalid field is a validation error, which is a ValueError.
   */
  function MakeEvent(inChannel: Option<string>, outChannel: Option<string>, content: string): (r: Outcome<Event>)
    ensures r.Ok? <==> (inChannel.Some? && Validate(inChannel.value).Ok?
                        && (outChannel.None? || Validate(outChannel.value).Ok?))
    ensures r.Fail? ==> r.exc == ValueError
    ensures r.Ok? ==> WellFormed(r.value) && r.value.content == content
                      && r.value.inChannel == Strip(inChannel.value)
    ensures r.Ok? ==> (r.value.outChannel.None?
                       <==> outChannel.None? || Strip(outChannel.value) == Strip(inChannel.value))
  {
    if inChannel.None? then Fail(ValueError)
    else
      match ValidatePair(inChannel.value, outChannel)
      case Fail(_) => Fail(ValueError)
      case Ok((inC, outC)) => Ok(Event(inC, outC, content))
  }

  /** `Event.effective_out_channel`. */
  function EventEffectiveOut(e: Event): string
  {
    EffectiveOut(e.inChannel, e.outChannel)
  }

  /** The effective out-channel is the supplied out-channel if one was given, else the in-channel. */
  lemma EffectiveOutIsSuppliedOrIn(inChannel: string, outChannel: Option<string>, content: string)
    requires MakeEvent(Some(inChannel), outChannel, content).Ok?
    ensures var e := MakeEvent(Some(inChannel), outChannel, content).value;
      EventEffectiveOut(e) == (if outChannel.Some? then Strip(outChannel.value) else Strip(inChannel))
  {
  }

  /** Validating an already constructed event again changes nothing. */
  lemma RevalidateIsIdentity(e: Event)
    requires WellFormed(e)
    ensures MakeEvent(Some(e.inChannel), e.outChannel, e.content) == Ok(e)
  {
    ValidatePairOfChannels(e.inChannel, e.outChannel);
  }

  /** A test example: the same in and out channel is stored as None. */
  lemma SameOutChannelStoredAsNone()
    ensures MakeEvent(Some("telegram/chat/1"), Some("telegram/chat/1"), "hello").Ok?
    ensures MakeEvent(Some("telegram/chat/1"), Some("telegram/chat/1"), "hello").value.outChannel.None?
  {
    var c := "telegram/chat/1";
    assert SlashShape(c);
    ChannelFromShape(c);
  }

  // ---------------------------------------------------------------------
  // tool_exception_guard

  /** How a wrapped tool call ended: a value, or an exception with its `str()`. */
  datatype ToolCall<R> = Returned(value: R) | Raised(exc: Exc, text: string)

  /** What the guarded wrapper yields: the value, the error text, or a propagated exception. */
  datatype Guarded<R> = Value(value: R) | ErrorText(text: string) | Propagated(exc: Exc)

  function Guard<R>(call: ToolCall<R>): (r: Guarded<R>)
    ensures r.Propagated? <==> call.Raised? && call.exc == CancelledError
    ensures r.Propagated? ==> r.exc == CancelledError
    ensures call.Returned? ==> r == Value(call.value)
    ensures call.Raised? && call.exc != CancelledError ==> r == ErrorText(call.text)
  {
    match call
    case Returned(v) => Value(v)
    case Raised(exc, text) => if exc == CancelledError then Propagated(exc) else ErrorText(text)
  }
}
