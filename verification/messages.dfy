/** `engine.chat.MarioChatMessage` and `engine.chat.MarioLogMessage`. */
module Messages {
  import opened Optional
  import opened Game

  /** An opaque handle to a `MarioForwardModel` snapshot; its contents are not modelled. */
  datatype ForwardModel = ForwardModel(handle: nat)

  /**
   * A narration message. `kind` is the Java field `type`, which may be null;
   * `model` is absent when the message was built without a snapshot.
   */
  datatype ChatMessage = ChatMessage(kind: Option<EventType>, message: string, model: Option<ForwardModel>)

  /** A log entry: type, text and a time stamp (a `LocalTime`, here a plain number). */
  datatype LogMessage = LogMessage(kind: Option<EventType>, message: string, timeStamp: nat)

  /** The message has a non-null type, which `Equals` needs on both sides. */
  predicate Typed(m: ChatMessage) {
    m.kind.Some?
  }

  /** Every message in the list has a type. */
  predicate AllTyped(ms: seq<ChatMessage>) {
    forall i :: 0 <= i < |ms| ==> Typed(ms[i])
  }

  /** `equals`: two messages are equal when their types have the same numeric value. */
  function Equals(a: ChatMessage, b: ChatMessage): (r: bool)
    requires Typed(a) && Typed(b)
    ensures r <==> a.kind == b.kind
  {
    a.kind.value.Value() == b.kind.value.Value()
  }

  /** Neither the text nor the snapshot takes part in equality. */
  lemma EqualsIgnoresTextAndModel(a: ChatMessage, b: ChatMessage, text: string, model: Option<ForwardModel>)
    requires Typed(a) && Typed(b)
    ensures Equals(a, b) == Equals(ChatMessage(a.kind, text, model), b)
    ensures Equals(a, b) == Equals(a, ChatMessage(b.kind, text, model))
  {
  }

  /** On typed messages `Equals` is an equivalence relation. */
  lemma EqualsIsEquivalence(a: ChatMessage, b: ChatMessage, c: ChatMessage)
    requires Typed(a) && Typed(b) && Typed(c)
    ensures Equals(a, a)
    ensures Equals(a, b) ==> Equals(b, a)
    ensures Equals(a, b) && Equals(b, c) ==> Equals(a, c)
  {
  }
}
