/**
 * `engine.core.MarioChatWorker`, the earlier buffered funnel: the game loop queues
 * events, and each pass of the worker narrates the queue once, without repeating a
 * line, and empties it.
 */
module CoreWorker {
  import opened Optional
  import opened Game
  import opened Display
  import opened CoreChat

  /** The two queues filled by the game loop and drained by each pass. */
  datatype Buffers = Buffers(marioEvents: seq<MarioEvent>, marioAgentEvents: seq<AgentEvent>)

  /** `AddNewEventsToFunnel`: queue the tick's events in order and its one agent event. */
  function AddNewEventsToFunnel(b: Buffers, lastMarioEvents: seq<MarioEvent>, marioAgentEvent: AgentEvent): (r: Buffers)
    ensures |r.marioEvents| == |b.marioEvents| + |lastMarioEvents|
    ensures r.marioEvents[..|b.marioEvents|] == b.marioEvents
    ensures r.marioEvents[|b.marioEvents|..] == lastMarioEvents
    ensures |r.marioAgentEvents| == |b.marioAgentEvents| + 1
    ensures r.marioAgentEvents[..|b.marioAgentEvents|] == b.marioAgentEvents
    ensures r.marioAgentEvents[|b.marioAgentEvents|] == marioAgentEvent
  {
    Buffers(b.marioEvents + lastMarioEvents, b.marioAgentEvents + [marioAgentEvent])
  }

  /**
   * The message one queued event would produce: the power-up lines for COLLECT, and
   * "Whoops!" for a powered-up bump against a brick, the later test winning.
   */
  function EventMessage(c: Codes, e: MarioEvent): (r: Option<string>)
    ensures r.Some? ==> r.value in {GotFireFlower, GotMushroom, Whoops}
    ensures r == Some(Whoops) <==> PoweredBrickBump(e)
    ensures c.Valid() ==> (r == Some(GotFireFlower) <==> e.eventType == Collect.Value() && e.param == c.fireFlower)
    ensures r == Some(GotMushroom) <==> e.eventType == Collect.Value() && e.param == c.mushroom
    ensures e.eventType != Collect.Value() && e.eventType != Bump.Value() ==> r.None?
  {
    var collected :=
      if e.eventType == Collect.Value() then
        if e.param == c.mushroom then Some(GotMushroom)
        else if e.param == c.fireFlower then Some(GotFireFlower)
        else None
      else None;
    if PoweredBrickBump(e) then Some(Whoops) else collected
  }

  /** No line occurs twice. */
  predicate NoDuplicates(xs: seq<string>) {
    forall i, j :: 0 <= i < j < |xs| ==> xs[i] != xs[j]
  }

  /** Event `i` is the first queued event that produces `s`. */
  ghost predicate FirstProducer(c: Codes, events: seq<MarioEvent>, s: string, i: int) {
    0 <= i < |events| && EventMessage(c, events[i]) == Some(s)
    && forall j :: 0 <= j < i ==> EventMessage(c, events[j]) != Some(s)
  }

  /** Some queued event produces `s`. */
  ghost predicate Produced(c: Codes, events: seq<MarioEvent>, s: string) {
    exists i :: 0 <= i < |events| && EventMessage(c, events[i]) == Some(s)
  }

  /**
   * What a pass says about the event queue: each produced line once, nothing else,
   * in the order of first production.
   */
  ghost predicate NarratesOnce(c: Codes, events: seq<MarioEvent>, result: seq<string>) {
    && NoDuplicates(result)
    && (forall s :: s in result <==> Produced(c, events, s))
    && (forall a, b, i, j ::
          (0 <= a < b < |result| && FirstProducer(c, events, result[a], i) && FirstProducer(c, events, result[b], j))
          ==> i < j)
  }

  /** A list without repeats drawn from a finite set is no longer than the set. */
  lemma {:induction false} NoDuplicatesBound(xs: seq<string>, bound: set<string>)
    requires NoDuplicates(xs)
    requires forall k :: 0 <= k < |xs| ==> xs[k] in bound
    ensures |xs| <= |bound|
    decreases |xs|
  {
    if xs != [] {
      var x := xs[|xs| - 1];
      var init := xs[..|xs| - 1];
      assert forall k :: 0 <= k < |init| ==> init[k] != x;
      NoDuplicatesBound(init, bound - {x});
    }
  }

  /** `TransformMarioEventsToMessages`: the queue's lines, each once, in first-occurrence order. */
  method TransformMarioEventsToMessages(c: Codes, events: seq<MarioEvent>) returns (result: seq<string>)
    ensures NarratesOnce(c, events, result)
    ensures forall k :: 0 <= k < |result| ==> result[k] in {GotFireFlower, GotMushroom, Whoops}
    ensures |result| <= |events| && |result| <= 3
  {
    result := [];
    ghost var firsts: seq<int> := [];
    var k := 0;
    while k < |events|
      invariant 0 <= k <= |events|
      invariant |result| <= k
      invariant NoDuplicates(result)
      invariant forall t :: 0 <= t < |result| ==> result[t] in {GotFireFlower, GotMushroom, Whoops}
      invariant forall s :: s in result <==> exists i :: 0 <= i < k && EventMessage(c, events[i]) == Some(s)
      invariant |firsts| == |result|
      invariant forall t :: 0 <= t < |result| ==> firsts[t] < k && FirstProducer(c, events, result[t], firsts[t])
      invariant forall t, u :: 0 <= t < u < |result| ==> firsts[t] < firsts[u]
    {
      var message := EventMessage(c, events[k]);
      // the inner loop of `TransformMarioEventsToMessages`: skip a line already in the result
      if message.Some? && message.value !in result {
        result := result + [message.value];
        firsts := firsts + [k];
      }
      k := k + 1;
    }
    NoDuplicatesBound(result, {GotFireFlower, GotMushroom, Whoops});
  }

  /** The agent pressed jump in some queued agent event. */
  ghost predicate AnyJump(c: Codes, agentEvents: seq<AgentEvent>)
    requires forall i :: 0 <= i < |agentEvents| ==> c.jumpAction < |agentEvents[i].actions|
  {
    exists i :: 0 <= i < |agentEvents| && Jumped(c, agentEvents[i])
  }

  /** `TransformMarioAgentEventsToMessages`: a single "Jump!" if any queued tick jumped. */
  method TransformMarioAgentEventsToMessages(c: Codes, agentEvents: seq<AgentEvent>) returns (result: seq<string>)
    requires forall i :: 0 <= i < |agentEvents| ==> c.jumpAction < |agentEvents[i].actions|
    ensures result == if AnyJump(c, agentEvents) then [JumpText] else []
  {
    result := [];
    var k := 0;
    while k < |agentEvents|
      invariant 0 <= k <= |agentEvents|
      invariant result == if exists i :: 0 <= i < k && Jumped(c, agentEvents[i]) then [JumpText] else []
    {
      var message: Option<string> := None;
      if agentEvents[k].actions[c.jumpAction] {
        message := Some(JumpText);
      }
      if message.Some? && message.value !in result {
        result := result + [message.value];
      }
      k := k + 1;
    }
  }

  /**
   * One pass of `run`: the event lines, then the agent lines, are written to the
   * chat as Mario lines, and both queues are emptied.
   */
  method RunPass(c: Codes, b: Buffers, display: seq<string>)
    returns (eventMessages: seq<string>, agentMessages: seq<string>, display': seq<string>, b': Buffers)
    requires forall i :: 0 <= i < |b.marioAgentEvents| ==> c.jumpAction < |b.marioAgentEvents[i].actions|
    ensures NarratesOnce(c, b.marioEvents, eventMessages)
    ensures agentMessages == if AnyJump(c, b.marioAgentEvents) then [JumpText] else []
    ensures display' == AddMessagesFromAgent(display, eventMessages + agentMessages)
    ensures |display'| <= |display| + 4
    ensures b' == Buffers([], [])
  {
    eventMessages := TransformMarioEventsToMessages(c, b.marioEvents);
    agentMessages := TransformMarioAgentEventsToMessages(c, b.marioAgentEvents);
    display' := AddMessagesFromAgent(display, eventMessages);
    display' := AddMessagesFromAgent(display', agentMessages);
    AddMessagesFromAgentAppend(display, eventMessages, agentMessages);
    b' := Buffers([], []);
  }
}
