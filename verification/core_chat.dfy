/**
 * `engine.core.MarioChat`, the earlier narrator: it comments on every event of a
 * tick directly, without any de-duplication.
 */
module CoreChat {
  import opened Game
  import opened Display

  const GotFireFlower: string := "Got a fire flower!"
  const GotMushroom: string := "Got a mushroom!"
  const Whoops: string := "Whoops!"
  const JumpText: string := "Jump!"

  /** A bump against a brick (the literal 22) while powered up. */
  predicate PoweredBrickBump(e: MarioEvent) {
    e.eventType == Bump.Value() && e.param == ObsBrick && e.marioState > 0
  }

  /** The lines `updateEventInformation` writes for one event, in the order of its tests. */
  function EventLines(c: Codes, e: MarioEvent): (r: seq<string>)
    ensures forall k :: 0 <= k < |r| ==> r[k] in {GotFireFlower, GotMushroom, Whoops}
    ensures c.Valid() ==> |r| <= 1
  {
    (if e.eventType == Collect.Value() && e.param == c.fireFlower then [GotFireFlower] else [])
    + (if e.eventType == Collect.Value() && e.param == c.mushroom then [GotMushroom] else [])
    + (if PoweredBrickBump(e) then [Whoops] else [])
  }

  /** "Whoops!" is said exactly for a bump against a brick while powered up. */
  lemma WhoopsOnlyOnPoweredBrickBump(c: Codes, e: MarioEvent)
    ensures Whoops in EventLines(c, e) <==> PoweredBrickBump(e)
  {
  }

  /** Events other than COLLECT and BUMP say nothing. */
  lemma OtherEventsSilent(c: Codes, e: MarioEvent)
    requires e.eventType != Collect.Value() && e.eventType != Bump.Value()
    ensures EventLines(c, e) == []
  {
  }

  /** The event lines of a whole tick, event by event. */
  function EventTexts(c: Codes, events: seq<MarioEvent>): (r: seq<string>)
    ensures forall k :: 0 <= k < |r| ==> r[k] in {GotFireFlower, GotMushroom, Whoops}
    ensures c.Valid() ==> |r| <= |events|
    decreases |events|
  {
    if events == [] then [] else EventLines(c, events[0]) + EventTexts(c, events[1..])
  }

  /** How many of the events collected the sprite `code`. */
  function CountCollected(events: seq<MarioEvent>, code: int): nat
    decreases |events|
  {
    if events == [] then 0
    else (if events[0].eventType == Collect.Value() && events[0].param == code then 1 else 0)
         + CountCollected(events[1..], code)
  }

  /** Every collected power-up is announced, however many there are in one tick. */
  lemma {:induction false} EveryCollectNarrated(c: Codes, events: seq<MarioEvent>)
    ensures multiset(EventTexts(c, events))[GotFireFlower] == CountCollected(events, c.fireFlower)
    ensures multiset(EventTexts(c, events))[GotMushroom] == CountCollected(events, c.mushroom)
    decreases |events|
  {
    if events != [] {
      EveryCollectNarrated(c, events[1..]);
      var e := events[0];
      assert multiset(EventTexts(c, events)) == multiset(EventLines(c, e)) + multiset(EventTexts(c, events[1..]));
    }
  }

  /**
   * `updateEventInformation`: the lines for each event in order, then one "Jump!" if
   * the agent pressed jump during the tick.
   */
  function UpdateEventInformation(c: Codes, display: seq<string>, lastMarioEvents: seq<MarioEvent>, marioAgentEvent: AgentEvent): (r: seq<string>)
    requires c.jumpAction < |marioAgentEvent.actions|
    ensures |r| == |display| + |EventTexts(c, lastMarioEvents)| + (if Jumped(c, marioAgentEvent) then 1 else 0)
    ensures r[..|display|] == display
    ensures forall k :: |display| <= k < |display| + |EventTexts(c, lastMarioEvents)| ==>
      r[k] == AgentLine(EventTexts(c, lastMarioEvents)[k - |display|])
    ensures r[|display| + |EventTexts(c, lastMarioEvents)|..] == if Jumped(c, marioAgentEvent) then [AgentLine(JumpText)] else []
  {
    var texts := EventTexts(c, lastMarioEvents);
    var jump := if marioAgentEvent.actions[c.jumpAction] then [JumpText] else [];
    var r := AddMessagesFromAgent(display, texts + jump);
    assert forall k :: |display| <= k < |display| + |texts| ==> r[k] == AgentLine(texts[k - |display|]) by {
      forall k | |display| <= k < |display| + |texts|
        ensures r[k] == AgentLine(texts[k - |display|])
      {
        assert (texts + jump)[k - |display|] == texts[k - |display|];
      }
    }
    assert forall k :: |display| + |texts| <= k < |r| ==> r[k] == AgentLine(jump[k - |display| - |texts|]) by {
      forall k | |display| + |texts| <= k < |r|
        ensures r[k] == AgentLine(jump[k - |display| - |texts|])
      {
        assert (texts + jump)[k - |display|] == jump[k - |display| - |texts|];
      }
    }
    r
  }

  /** The tick's "Jump!" line is its last line and appears at most once. */
  lemma JumpAnnouncedOnceAtEnd(c: Codes, display: seq<string>, lastMarioEvents: seq<MarioEvent>, marioAgentEvent: AgentEvent)
    requires c.jumpAction < |marioAgentEvent.actions|
    ensures var r := UpdateEventInformation(c, display, lastMarioEvents, marioAgentEvent);
      && (Jumped(c, marioAgentEvent) <==> |r| > |display| && r[|r| - 1] == AgentLine(JumpText))
      && multiset(r[|display|..])[AgentLine(JumpText)] == if Jumped(c, marioAgentEvent) then 1 else 0
  {
    var r := UpdateEventInformation(c, display, lastMarioEvents, marioAgentEvent);
    var texts := EventTexts(c, lastMarioEvents);
    var lines := r[|display|..];
    forall k | 0 <= k < |texts| ensures lines[k] != AgentLine(JumpText) {
      assert lines[k] == AgentLine(texts[k]);
      AgentLineInjective(texts[k], JumpText);
    }
    assert lines[|texts|..] == r[|display| + |texts|..];
    LastLineAnnouncement(lines, |texts|, Jumped(c, marioAgentEvent));
  }

  /** Lines that end in an optional announcement not found among the earlier ones. */
  lemma LastLineAnnouncement(lines: seq<string>, n: nat, announced: bool)
    requires n <= |lines|
    requires forall k :: 0 <= k < n ==> lines[k] != AgentLine(JumpText)
    requires lines[n..] == if announced then [AgentLine(JumpText)] else []
    ensures announced <==> |lines| > 0 && lines[|lines| - 1] == AgentLine(JumpText)
    ensures multiset(lines)[AgentLine(JumpText)] == if announced then 1 else 0
  {
    assert lines == lines[..n] + lines[n..];
    NoJumpLineAmongEvents(lines[..n]);
    if !announced && |lines| > 0 {
      assert lines[|lines| - 1] == lines[..n][n - 1];
    }
  }

  /** Different texts give different Mario lines, since the prefix is fixed. */
  lemma AgentLineInjective(a: string, b: string)
    requires a != b
    ensures AgentLine(a) != AgentLine(b)
  {
    assert AgentLine(a)[|AgentPrefix|..] == a;
    assert AgentLine(b)[|AgentPrefix|..] == b;
  }

  /** A list without the jump line counts it zero times. */
  lemma NoJumpLineAmongEvents(lines: seq<string>)
    requires forall k :: 0 <= k < |lines| ==> lines[k] != AgentLine(JumpText)
    ensures multiset(lines)[AgentLine(JumpText)] == 0
  {
  }

  /** The earlier chat component's text: its window lines and its input field. */
  datatype CoreChatState = CoreChatState(display: seq<string>, input: string)

  /** `txtInputActionPerformed`: non-empty input is echoed with "User: " and the field cleared. */
  function TxtInputActionPerformed(s: CoreChatState): (r: CoreChatState)
    ensures s.input == [] ==> r == s
    ensures s.input != [] ==>
      && r.input == []
      && |r.display| == |s.display| + 1
      && r.display[..|s.display|] == s.display
      && r.display[|s.display|] == UserPrefix + s.input
  {
    if s.input == [] then s else CoreChatState(s.display + [UserPrefix + s.input], [])
  }
}
