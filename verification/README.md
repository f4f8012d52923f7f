# Mario chat narrator — a Dafny model

This project models the chat layer of a Mario AI framework. In that layer, Mario
narrates game events in a chat window and reacts to a few typed commands. It also
models one small agent.

- **`engine.chat`, the current chat.**
  - `MarioChatWorker` turns game events and the agent's action flags into typed
    messages. It picks stomp and jump phrases at random and substitutes the `*`
    placeholder.
  - Its funnel forwards a message only when no message of the same event type is in
    `recentMessages`. A periodic step empties that list.
  - `MarioChatMessage` has type-only equality, which is the key the funnel
    de-duplicates on.
  - `MarioChat` parses user text. An exact lower-case command selects a controller
    agent and, except for `user`, gives a scripted reply. A "why did you ..."
    question is mapped through a keyword table to an event type whose history is
    then looked up.
- **`engine.core`, the earlier chat.**
  - `MarioChat.updateEventInformation` narrates each event directly.
  - `MarioChatWorker` buffers events and agent actions. Each pass writes the
    de-duplicated lines and empties the buffers.
- **`agents.cautiousIdle.Agent`** jumps exactly when the enemy grid has something in
  one of the two cells beside Mario.

Modelling choices:

- The chat window is the sequence of lines appended to it.
- The random phrase index is an input `pick` with `pick < 3`, one per event.
- The background clearing thread is the explicit step `RefreshFunnel`.
- Constants defined outside these files are fields of a `Codes` record:
  - the enemy observation codes;
  - the `SpriteType` values of the fire flower and the mushroom;
  - the index of `MarioActions.JUMP`.

  `Codes.Valid()` says the six enemy codes are distinct, as labels of one Java
  `switch` must be, and that the two power-up values differ. `OBS_BRICK` is the
  literal 22, which is how `engine/core` writes it.
- Event-type numbers 1–12 follow the legend comment in both narrators.
- The message's `type` field is `Option<EventType>`, because Java allows null.
  `Equals` requires both types to be present, since Java's `equals` would throw a
  NullPointerException otherwise.
- The snapshot field `model` is `Option<ForwardModel>`. The worker builds its
  messages with two arguments while the constructor takes three. Those messages
  get `None`.
- The constructor stores its three arguments unchanged. It is the datatype
  constructor `Messages.ChatMessage`.
- `CautiousIdle.AgentName` is the constant `getAgentName` returns.

The why-question reads its action from index 12 of the lower-cased message, wherever
the phrase was found. The model keeps this. `Chat.WhyAfterOpeningIsMisread` shows
that "so why did you jump" is answered "Why did I what?".

## Model

| member | source | states |
|---|---|---|
| Messages.Equals | src/engine/chat/MarioChatMessage.java:19-23 | two typed messages are equal exactly when their event types are the same; `equals` compares the numeric values |
| Messages.EqualsIgnoresTextAndModel | src/engine/chat/MarioChatMessage.java:13-23 | replacing a message's text or snapshot never changes the result of equality |
| Messages.EqualsIsEquivalence | src/engine/chat/MarioChatMessage.java:22 | on typed messages, equality is reflexive, symmetric and transitive |
| Display.AddMessagesFromAgent | src/engine/chat/MarioChat.java:93-95 | agent texts are appended in order, each prefixed "Mario: ", and earlier lines are kept (the same in engine/core) |
| Chat.Dispatch | src/engine/chat/MarioChat.java:119-149 | a controller is chosen iff the whole lower-cased text is that controller's command word; the reply is that controller's scripted reply; other text chooses nothing and replies nothing |
| Chat.ResetAndRestartDoNothing | src/engine/chat/MarioChat.java:139-148 | "reset" and "restart" neither switch controller nor reply |
| Chat.StringToEventType | src/engine/chat/MarioChat.java:167-197 | the result is Some(t) exactly when the string is t's keyword, for each of the twelve types; every other string gives None |
| Chat.CleanString | src/engine/chat/MarioChat.java:161-165 | the result contains only ASCII letters and equals the letters of the input in order, so trim removes nothing |
| Chat.CleanStringIdempotent | src/engine/chat/MarioChat.java:161-165 | cleaning twice is the same as cleaning once |
| Chat.HurtUnreachableOnWhyPath | src/engine/chat/MarioChat.java:151-187 | no cleaned string maps to HURT, because its keyword "get hurt" contains a space |
| Chat.WhyQuestion | src/engine/chat/MarioChat.java:150-158 | when the phrase is present the text is at least 12 long; the lookup is the keyword type of the cleaned suffix from index 12; no lookup happens iff the only reply is "Why did I what?" |
| Chat.CommandAndWhyExclusive | src/engine/chat/MarioChat.java:119-158 | no text both selects a controller and contains "why did you " |
| Chat.ParseUserMessageToCommand | src/engine/chat/MarioChat.java:114-159 | the controller is chosen iff the lower-cased text is its command word; there is at most one reply; a lookup comes with no reply and is never HURT; the why-phrase is present iff there is a lookup or the reply is "Why did I what?"; whenever the why-phrase is present the lookup is the keyword type of the cleaned suffix from index 12; text that selects no controller and lacks the why-phrase gets no reply |
| Chat.KnownActionIsLookedUp | src/engine/chat/MarioChat.java:150-157 | a why-question whose cleaned action is a keyword makes exactly that lookup and gives no reply |
| Chat.UnknownActionIsNotLookedUp | src/engine/chat/MarioChat.java:150-155 | a why-question whose cleaned action is not a keyword makes no lookup and replies "Why did I what?" |
| Chat.WhyAtStartIsUnderstood | src/engine/chat/MarioChat.java:150-156 | "why did you jump" requests a lookup for JUMP |
| Chat.WhyAfterOpeningIsMisread | src/engine/chat/MarioChat.java:151 | "so why did you jump" makes no lookup and replies "Why did I what?", because the action is read from the fixed index 12 |
| Chat.TxtInputActionPerformed | src/engine/chat/MarioChat.java:97-105 | empty input changes nothing; otherwise the input is echoed as "User: " + input, followed by at most one Mario line, with earlier lines kept; at most one lookup is appended and the input field is cleared; the Mario lines, the chosen controller and the lookup are exactly those of parsing the input |
| ChatWorker.GetRandomMessage | src/engine/chat/MarioChatWorker.java:195-200 | the result is some entry of the array with every `*` replaced; it contains no `*` when the replacement has none; an entry without `*` is returned unchanged |
| ChatWorker.JumpSoundsVerbatim | src/engine/chat/MarioChatWorker.java:29-33 | a jump phrase with the empty replacement is the phrase itself |
| ChatWorker.StompPhrases | src/engine/chat/MarioChatWorker.java:34-38 | the three stomp phrases become "Coming through!", "Sorry about that, N!" and "Make way, N!" for noun N |
| ChatWorker.StompTarget | src/engine/chat/MarioChatWorker.java:117-129 | with valid codes the noun is "Goomba" exactly for the goomba codes and "Koopa" exactly for the four koopa codes; it is empty exactly for every other code |
| ChatWorker.ClassifyEvent | src/engine/chat/MarioChatWorker.java:90-161 | a produced message has a type whose numeric value is the event's type code, and it has no snapshot |
| ChatWorker.BumpOnlyOnBrick | src/engine/chat/MarioChatWorker.java:108-115 | a bump is narrated iff its param is OBS_BRICK, as BUMP with "Whoops!" when marioState > 0 and "Ouch!" otherwise |
| ChatWorker.StompAlwaysNarrated | src/engine/chat/MarioChatWorker.java:116-132 | a stomp kill always yields a STOMP_KILL message, one of the three phrases naming Goomba, Koopa or nobody according to the param |
| ChatWorker.CollectOnlyPowerUps | src/engine/chat/MarioChatWorker.java:141-149 | a collect is narrated iff the param is the fire flower or the mushroom, with the matching COLLECT text |
| ChatWorker.FixedTexts | src/engine/chat/MarioChatWorker.java:133-157 | fire kill, shell kill, hurt and lose give "Roasted!", "Strike!", "Ouch!!" and "Mamma mia!" with their types |
| ChatWorker.SilentEvents | src/engine/chat/MarioChatWorker.java:107-161 | fall kill, jump, land, kick, win and unknown codes produce nothing |
| ChatWorker.TransformMarioEventsToMessages | src/engine/chat/MarioChatWorker.java:88-164 | there are at most as many messages as events; all are typed; each is the classification of some input event |
| ChatWorker.TransformPreservesOrder | src/engine/chat/MarioChatWorker.java:88-164 | transforming a concatenation gives the concatenation of the two transforms, so event order is kept and events are handled independently |
| ChatWorker.TransformSingleEvent | src/engine/chat/MarioChatWorker.java:159-161 | one event gives exactly its own classification: zero or one message |
| ChatWorker.TransformMarioAgentEventToMessages | src/engine/chat/MarioChatWorker.java:166-173 | there is exactly one message iff the jump flag is set, and none otherwise; it is JUMP-typed, its text is a JumpSounds entry verbatim and it has no snapshot |
| ChatWorker.IsMessageDuplicate | src/engine/chat/MarioChatWorker.java:175-184 | the answer is true iff some message in the list has the candidate's type |
| ChatWorker.Ingest | src/engine/chat/MarioChatWorker.java:52-58 | recentMessages only grows at the end, by at most one entry per candidate; the shown texts are exactly the texts of the added messages, in order |
| ChatWorker.IngestBlocksCandidateKinds | src/engine/chat/MarioChatWorker.java:52-65 | afterwards the recent types are the old recent types plus every candidate's type |
| ChatWorker.IngestAddsOnlyFreshCandidates | src/engine/chat/MarioChatWorker.java:52-65 | every added message is a candidate whose type was not recent; a funnel with no repeated type still has none afterwards |
| ChatWorker.IngestOne | src/engine/chat/MarioChatWorker.java:53-57 | one candidate is shown and appended iff no recent message has its type; otherwise nothing changes |
| ChatWorker.IngestAppend | src/engine/chat/MarioChatWorker.java:49-66 | ingesting a+b equals ingesting a and then b from the resulting funnel, so later candidates see the earlier ones of the same call |
| ChatWorker.ShownAtMostOncePerType | src/engine/chat/MarioChatWorker.java:25-66 | whatever the funnel held before, the messages added in one call have pairwise distinct types |
| ChatWorker.AddNewEventsToFunnel | src/engine/chat/MarioChatWorker.java:49-66 | a tick equals ingesting event messages followed by agent messages; the shown texts become Mario lines; funnel validity is kept |
| ChatWorker.RefreshFunnel | src/engine/chat/MarioChatWorker.java:68-86 | after the clear step recentMessages is empty, whether or not it was empty before |
| ChatWorker.RefreshReopensEveryType | src/engine/chat/MarioChatWorker.java:68-86 | after a clear, any typed message is shown |
| CoreChat.EventLines | src/engine/core/MarioChat.java:103-115 | each line is one of the three texts; with valid codes an event gives at most one line |
| CoreChat.WhoopsOnlyOnPoweredBrickBump | src/engine/core/MarioChat.java:112-115 | "Whoops!" is said iff the event is BUMP with param 22 and marioState > 0 |
| CoreChat.OtherEventsSilent | src/engine/core/MarioChat.java:103-116 | events other than COLLECT and BUMP give no line |
| CoreChat.EventTexts | src/engine/core/MarioChat.java:103-116 | every line is one of the three texts; with valid codes there are at most as many lines as events |
| CoreChat.EveryCollectNarrated | src/engine/core/MarioChat.java:104-111 | "Got a fire flower!" occurs as often as fire flowers were collected, and likewise for mushrooms; there is no de-duplication |
| CoreChat.UpdateEventInformation | src/engine/core/MarioChat.java:86-124 | the old lines are kept; then come the event lines as Mario lines, then "Mario: Jump!" iff the jump flag is set |
| CoreChat.JumpAnnouncedOnceAtEnd | src/engine/core/MarioChat.java:118-123 | the jump flag is set iff the last line is "Mario: Jump!"; that line occurs among the new lines exactly once when the flag is set and never otherwise |
| CoreChat.TxtInputActionPerformed | src/engine/core/MarioChat.java:130-138 | empty input changes nothing; otherwise exactly one line "User: " + input is appended and the field is cleared |
| CoreWorker.AddNewEventsToFunnel | src/engine/core/MarioChatWorker.java:26-30 | the old buffer is kept and the tick's events follow in order; exactly one agent event is appended |
| CoreWorker.EventMessage | src/engine/core/MarioChatWorker.java:59-72 | "Whoops!" iff BUMP with param 22 and marioState > 0; a power-up text iff COLLECT with that sprite and no Whoops; nothing for other types |
| CoreWorker.TransformMarioEventsToMessages | src/engine/core/MarioChatWorker.java:57-88 | the result has no duplicates; a text is in it iff some buffered event produces it; texts follow the order of their first producing events; the length is at most min(3, number of events) |
| CoreWorker.TransformMarioAgentEventsToMessages | src/engine/core/MarioChatWorker.java:90-113 | the result is ["Jump!"] iff some buffered agent event has the jump flag set, and empty otherwise |
| CoreWorker.RunPass | src/engine/core/MarioChatWorker.java:32-55 | event lines are written before agent lines, each as a Mario line, at most four per pass, and both buffers end empty |
| CautiousIdle.GetActions | src/agents/cautiousIdle/Agent.java:18-29 | the array has numberOfActions entries; every entry except index 4 is false; index 4 is true iff a cell beside Mario is non-zero; the right cell need only exist when the left one is empty |
| CautiousIdle.OnlyNeighbourCellsMatter | src/agents/cautiousIdle/Agent.java:22-25 | grids of the same shape that agree on the left cell, and on the right cell when the left is empty, give the same actions |
| CautiousIdle.LeftEnemyNeedsNoRightColumn | src/agents/cautiousIdle/Agent.java:25-26 | a two-column grid with an enemy in the left cell jumps, because `||` never reads the missing right column |
| CautiousIdle.MarioCellIgnored | src/agents/cautiousIdle/Agent.java:22-25 | overwriting Mario's own cell `[n/2][m/2]` never changes the actions |

## Left out

- Swing work: layout, the text area, scrolling, focus handling and `Assets.init`. The
  "user" command's `txtInput.setFocusable(false)` is among these. The window is a
  list of lines, and the welcome text is not modelled.
- Thread timing and concurrency: the sleeps, the 2000/50/500 ms intervals and the
  unsynchronised sharing of `recentMessages` and the buffers. Clearing is the explicit
  step `RefreshFunnel`, and a pass of the earlier worker is the method `RunPass`.
- `java.util.Random`: the chosen index is an input.
- `CheckHistoryForEventType` is not part of this model. A why-question only records
  the event type it would look up, in `ChatState.lookups`.
- `MarioLogMessage` is declared as `Messages.LogMessage`. Its `LocalTime` stamp is a
  plain number, and no behaviour uses it.
- The controller agents are opaque tokens (`Chat.Controller`). `initialize` of the
  cautious agent has no effect, so it has no member.
- `String.toLowerCase` maps only ASCII letters here. Non-ASCII and locale-specific
  case mapping is not modelled.
- A `ClassCastException` for a non-message argument of `equals` cannot happen: the
  argument is typed as a message.
- A message whose text is null cannot be built: every shown construction passes a
  string.
- `PlayLevel.java`: file reading, console output and the float arithmetic of
  `printResults`.
- The commented-out reset/restart code.
- Strings are sequences of Unicode characters, not UTF-16 code units. A character outside
  the Basic Multilingual Plane before position 12 therefore moves the point where the
  why-question's `substring(12)` starts, compared with Java.
- `ArrayIndexOutOfBoundsException` when the agent's action array has no entry at index
  `MarioActions.JUMP`: the members that read the jump flag require `jumpAction < |actions|`
  (engine/chat `MarioChatWorker` line 169, engine/core `MarioChat` line 119 and
  `MarioChatWorker` line 95). The length of the agent-event array is not visible in these
  files. The only construction shown is the cautious agent's
  `new boolean[MarioActions.numberOfActions()]` (agents/cautiousIdle/Agent.java line 19).
- CautiousIdle.GetActions: the `ArrayIndexOutOfBoundsException` paths of `getActions` are
  not modelled; its requires exclude them. They are:
  - an empty grid, or one column, where `[0]` or the left column `n/2-1` does not exist
    (Agent.java lines 22-25);
  - a left column too short to hold row `m/2`;
  - a missing or too-short right column when the left cell is 0, the only case in which
    `||` reads it (line 25);
  - `result[4]` with at most four actions when an enemy is beside Mario (line 26).
