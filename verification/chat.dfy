/**
 * The text side of `engine.chat.MarioChat`: what a submitted line does to the chat
 * window, which controller it asks the game to switch to, and which past event
 * type a "why did you ..." question asks the history about.
 */
module Chat {
  import opened Optional
  import opened Strings
  import opened Game
  import opened Display

  /** The controller agents a command can request; the agents themselves are opaque. */
  datatype Controller = DoNothing | SergeyPolikarpov | RobinBaumgarten | Human

  /** The lower-case command word that selects each controller. */
  function CommandWord(k: Controller): string {
    match k
    case DoNothing => "stop"
    case SergeyPolikarpov => "start"
    case RobinBaumgarten => "speedrun"
    case Human => "user"
  }

  /** What Mario answers when switching to each controller. */
  function ScriptedReply(k: Controller): Option<string> {
    match k
    case DoNothing => Some("Okie dokie.")
    case SergeyPolikarpov => Some("It's-a-me, Mario!")
    case RobinBaumgarten => Some("Let's-a-go!")
    case Human => None
  }

  /** The effect of the exact-match `switch`: a new controller for the game and a reply. */
  datatype Command = Command(agent: Option<Controller>, reply: Option<string>)

  /**
   * The `switch` on the whole lower-cased message. "reset" and "restart" have a case
   * of their own whose body is commented out, so they behave like unknown text.
   */
  function Dispatch(lower: string): (r: Command)
    ensures forall k :: r.agent == Some(k) <==> lower == CommandWord(k)
    ensures r.agent.Some? ==> r.reply == ScriptedReply(r.agent.value)
    ensures r.agent.None? ==> r.reply.None?
  {
    if lower == "stop" then Command(Some(DoNothing), Some("Okie dokie."))
    else if lower == "start" then Command(Some(SergeyPolikarpov), Some("It's-a-me, Mario!"))
    else if lower == "speedrun" then Command(Some(RobinBaumgarten), Some("Let's-a-go!"))
    else if lower == "user" then Command(Some(Human), None)
    else Command(None, None)
  }

  /** The debugging commands "reset" and "restart" change nothing. */
  lemma ResetAndRestartDoNothing()
    ensures Dispatch("reset") == Command(None, None)
    ensures Dispatch("restart") == Command(None, None)
  {
  }

  /** The keyword `StringToEventType` accepts for each event type. */
  function Keyword(t: EventType): string {
    match t
    case Bump => "bump"
    case StompKill => "stomp"
    case FireKill => "roast"
    case ShellKill => "shell"
    case FallKill => "fall"
    case Jump => "jump"
    case Land => "land"
    case Collect => "collect"
    case Hurt => "get hurt"
    case Kick => "kick"
    case Lose => "lose"
    case Win => "win"
  }

  /** `StringToEventType`: exactly the twelve keywords name an event type; anything else is null. */
  function StringToEventType(s: string): (r: Option<EventType>)
    ensures forall t :: r == Some(t) <==> s == Keyword(t)
  {
    match s
    case "bump" => Some(Bump)
    case "stomp" => Some(StompKill)
    case "roast" => Some(FireKill)
    case "shell" => Some(ShellKill)
    case "fall" => Some(FallKill)
    case "jump" => Some(Jump)
    case "land" => Some(Land)
    case "collect" => Some(Collect)
    case "get hurt" => Some(Hurt)
    case "kick" => Some(Kick)
    case "lose" => Some(Lose)
    case "win" => Some(Win)
    case _ => None
  }

  /** `CleanString`: keep the letters; the trailing `trim` then has nothing to remove. */
  function CleanString(s: string): (r: string)
    ensures forall i :: 0 <= i < |r| ==> IsLetter(r[i])
    ensures r == Letters(s)
  {
    Trim(Letters(s))
  }

  /** Cleaning a cleaned string changes nothing. */
  lemma {:induction false} CleanStringIdempotent(s: string)
    ensures CleanString(CleanString(s)) == CleanString(s)
  {
    LettersOfLetters(Letters(s));
  }

  /** Filtering a string that is all letters keeps it whole. */
  lemma {:induction false} LettersOfLetters(s: string)
    requires forall i :: 0 <= i < |s| ==> IsLetter(s[i])
    ensures Letters(s) == s
  {
    if s != [] {
      LettersOfLetters(s[1..]);
    }
  }

  /**
   * The keyword "get hurt" holds a space, which `CleanString` always removes, so a
   * why-question can never ask about HURT.
   */
  lemma HurtUnreachableOnWhyPath(s: string)
    ensures StringToEventType(CleanString(s)) != Some(Hurt)
  {
    var w := CleanString(s);
    if |w| == |Keyword(Hurt)| {
      assert IsLetter(w[3]) && !IsLetter(Keyword(Hurt)[3]);
    }
    assert w != Keyword(Hurt);
  }

  const WhyPhrase: string := "why did you "
  const WhyDidIWhat: string := "Why did I what?"

  /**
   * The effect of `parseUserMessageToCommand`: the controller assigned to
   * `game.newAgent` (if any), Mario's replies in order, and the event type whose
   * history lookup was requested (if any).
   */
  datatype Reaction = Reaction(agent: Option<Controller>, replies: seq<string>, lookup: Option<EventType>)

  /**
   * The why-branch: the action is the lower-cased message from index 12 on, whatever
   * index the phrase was found at.
   */
  function WhyQuestion(lower: string): (r: Reaction)
    requires Contains(lower, WhyPhrase)
    ensures r.agent.None?
    ensures r.lookup.None? <==> r.replies == [WhyDidIWhat]
    ensures r.lookup.Some? ==> r.replies == []
    ensures |lower| >= |WhyPhrase| && r.lookup == StringToEventType(CleanString(lower[|WhyPhrase|..]))
  {
    ContainsBoundsLength(lower, WhyPhrase);
    match StringToEventType(CleanString(lower[12..]))
    case None => Reaction(None, [WhyDidIWhat], None)
    case Some(t) => Reaction(None, [], Some(t))
  }

  /** No command word is long enough to contain the why-phrase. */
  lemma CommandAndWhyExclusive(lower: string)
    ensures !(Dispatch(lower).agent.Some? && Contains(lower, WhyPhrase))
  {
    if Dispatch(lower).agent.Some? && Contains(lower, WhyPhrase) {
      ContainsBoundsLength(lower, WhyPhrase);
      assert false;
    }
  }

  /** `parseUserMessageToCommand`: the exact-match command, then the why-question check. */
  function ParseUserMessageToCommand(message: string): (r: Reaction)
    ensures forall k :: r.agent == Some(k) <==> ToLower(message) == CommandWord(k)
    ensures r.agent.Some? ==> r.replies == ToSeq(ScriptedReply(r.agent.value)) && r.lookup.None?
    ensures |r.replies| <= 1
    ensures r.lookup.Some? ==> r.replies == [] && r.lookup != Some(Hurt)
    ensures Contains(ToLower(message), WhyPhrase) <==> (r.lookup.Some? || r.replies == [WhyDidIWhat])
    ensures r.agent.None? && !Contains(ToLower(message), WhyPhrase) ==> r.replies == []
    ensures Contains(ToLower(message), WhyPhrase) ==>
      var lower := ToLower(message);
      |lower| >= 12 && r.lookup == StringToEventType(CleanString(lower[12..]))
  {
    var lower := ToLower(message);
    var command := Dispatch(lower);
    CommandAndWhyExclusive(lower);
    if Contains(lower, WhyPhrase) then
      var why := WhyQuestion(lower);
      HurtUnreachableOnWhyPath(lower[12..]);
      Reaction(command.agent, ToSeq(command.reply) + why.replies, why.lookup)
    else
      Reaction(command.agent, ToSeq(command.reply), None)
  }

  /** A why-question whose action is a keyword asks the history about that type. */
  lemma KnownActionIsLookedUp(message: string, t: EventType)
    requires Contains(ToLower(message), WhyPhrase)
    requires |ToLower(message)| >= 12 && StringToEventType(CleanString(ToLower(message)[12..])) == Some(t)
    ensures ParseUserMessageToCommand(message).lookup == Some(t)
    ensures ParseUserMessageToCommand(message).replies == []
  {
  }

  /** A question at the start of the message is understood. */
  lemma WhyAtStartIsUnderstood(q: string)
    requires q == "why did you jump"
    ensures ParseUserMessageToCommand(q).lookup == Some(Jump)
  {
    StartQuestionAction(q);
    StartQuestionActionKnown(ToLower(q)[12..]);
    KnownActionIsLookedUp(q, Jump);
  }

  /** At the start of the message, index 12 is just past the phrase. */
  lemma StartQuestionAction(q: string)
    requires q == "why did you jump"
    ensures Contains(ToLower(q), WhyPhrase)
    ensures |ToLower(q)| >= 12 && ToLower(q)[12..] == "jump"
  {
    ToLowerOfLowerCase(q);
    assert OccursAt(q, WhyPhrase, 0);
  }

  /** "jump" cleans to the JUMP keyword. */
  lemma StartQuestionActionKnown(action: string)
    requires action == "jump"
    ensures StringToEventType(CleanString(action)) == Some(Jump)
  {
    assert Letters("jump") == "jump";
  }

  /** A why-question whose action is not a keyword gets "Why did I what?" and no lookup. */
  lemma UnknownActionIsNotLookedUp(message: string)
    requires Contains(ToLower(message), WhyPhrase)
    requires |ToLower(message)| >= 12 && StringToEventType(CleanString(ToLower(message)[12..])).None?
    ensures ParseUserMessageToCommand(message).lookup.None?
    ensures ParseUserMessageToCommand(message).replies == [WhyDidIWhat]
  {
  }

  /**
   * The action is read from the fixed index 12, so the same question after a
   * three-letter opening reads the action "oujump" and is not understood.
   */
  lemma WhyAfterOpeningIsMisread(p: string)
    requires p == "so why did you jump"
    ensures ParseUserMessageToCommand(p).lookup.None?
    ensures ParseUserMessageToCommand(p).replies == [WhyDidIWhat]
  {
    OpeningQuestionAction(p);
    OpeningQuestionActionUnknown(ToLower(p)[12..]);
    UnknownActionIsNotLookedUp(p);
  }

  /** After "so ", index 12 falls three characters inside the phrase. */
  lemma OpeningQuestionAction(p: string)
    requires p == "so why did you jump"
    ensures Contains(ToLower(p), WhyPhrase)
    ensures |ToLower(p)| >= 12 && ToLower(p)[12..] == "ou jump"
  {
    ToLowerOfLowerCase(p);
    assert OccursAt(p, WhyPhrase, 3);
  }

  /** "ou jump" cleans to "oujump", which is no keyword. */
  lemma OpeningQuestionActionUnknown(action: string)
    requires action == "ou jump"
    ensures StringToEventType(CleanString(action)).None?
  {
    assert action == "ou" + " jump";
    LettersAppend("ou", " jump");
    assert Letters(action) == "oujump";
    assert StringToEventType("oujump").None?;
  }

  /** The state the chat component's text handling touches. */
  datatype ChatState = ChatState(
    display: seq<string>,        // the lines of the text area
    newAgent: Option<Controller>, // `game.newAgent`, the controller requested last
    lookups: seq<EventType>,     // history lookups requested, oldest first
    input: string)               // the text field

  /**
   * `txtInputActionPerformed`: empty input is ignored; otherwise the input is echoed
   * with "User: ", parsed, and the field is cleared.
   */
  function TxtInputActionPerformed(s: ChatState): (r: ChatState)
    ensures s.input == [] ==> r == s
    ensures s.input != [] ==>
      && r.input == []
      && |s.display| < |r.display| <= |s.display| + 2
      && r.display[..|s.display|] == s.display
      && r.display[|s.display|] == UserPrefix + s.input
      && (forall k :: |s.display| < k < |r.display| ==> IsAgentLine(r.display[k]))
      && |s.lookups| <= |r.lookups| <= |s.lookups| + 1
      && r.lookups[..|s.lookups|] == s.lookups
    ensures s.input != [] ==>
      var reaction := ParseUserMessageToCommand(s.input);
      && r.display == AddMessagesFromAgent(s.display + [UserPrefix + s.input], reaction.replies)
      && r.newAgent == (if reaction.agent.Some? then reaction.agent else s.newAgent)
      && r.lookups == s.lookups + ToSeq(reaction.lookup)
  {
    if s.input == [] then s
    else
      var echoed := s.display + [UserPrefix + s.input];
      var reaction := ParseUserMessageToCommand(s.input);
      var display := AddMessagesFromAgent(echoed, reaction.replies);
      assert |reaction.replies| <= 1;
      assert display[..|s.display|] == echoed[..|s.display|] == s.display;
      assert display[|s.display|] == echoed[|s.display|];
      ChatState(
        display,
        if reaction.agent.Some? then reaction.agent else s.newAgent,
        s.lookups + ToSeq(reaction.lookup),
        [])
  }
}
