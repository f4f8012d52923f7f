/**
 * `engine.chat.MarioChatWorker`: turns game events and the agent's actions into
 * typed chat messages and forwards them through an anti-spam funnel that lets at
 * most one message of each event type through until the funnel is cleared.
 */
module ChatWorker {
  import opened Optional
  import opened Strings
  import opened Game
  import opened Messages
  import opened Display

  const JumpSounds: seq<string> := ["Yahhoo!", "Wahoo", "Hop!"]
  const StompSounds: seq<string> := ["Coming through!", "Sorry about that, *!", "Make way, *!"]

  /** The placeholder `GetRandomMessage` substitutes. */
  const Placeholder: char := '*'

  /**
   * `GetRandomMessage`: the entry at the randomly drawn `index` with every `*`
   * replaced. `java.util.Random.nextInt(length)` becomes the caller's `index`.
   */
  function GetRandomMessage(messageArray: seq<string>, replacement: string, index: nat): (r: string)
    requires index < |messageArray|
    ensures exists i :: 0 <= i < |messageArray| && r == Replace(messageArray[i], Placeholder, replacement)
    ensures Placeholder !in replacement ==> Placeholder !in r
    ensures Placeholder !in messageArray[index] ==> r == messageArray[index]
  {
    Replace(messageArray[index], Placeholder, replacement)
  }

  /** The jump phrases hold no placeholder, so they are used verbatim. */
  lemma JumpSoundsVerbatim(index: nat)
    requires index < |JumpSounds|
    ensures GetRandomMessage(JumpSounds, "", index) == JumpSounds[index]
  {
    assert Placeholder !in JumpSounds[index];
  }

  /** A template with one placeholder between two fixed parts. */
  lemma ReplaceOnePlaceholder(pre: string, post: string, replacement: string)
    requires Placeholder !in pre && Placeholder !in post
    ensures Replace(pre + [Placeholder] + post, Placeholder, replacement) == pre + replacement + post
  {
    var head := pre + [Placeholder];
    ReplaceAppend(head, post, Placeholder, replacement);
    ReplaceAppend(pre, [Placeholder], Placeholder, replacement);
    assert Replace(pre, Placeholder, replacement) == pre;
    assert Replace(post, Placeholder, replacement) == post;
    assert Replace([Placeholder], Placeholder, replacement) == replacement + Replace([], Placeholder, replacement);
    assert Replace(head, Placeholder, replacement) == pre + replacement;
  }

  /** The three stomp phrases, with the subject noun put in place of `*`. */
  lemma StompPhrases(target: string, index: nat)
    requires index < |StompSounds|
    ensures index == 0 ==> GetRandomMessage(StompSounds, target, index) == "Coming through!"
    ensures index == 1 ==> GetRandomMessage(StompSounds, target, index) == "Sorry about that, " + target + "!"
    ensures index == 2 ==> GetRandomMessage(StompSounds, target, index) == "Make way, " + target + "!"
  {
    if index == 1 {
      var pre, post := "Sorry about that, ", "!";
      assert StompSounds[1] == pre + [Placeholder] + post;
      ReplaceOnePlaceholder(pre, post, target);
    } else if index == 2 {
      var pre, post := "Make way, ", "!";
      assert StompSounds[2] == pre + [Placeholder] + post;
      ReplaceOnePlaceholder(pre, post, target);
    } else {
      assert Placeholder !in StompSounds[0];
    }
  }

  /** The noun a stomp message names: the species of the stomped enemy, if known. */
  function StompTarget(c: Codes, param: int): (r: string)
    ensures c.Valid() ==> (r == "Goomba" <==> c.IsGoomba(param))
    ensures c.Valid() ==> (r == "Koopa" <==> c.IsKoopa(param))
    ensures r == "" <==> !c.IsGoomba(param) && !c.IsKoopa(param)
  {
    if param == c.goomba || param == c.goombaWinged then "Goomba"
    else if param == c.redKoopa || param == c.redKoopaWinged
         || param == c.greenKoopa || param == c.greenKoopaWinged then "Koopa"
    else ""
  }

  /** A message without a snapshot, as the two-argument constructor calls build it. */
  function Message(t: EventType, text: string): ChatMessage {
    ChatMessage(Some(t), text, None)
  }

  /**
   * The `switch` in `TransformMarioEventsToMessages` for one event; `pick` is the
   * random index a stomp kill draws. Events that leave `message` null give nothing.
   */
  function ClassifyEvent(c: Codes, e: MarioEvent, pick: nat): (r: Option<ChatMessage>)
    requires pick < |StompSounds|
    ensures r.Some? ==> Typed(r.value) && r.value.kind.value.Value() == e.eventType && r.value.model.None?
  {
    match e.eventType
    case 1 =>
      if e.param == ObsBrick then Some(Message(Bump, if e.marioState > 0 then "Whoops!" else "Ouch!"))
      else None
    case 2 => Some(Message(StompKill, GetRandomMessage(StompSounds, StompTarget(c, e.param), pick)))
    case 3 => Some(Message(FireKill, "Roasted!"))
    case 4 => Some(Message(ShellKill, "Strike!"))
    case 8 =>
      if e.param == c.mushroom then Some(Message(Collect, "Got a mushroom!"))
      else if e.param == c.fireFlower then Some(Message(Collect, "Got a fire flower!"))
      else None
    case 9 => Some(Message(Hurt, "Ouch!!"))
    case 11 => Some(Message(Lose, "Mamma mia!"))
    case _ => None
  }

  /** A bump is narrated only against a brick: "Whoops!" when powered up, "Ouch!" when small. */
  lemma BumpOnlyOnBrick(c: Codes, e: MarioEvent, pick: nat)
    requires pick < |StompSounds| && e.eventType == Bump.Value()
    ensures ClassifyEvent(c, e, pick).Some? <==> e.param == ObsBrick
    ensures e.param == ObsBrick ==>
      ClassifyEvent(c, e, pick) == Some(Message(Bump, if e.marioState > 0 then "Whoops!" else "Ouch!"))
  {
  }

  /** A stomp kill is always narrated, naming a Goomba, a Koopa or nobody. */
  lemma StompAlwaysNarrated(c: Codes, e: MarioEvent, pick: nat)
    requires pick < |StompSounds| && e.eventType == StompKill.Value()
    ensures ClassifyEvent(c, e, pick).Some?
    ensures ClassifyEvent(c, e, pick).value.kind == Some(StompKill)
    ensures var noun := if c.IsGoomba(e.param) then "Goomba" else if c.IsKoopa(e.param) then "Koopa" else "";
      ClassifyEvent(c, e, pick).value.message in
        {"Coming through!", "Sorry about that, " + noun + "!", "Make way, " + noun + "!"}
  {
    StompPhrases(StompTarget(c, e.param), pick);
  }

  /** Only the two power-ups are narrated when collected. */
  lemma CollectOnlyPowerUps(c: Codes, e: MarioEvent, pick: nat)
    requires pick < |StompSounds| && e.eventType == Collect.Value() && c.Valid()
    ensures ClassifyEvent(c, e, pick).Some? <==> e.param == c.fireFlower || e.param == c.mushroom
    ensures e.param == c.fireFlower ==> ClassifyEvent(c, e, pick) == Some(Message(Collect, "Got a fire flower!"))
    ensures e.param == c.mushroom ==> ClassifyEvent(c, e, pick) == Some(Message(Collect, "Got a mushroom!"))
  {
  }

  /** Fire and shell kills, getting hurt and losing have one fixed text each. */
  lemma FixedTexts(c: Codes, e: MarioEvent, pick: nat)
    requires pick < |StompSounds|
    ensures e.eventType == FireKill.Value() ==> ClassifyEvent(c, e, pick) == Some(Message(FireKill, "Roasted!"))
    ensures e.eventType == ShellKill.Value() ==> ClassifyEvent(c, e, pick) == Some(Message(ShellKill, "Strike!"))
    ensures e.eventType == Hurt.Value() ==> ClassifyEvent(c, e, pick) == Some(Message(Hurt, "Ouch!!"))
    ensures e.eventType == Lose.Value() ==> ClassifyEvent(c, e, pick) == Some(Message(Lose, "Mamma mia!"))
  {
    match e.eventType
    case 3 =>
    case 4 =>
    case 9 =>
    case 11 =>
    case _ =>
  }

  /** Fall kills, jumps, landings, kicks, wins and unknown codes are never narrated. */
  lemma SilentEvents(c: Codes, e: MarioEvent, pick: nat)
    requires pick < |StompSounds|
    requires e.eventType !in {Bump.Value(), StompKill.Value(), FireKill.Value(), ShellKill.Value(),
                              Collect.Value(), Hurt.Value(), Lose.Value()}
    ensures ClassifyEvent(c, e, pick).None?
  {
  }

  /** One random index per event, each a valid index into a phrase table. */
  predicate ValidPicks(picks: seq<nat>, n: nat) {
    |picks| == n && forall i :: 0 <= i < |picks| ==> picks[i] < |StompSounds|
  }

  /** The classification of each event with its own index, one entry per event. */
  function Narrations(c: Codes, events: seq<MarioEvent>, picks: seq<nat>): (r: seq<Option<ChatMessage>>)
    requires ValidPicks(picks, |events|)
    ensures |r| == |events|
    ensures forall i :: 0 <= i < |events| ==> r[i] == ClassifyEvent(c, events[i], picks[i])
  {
    seq(|events|, i requires 0 <= i < |events| => ClassifyEvent(c, events[i], picks[i]))
  }

  /** The messages that are present, in order; absent entries are skipped. */
  function Present(opts: seq<Option<ChatMessage>>): (r: seq<ChatMessage>)
    ensures |r| <= |opts|
    ensures forall k :: 0 <= k < |r| ==> exists i :: 0 <= i < |opts| && opts[i] == Some(r[k])
  {
    if opts == [] then []
    else
      var rest := Present(opts[1..]);
      assert forall k :: 0 <= k < |rest| ==> exists i :: 1 <= i < |opts| && opts[i] == Some(rest[k]) by {
        forall k | 0 <= k < |rest| ensures exists i :: 1 <= i < |opts| && opts[i] == Some(rest[k]) {
          var j :| 0 <= j < |opts[1..]| && opts[1..][j] == Some(rest[k]);
          assert opts[j + 1] == Some(rest[k]);
        }
      }
      ToSeq(opts[0]) + rest
  }

  /** Skipping absent entries distributes over concatenation. */
  lemma {:induction false} PresentAppend(x: seq<Option<ChatMessage>>, y: seq<Option<ChatMessage>>)
    ensures Present(x + y) == Present(x) + Present(y)
    decreases |x|
  {
    if x == [] {
      assert x + y == y;
    } else {
      assert (x + y)[0] == x[0] && (x + y)[1..] == x[1..] + y;
      PresentAppend(x[1..], y);
    }
  }

  /** `TransformMarioEventsToMessages`: the messages of the narrated events, in event order. */
  function TransformMarioEventsToMessages(c: Codes, events: seq<MarioEvent>, picks: seq<nat>): (r: seq<ChatMessage>)
    requires ValidPicks(picks, |events|)
    ensures |r| <= |events|
    ensures AllTyped(r)
    ensures forall k :: 0 <= k < |r| ==>
      exists i :: 0 <= i < |events| && ClassifyEvent(c, events[i], picks[i]) == Some(r[k])
  {
    var opts := Narrations(c, events, picks);
    var r := Present(opts);
    assert forall k :: 0 <= k < |r| ==> Typed(r[k]) by {
      forall k | 0 <= k < |r| ensures Typed(r[k]) {
        var i :| 0 <= i < |opts| && opts[i] == Some(r[k]);
        assert ClassifyEvent(c, events[i], picks[i]) == Some(r[k]);
      }
    }
    r
  }

  /**
   * The transformation handles each event on its own and keeps event order: it
   * distributes over concatenation of the event list.
   */
  lemma TransformPreservesOrder(c: Codes, a: seq<MarioEvent>, b: seq<MarioEvent>, pa: seq<nat>, pb: seq<nat>)
    requires ValidPicks(pa, |a|) && ValidPicks(pb, |b|)
    ensures ValidPicks(pa + pb, |a + b|)
    ensures TransformMarioEventsToMessages(c, a + b, pa + pb)
         == TransformMarioEventsToMessages(c, a, pa) + TransformMarioEventsToMessages(c, b, pb)
  {
    ValidPicksAppend(pa, pb, |a|, |b|);
    var na, nb := Narrations(c, a, pa), Narrations(c, b, pb);
    var nab := Narrations(c, a + b, pa + pb);
    forall i | 0 <= i < |nab| ensures nab[i] == (na + nb)[i] {
      if i < |a| {
        assert (a + b)[i] == a[i] && (pa + pb)[i] == pa[i];
      } else {
        assert (a + b)[i] == b[i - |a|] && (pa + pb)[i] == pb[i - |a|];
      }
    }
    assert nab == na + nb;
    PresentAppend(na, nb);
  }

  /** Index lists for two event lists join into one for the joined list. */
  lemma ValidPicksAppend(pa: seq<nat>, pb: seq<nat>, na: nat, nb: nat)
    requires ValidPicks(pa, na) && ValidPicks(pb, nb)
    ensures ValidPicks(pa + pb, na + nb)
  {
    forall i | 0 <= i < |pa + pb|
      ensures (pa + pb)[i] < |StompSounds|
    {
      if i < |pa| { assert (pa + pb)[i] == pa[i]; } else { assert (pa + pb)[i] == pb[i - |pa|]; }
    }
  }

  /** A single event yields exactly its own classification. */
  lemma TransformSingleEvent(c: Codes, e: MarioEvent, pick: nat)
    requires pick < |StompSounds|
    ensures TransformMarioEventsToMessages(c, [e], [pick]) == ToSeq(ClassifyEvent(c, e, pick))
  {
  }

  /**
   * `TransformMarioAgentEventToMessages`: one JUMP message when the jump flag is set,
   * its text a jump phrase used verbatim.
   */
  function TransformMarioAgentEventToMessages(c: Codes, e: AgentEvent, pick: nat): (r: seq<ChatMessage>)
    requires c.jumpAction < |e.actions| && pick < |JumpSounds|
    ensures |r| == if Jumped(c, e) then 1 else 0
    ensures forall k :: 0 <= k < |r| ==>
      r[k].kind == Some(Jump) && r[k].message in JumpSounds && r[k].model.None?
  {
    if e.actions[c.jumpAction] then
      JumpSoundsVerbatim(pick);
      [Message(Jump, GetRandomMessage(JumpSounds, "", pick))]
    else []
  }

  /** `IsMessageDuplicate`: some message in `others` equals `message`, that is, has its type. */
  function IsMessageDuplicate(message: ChatMessage, others: seq<ChatMessage>): (r: bool)
    requires Typed(message) && AllTyped(others)
    ensures r <==> message.kind in Kinds(others)
    decreases |others|
  {
    if others == [] then false
    else if Equals(others[0], message) then true
    else
      assert Kinds(others) == {others[0].kind} + Kinds(others[1..]) by { KindsCons(others); }
      IsMessageDuplicate(message, others[1..])
  }

  /** The set of types occurring in a list of messages. */
  function Kinds(ms: seq<ChatMessage>): set<Option<EventType>> {
    set i | 0 <= i < |ms| :: ms[i].kind
  }

  /** The types of a list are its head's type and the types of its tail. */
  lemma KindsCons(ms: seq<ChatMessage>)
    requires ms != []
    ensures Kinds(ms) == {ms[0].kind} + Kinds(ms[1..])
  {
    forall x | x in Kinds(ms) ensures x in {ms[0].kind} + Kinds(ms[1..]) {
      var i :| 0 <= i < |ms| && ms[i].kind == x;
      if i > 0 { assert ms[1..][i - 1].kind == x; }
    }
    forall x | x in Kinds(ms[1..]) ensures x in Kinds(ms) {
      var i :| 0 <= i < |ms[1..]| && ms[1..][i].kind == x;
      assert ms[i + 1].kind == x;
    }
  }

  /** The types of a concatenation are the types of both parts. */
  lemma KindsAppend(a: seq<ChatMessage>, b: seq<ChatMessage>)
    ensures Kinds(a + b) == Kinds(a) + Kinds(b)
  {
    forall x | x in Kinds(a + b) ensures x in Kinds(a) + Kinds(b) {
      var i :| 0 <= i < |a + b| && (a + b)[i].kind == x;
      if i < |a| { assert a[i].kind == x; } else { assert b[i - |a|].kind == x; }
    }
    forall x | x in Kinds(a) + Kinds(b) ensures x in Kinds(a + b) {
      if x in Kinds(a) {
        var i :| 0 <= i < |a| && a[i].kind == x;
        assert (a + b)[i].kind == x;
      } else {
        var i :| 0 <= i < |b| && b[i].kind == x;
        assert (a + b)[|a| + i].kind == x;
      }
    }
  }

  /** No two messages share a type. */
  predicate DistinctKinds(ms: seq<ChatMessage>) {
    forall i, j :: 0 <= i < j < |ms| ==> ms[i].kind != ms[j].kind
  }

  /** The funnel's state: `recentMessages`, the messages let through since the last clear. */
  datatype Funnel = Funnel(recentMessages: seq<ChatMessage>) {
    /** Every recent message is typed and no two share a type. */
    predicate Valid() {
      AllTyped(recentMessages) && DistinctKinds(recentMessages)
    }
  }

  /** The funnel after a batch, and the texts it forwarded to the chat, in order. */
  datatype IngestResult = IngestResult(funnel: Funnel, shown: seq<string>)

  /**
   * One of the `for` loops of `AddNewEventsToFunnel`: each candidate whose type is
   * not yet among the recent messages (counting those let through earlier in this
   * batch) is shown and remembered; the others are dropped.
   */
  function Ingest(f: Funnel, candidates: seq<ChatMessage>): (r: IngestResult)
    requires AllTyped(f.recentMessages) && AllTyped(candidates)
    ensures AllTyped(r.funnel.recentMessages)
    ensures |f.recentMessages| <= |r.funnel.recentMessages| <= |f.recentMessages| + |candidates|
    ensures r.funnel.recentMessages[..|f.recentMessages|] == f.recentMessages
    ensures |r.shown| == |r.funnel.recentMessages| - |f.recentMessages|
    ensures forall k :: 0 <= k < |r.shown| ==> r.shown[k] == r.funnel.recentMessages[|f.recentMessages| + k].message
    decreases |candidates|
  {
    if candidates == [] then IngestResult(f, [])
    else
      var m := candidates[0];
      if IsMessageDuplicate(m, f.recentMessages) then
        Ingest(f, candidates[1..])
      else
        var grown := f.recentMessages + [m];
        var rest := Ingest(Funnel(grown), candidates[1..]);
        assert rest.funnel.recentMessages[..|grown|] == grown;
        assert rest.funnel.recentMessages[..|f.recentMessages|] == grown[..|f.recentMessages|];
        assert rest.funnel.recentMessages[|f.recentMessages|] == grown[|f.recentMessages|];
        IngestResult(rest.funnel, [m.message] + rest.shown)
  }

  /** After a batch, exactly the old types and the candidates' types are blocked. */
  lemma {:induction false} IngestBlocksCandidateKinds(f: Funnel, candidates: seq<ChatMessage>)
    requires AllTyped(f.recentMessages) && AllTyped(candidates)
    ensures Kinds(Ingest(f, candidates).funnel.recentMessages) == Kinds(f.recentMessages) + Kinds(candidates)
    decreases |candidates|
  {
    if candidates != [] {
      var m := candidates[0];
      KindsCons(candidates);
      if IsMessageDuplicate(m, f.recentMessages) {
        IngestBlocksCandidateKinds(f, candidates[1..]);
      } else {
        KindsAppend(f.recentMessages, [m]);
        KindsCons([m]);
        assert [m][1..] == [];
        IngestBlocksCandidateKinds(Funnel(f.recentMessages + [m]), candidates[1..]);
      }
    }
  }

  /**
   * Every message a batch lets through is one of its candidates, of a type that was
   * not recent, and a valid funnel stays valid.
   */
  lemma {:induction false} IngestAddsOnlyFreshCandidates(f: Funnel, candidates: seq<ChatMessage>)
    requires AllTyped(f.recentMessages) && AllTyped(candidates)
    ensures var after := Ingest(f, candidates).funnel.recentMessages;
      forall k :: |f.recentMessages| <= k < |after| ==>
        after[k] in candidates && after[k].kind !in Kinds(f.recentMessages)
    ensures f.Valid() ==> Ingest(f, candidates).funnel.Valid()
    decreases |candidates|
  {
    if candidates != [] {
      var m := candidates[0];
      var after := Ingest(f, candidates).funnel.recentMessages;
      if IsMessageDuplicate(m, f.recentMessages) {
        IngestAddsOnlyFreshCandidates(f, candidates[1..]);
        assert after == Ingest(f, candidates[1..]).funnel.recentMessages;
        forall k | |f.recentMessages| <= k < |after|
          ensures after[k] in candidates
        {
          assert after[k] in candidates[1..];
        }
      } else {
        var grown := f.recentMessages + [m];
        KindsAppend(f.recentMessages, [m]);
        IngestAddsOnlyFreshCandidates(Funnel(grown), candidates[1..]);
        assert after == Ingest(Funnel(grown), candidates[1..]).funnel.recentMessages;
        assert after[..|grown|] == grown;
        forall k | |f.recentMessages| <= k < |after|
          ensures after[k] in candidates && after[k].kind !in Kinds(f.recentMessages)
        {
          if k == |f.recentMessages| {
            assert after[k] == grown[k] == m;
          } else {
            assert after[k] in candidates[1..];
          }
        }
        if f.Valid() {
          assert Funnel(grown).Valid() by {
            forall i, j | 0 <= i < j < |grown| ensures grown[i].kind != grown[j].kind {
              if j == |f.recentMessages| {
                assert grown[i] == f.recentMessages[i];
              }
            }
          }
        }
      }
    }
  }

  /** A lone candidate is shown exactly when no recent message has its type. */
  lemma IngestOne(f: Funnel, m: ChatMessage)
    requires AllTyped(f.recentMessages) && Typed(m)
    ensures m.kind !in Kinds(f.recentMessages) ==>
      Ingest(f, [m]) == IngestResult(Funnel(f.recentMessages + [m]), [m.message])
    ensures m.kind in Kinds(f.recentMessages) ==> Ingest(f, [m]) == IngestResult(f, [])
  {
    assert [m][1..] == [];
  }

  /**
   * Feeding a batch in two parts is feeding it whole: later candidates are checked
   * against what the earlier ones let through.
   */
  lemma {:induction false} IngestAppend(f: Funnel, a: seq<ChatMessage>, b: seq<ChatMessage>)
    requires AllTyped(f.recentMessages) && AllTyped(a) && AllTyped(b)
    ensures AllTyped(a + b)
    ensures SplitAgrees(f, a, b)
    decreases |a|
  {
    AllTypedAppend(a, b);
    if a == [] {
      assert a + b == b;
    } else if IsMessageDuplicate(a[0], f.recentMessages) {
      assert AllTyped(a[1..]);
      IngestAppend(f, a[1..], b);
      IngestAppendDropStep(f, a, b);
    } else {
      IngestKeep(f, a);
      IngestAppend(Funnel(f.recentMessages + [a[0]]), a[1..], b);
      IngestAppendKeepStep(f, a, b);
    }
  }

  /** Ingesting a+b in one call agrees with ingesting a and then b. */
  predicate SplitAgrees(f: Funnel, a: seq<ChatMessage>, b: seq<ChatMessage>)
    requires AllTyped(f.recentMessages) && AllTyped(a) && AllTyped(b) && AllTyped(a + b)
  {
    var ra := Ingest(f, a);
    var rb := Ingest(ra.funnel, b);
    Ingest(f, a + b) == IngestResult(rb.funnel, ra.shown + rb.shown)
  }

  /** The inductive step of `IngestAppend` when the first candidate is dropped. */
  lemma IngestAppendDropStep(f: Funnel, a: seq<ChatMessage>, b: seq<ChatMessage>)
    requires AllTyped(f.recentMessages) && AllTyped(a) && AllTyped(b) && AllTyped(a + b) && a != []
    requires IsMessageDuplicate(a[0], f.recentMessages)
    requires AllTyped(a[1..]) && AllTyped(a[1..] + b) && SplitAgrees(f, a[1..], b)
    ensures SplitAgrees(f, a, b)
  {
    assert (a + b)[0] == a[0] && (a + b)[1..] == a[1..] + b;
    IngestDrop(f, a);
    IngestDrop(f, a + b);
  }

  /** The inductive step of `IngestAppend` when the first candidate is shown. */
  lemma IngestAppendKeepStep(f: Funnel, a: seq<ChatMessage>, b: seq<ChatMessage>)
    requires AllTyped(f.recentMessages) && AllTyped(a) && AllTyped(b) && AllTyped(a + b) && a != []
    requires !IsMessageDuplicate(a[0], f.recentMessages)
    requires AllTyped(f.recentMessages + [a[0]]) && AllTyped(a[1..]) && AllTyped(a[1..] + b)
    requires SplitAgrees(Funnel(f.recentMessages + [a[0]]), a[1..], b)
    ensures SplitAgrees(f, a, b)
  {
    var m := a[0];
    var ab := a + b;
    assert ab[0] == m && ab[1..] == a[1..] + b;
    var grown := Funnel(f.recentMessages + [m]);
    var rest := Ingest(grown, a[1..]);
    var rb := Ingest(rest.funnel, b);
    var whole := Ingest(grown, a[1..] + b);
    assert whole == IngestResult(rb.funnel, rest.shown + rb.shown);
    IngestKeep(f, a);
    IngestKeep(f, ab);
    ShownConcat(rest, rb, whole, Ingest(f, a), Ingest(f, ab), m.message);
  }

  /** The bookkeeping of the keep step: one shown text in front of both batches. */
  lemma ShownConcat(rest: IngestResult, rb: IngestResult, whole: IngestResult,
                    fa: IngestResult, fab: IngestResult, text: string)
    requires whole == IngestResult(rb.funnel, rest.shown + rb.shown)
    requires fa == IngestResult(rest.funnel, [text] + rest.shown)
    requires fab == IngestResult(whole.funnel, [text] + whole.shown)
    ensures fab == IngestResult(rb.funnel, fa.shown + rb.shown)
  {
    assert [text] + rest.shown + rb.shown == [text] + (rest.shown + rb.shown);
  }

  /** A candidate whose type is recent is dropped. */
  lemma IngestDrop(f: Funnel, candidates: seq<ChatMessage>)
    requires AllTyped(f.recentMessages) && AllTyped(candidates) && candidates != []
    requires IsMessageDuplicate(candidates[0], f.recentMessages)
    ensures AllTyped(candidates[1..])
    ensures Ingest(f, candidates) == Ingest(f, candidates[1..])
  {
    assert AllTyped(candidates[1..]);
  }

  /** A candidate whose type is not recent is shown and remembered before the rest. */
  lemma IngestKeep(f: Funnel, candidates: seq<ChatMessage>)
    requires AllTyped(f.recentMessages) && AllTyped(candidates) && candidates != []
    requires !IsMessageDuplicate(candidates[0], f.recentMessages)
    ensures AllTyped(candidates[1..]) && AllTyped(f.recentMessages + [candidates[0]])
    ensures var rest := Ingest(Funnel(f.recentMessages + [candidates[0]]), candidates[1..]);
      Ingest(f, candidates) == IngestResult(rest.funnel, [candidates[0].message] + rest.shown)
  {
    assert AllTyped(candidates[1..]);
    AllTypedAppend(f.recentMessages, [candidates[0]]);
  }

  /** Two lists of typed messages join into one. */
  lemma AllTypedAppend(a: seq<ChatMessage>, b: seq<ChatMessage>)
    requires AllTyped(a) && AllTyped(b)
    ensures AllTyped(a + b)
  {
    forall i | 0 <= i < |a + b| ensures Typed((a + b)[i]) {
      if i < |a| { assert (a + b)[i] == a[i]; } else { assert (a + b)[i] == b[i - |a|]; }
    }
  }

  /** Whatever the funnel held before, one batch shows each event type at most once. */
  lemma {:induction false} ShownAtMostOncePerType(f: Funnel, candidates: seq<ChatMessage>)
    requires AllTyped(f.recentMessages) && AllTyped(candidates)
    ensures var after := Ingest(f, candidates).funnel.recentMessages;
      DistinctKinds(after[|f.recentMessages|..])
    decreases |candidates|
  {
    if candidates != [] {
      var m := candidates[0];
      assert AllTyped(candidates[1..]);
      var after := Ingest(f, candidates).funnel.recentMessages;
      if IsMessageDuplicate(m, f.recentMessages) {
        ShownAtMostOncePerType(f, candidates[1..]);
        assert after == Ingest(f, candidates[1..]).funnel.recentMessages;
      } else {
        var grown := f.recentMessages + [m];
        var n := |f.recentMessages|;
        AllTypedAppend(f.recentMessages, [m]);
        assert grown[n] == m;
        assert m.kind in Kinds(grown);
        ShownAtMostOncePerType(Funnel(grown), candidates[1..]);
        IngestAddsOnlyFreshCandidates(Funnel(grown), candidates[1..]);
        assert after == Ingest(Funnel(grown), candidates[1..]).funnel.recentMessages;
        assert after[..|grown|] == grown;
        var tail := after[n + 1..];
        assert DistinctKinds(tail);
        assert forall k :: 0 <= k < |tail| ==> tail[k].kind != m.kind by {
          forall k | 0 <= k < |tail| ensures tail[k].kind != m.kind {
            assert tail[k] == after[n + 1 + k];
          }
        }
        var added := after[n..];
        assert added == [m] + tail;
        FreshHeadKeepsDistinct(m, tail);
      }
    }
  }

  /** A message whose type differs from every later one keeps a distinct list distinct. */
  lemma FreshHeadKeepsDistinct(m: ChatMessage, tail: seq<ChatMessage>)
    requires DistinctKinds(tail)
    requires forall k :: 0 <= k < |tail| ==> tail[k].kind != m.kind
    ensures DistinctKinds([m] + tail)
  {
    var ms := [m] + tail;
    forall i, j | 0 <= i < j < |ms| ensures ms[i].kind != ms[j].kind {
      assert ms[j] == tail[j - 1];
      if i > 0 { assert ms[i] == tail[i - 1]; }
    }
  }

  /** The chat worker's per-tick step: the funnel and the chat window after the tick. */
  datatype Tick = Tick(funnel: Funnel, display: seq<string>)

  /**
   * `AddNewEventsToFunnel`: event messages go through the funnel first, then the
   * agent's; every text let through is appended to the chat as a Mario line.
   */
  function AddNewEventsToFunnel(
    c: Codes, f: Funnel, display: seq<string>,
    lastMarioEvents: seq<MarioEvent>, picks: seq<nat>,
    marioAgentEvent: AgentEvent, jumpPick: nat): (r: Tick)
    requires AllTyped(f.recentMessages)
    requires ValidPicks(picks, |lastMarioEvents|)
    requires c.jumpAction < |marioAgentEvent.actions| && jumpPick < |JumpSounds|
    ensures f.Valid() ==> r.funnel.Valid()
    ensures var candidates := TransformMarioEventsToMessages(c, lastMarioEvents, picks)
                            + TransformMarioAgentEventToMessages(c, marioAgentEvent, jumpPick);
      AllTyped(candidates)
      && r.funnel == Ingest(f, candidates).funnel
      && r.display == AddMessagesFromAgent(display, Ingest(f, candidates).shown)
  {
    var eventMessages := TransformMarioEventsToMessages(c, lastMarioEvents, picks);
    var agentMessages := TransformMarioAgentEventToMessages(c, marioAgentEvent, jumpPick);
    var afterEvents := Ingest(f, eventMessages);
    var afterAgent := Ingest(afterEvents.funnel, agentMessages);
    IngestAppend(f, eventMessages, agentMessages);
    IngestAddsOnlyFreshCandidates(f, eventMessages + agentMessages);
    Tick(afterAgent.funnel, AddMessagesFromAgent(display, afterEvents.shown + afterAgent.shown))
  }

  /**
   * The clearing step of `run`: a non-empty funnel is emptied after the refresh
   * interval, and also when the sleep is interrupted; an empty one is left as is.
   */
  function RefreshFunnel(f: Funnel): (r: Funnel)
    ensures r.recentMessages == []
    ensures r.Valid()
  {
    if |f.recentMessages| > 0 then Funnel([]) else f
  }

  /** After a clear every type can be shown again. */
  lemma RefreshReopensEveryType(f: Funnel, m: ChatMessage)
    requires Typed(m)
    ensures Ingest(RefreshFunnel(f), [m]).shown == [m.message]
  {
    IngestOne(RefreshFunnel(f), m);
  }
}
