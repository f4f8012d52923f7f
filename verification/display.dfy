/**
 * The chat window's text area, modelled as the sequence of lines appended to it.
 * Both `MarioChat` classes prefix agent lines with "Mario: " and user lines with "User: ".
 */
module Display {

  const AgentPrefix: string := "Mario: "
  const UserPrefix: string := "User: "

  /** The line `addMessageFromAgent` appends for `text`. */
  function AgentLine(text: string): string {
    AgentPrefix + text
  }

  /** A line written by `addMessageFromAgent`. */
  predicate IsAgentLine(line: string) {
    |AgentPrefix| <= |line| && line[..|AgentPrefix|] == AgentPrefix
  }

  /** Calling `addMessageFromAgent` once per text, in order. */
  function AddMessagesFromAgent(display: seq<string>, texts: seq<string>): (r: seq<string>)
    ensures |r| == |display| + |texts|
    ensures r[..|display|] == display
    ensures forall k :: 0 <= k < |texts| ==> r[|display| + k] == AgentLine(texts[k])
    ensures forall k :: |display| <= k < |r| ==> IsAgentLine(r[k])
    decreases |texts|
  {
    if texts == [] then display
    else AddMessagesFromAgent(display + [AgentLine(texts[0])], texts[1..])
  }

  /** Appending two batches of agent lines is appending their concatenation. */
  lemma {:induction false} AddMessagesFromAgentAppend(display: seq<string>, a: seq<string>, b: seq<string>)
    ensures AddMessagesFromAgent(AddMessagesFromAgent(display, a), b) == AddMessagesFromAgent(display, a + b)
    decreases |a|
  {
    if a == [] {
      assert a + b == b;
    } else {
      assert (a + b)[0] == a[0] && (a + b)[1..] == a[1..] + b;
      AddMessagesFromAgentAppend(display + [AgentLine(a[0])], a[1..], b);
    }
  }
}
