/**
 * The conversation-context builder of the top-level Gemini service
 * (`GeminiService.get_conversation_context` in `gemini_service.py`).
 *
 * It keeps `messages[-max_messages:]`, renders each as "User: ..." or
 * "Assistant: ..." with the content cut to its first 200 characters, and
 * joins the lines with newlines. It reads the keys leniently: a missing role
 * counts as not "user" and a missing content as the empty string.
 */
module GeminiService {
  import opened Wrappers
  import opened Text
  import opened Conversation
  import opened Numbers

  /** The number of content characters a line keeps. */
  const ContentLimit: nat := 200

  /** "User" exactly for the role "user"; any other role, or none, is "Assistant". */
  function RoleLabel(role: Option<string>): string
  {
    if role == Some("user") then "User" else "Assistant"
  }

  /** `s[:n]`: the first `n` characters, or all of `s` when it is shorter. */
  function Truncate(s: string, n: nat): (t: string)
    ensures |t| == Min(n, |s|)
    ensures t == s[..|t|]
  {
    if |s| <= n then s else s[..n]
  }

  /** The rendered line of one message. */
  function Line(m: Message): string
  {
    RoleLabel(m.role) + ": " + Truncate(m.content.GetOr(""), ContentLimit)
  }

  /** The rendered lines of the messages, one per message and in the same order. */
  function Lines(ms: seq<Message>): (lines: seq<string>)
    ensures |lines| == |ms|
    ensures forall j :: 0 <= j < |ms| ==> lines[j] == Line(ms[j])
  {
    if |ms| == 0 then [] else Lines(ms[..|ms| - 1]) + [Line(ms[|ms| - 1])]
  }

  /** What `get_conversation_context(messages, max_messages)` returns. */
  function Context(messages: seq<Message>, maxMessages: int): (r: string)
    ensures |messages| == 0 ==> r == ""
  {
    if |messages| == 0 then "" else Join(Lines(PyTail(messages, maxMessages)), "\n")
  }

  /** No line exceeds the longer label, the separator and 200 content characters. */
  lemma LineBounded(m: Message)
    ensures |Line(m)| <= |"Assistant"| + 2 + ContentLimit
    ensures |Line(m)| >= |"User"| + 2
  {
  }

  /**
   * The join loses nothing: when no kept content holds a newline, splitting
   * the context at newlines gives one line per kept message, in order, each
   * its label, ": " and the first 200 characters of its content.
   */
  lemma ContextLines(messages: seq<Message>, maxMessages: int)
    requires var recent := PyTail(messages, maxMessages);
             && |recent| >= 1
             && (forall j :: 0 <= j < |recent| ==> '\n' !in recent[j].content.GetOr(""))
    ensures var recent := PyTail(messages, maxMessages);
            var lines := Split(Context(messages, maxMessages), '\n');
            && |lines| == |recent|
            && forall j :: 0 <= j < |recent| ==>
                 var c := recent[j].content.GetOr("");
                 lines[j] == RoleLabel(recent[j].role) + ": " + c[..Min(ContentLimit, |c|)]
  {
    var recent := PyTail(messages, maxMessages);
    var lines := Lines(recent);
    forall j | 0 <= j < |lines| ensures '\n' !in lines[j] {
      var c := recent[j].content.GetOr("");
      var t := Truncate(c, ContentLimit);
      assert forall x :: x in t ==> x in c by {
        forall x | x in t ensures x in c {
          var p :| 0 <= p < |t| && t[p] == x;
          assert c[p] == x;
        }
      }
      NoNewlineInConcat(RoleLabel(recent[j].role), ": ", t);
    }
    SplitJoin(lines, '\n');
  }

  /** `get_conversation_context`: fills the list of lines one message at a time, then joins it. */
  method GetConversationContext(messages: seq<Message>, maxMessages: int) returns (r: string)
    ensures r == Context(messages, maxMessages)
  {
    if |messages| == 0 {
      return "";
    }
    var recent := PyTail(messages, maxMessages);
    var parts: seq<string> := [];
    for i := 0 to |recent|
      invariant parts == Lines(recent[..i])
    {
      TakeOneMore(recent, i);
      var msg := recent[i];
      var role := RoleLabel(msg.role);
      var content := msg.content.GetOr("");
      content := if |content| <= ContentLimit then content else content[..ContentLimit];
      parts := parts + [role + ": " + content];
    }
    assert recent[..|recent|] == recent;
    r := Join(parts, "\n");
  }
}
