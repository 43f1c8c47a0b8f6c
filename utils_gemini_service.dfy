/**
 * The conversation-context builder of the utilities' Gemini service
 * (`GeminiService.get_conversation_context` in `utils/gemini_service.py`).
 *
 * It keeps the most recent messages, renders each as "Human: ..." or
 * "Assistant: ..." and joins them with newlines. Its message indexing is
 * strict: a selected message without a "role" or a "content" key raises
 * `KeyError`, which the model returns as `None`. The environment's
 * `MAX_CONTEXT_MESSAGES` setting is passed in as `envMaxContext`.
 */
module UtilsGeminiService {
  import opened Wrappers
  import opened Text
  import opened Conversation
  import opened Numbers

  /** The label of a message: "Human" for the role "user", "Assistant" for any other role. */
  function RoleLabel(role: string): string
  {
    if role == "user" then "Human" else "Assistant"
  }

  /** A message with both keys, so that indexing it raises nothing. */
  predicate Complete(m: Message)
  {
    m.role.Some? && m.content.Some?
  }

  /** Messages that are all complete. */
  predicate AllComplete(ms: seq<Message>)
  {
    forall j :: 0 <= j < |ms| ==> Complete(ms[j])
  }

  /** The rendered line of a complete message. */
  function Line(m: Message): string
    requires Complete(m)
  {
    RoleLabel(m.role.value) + ": " + m.content.value
  }

  /** The rendered lines of complete messages, one per message and in the same order. */
  function Lines(ms: seq<Message>): (lines: seq<string>)
    requires AllComplete(ms)
    ensures |lines| == |ms|
    ensures forall j :: 0 <= j < |ms| ==> lines[j] == Line(ms[j])
  {
    if |ms| == 0 then [] else Lines(ms[..|ms| - 1]) + [Line(ms[|ms| - 1])]
  }

  /** Rendering one more complete message appends its line. */
  lemma LinesSnoc(ms: seq<Message>, m: Message)
    requires AllComplete(ms) && Complete(m)
    ensures AllComplete(ms + [m])
    ensures Lines(ms + [m]) == Lines(ms) + [Line(m)]
  {
    assert (ms + [m])[..|ms|] == ms;
  }

  /** The messages kept: `messages[-k:]` when there are more than `k`, else all of them. */
  function Recent(messages: seq<Message>, k: int): seq<Message>
  {
    if |messages| > k then PyTail(messages, k) else messages
  }

  /** The length guard changes nothing: the messages kept are exactly `messages[-k:]`. */
  lemma RecentIsTail(messages: seq<Message>, k: int)
    ensures Recent(messages, k) == PyTail(messages, k)
  {
    if |messages| <= k {
      assert PyTail(messages, k) == messages[0..];
    }
  }

  /**
   * What `get_conversation_context(messages, max_context)` returns; the limit
   * is `max_context`, or the environment's when it is not given.
   */
  function Context(messages: seq<Message>, maxContext: Option<int>, envMaxContext: int): (r: Option<string>)
    ensures |messages| == 0 ==> r == Some("")
  {
    if |messages| == 0 then Some("")
    else
      var recent := Recent(messages, maxContext.GetOr(envMaxContext));
      if AllComplete(recent) then Some(Join(Lines(recent), "\n"))
      else None
  }

  /**
   * How many messages are kept: the last `k` when `k` is positive, all of
   * them when `k` is 0, and all but the first `-k` when `k` is negative.
   */
  lemma KeptMessages(messages: seq<Message>, maxContext: Option<int>, envMaxContext: int)
    ensures var k := maxContext.GetOr(envMaxContext);
            var recent := Recent(messages, k);
            && IsSuffix(recent, messages)
            && (k > 0 ==> |recent| == Min(k, |messages|))
            && (k == 0 ==> recent == messages)
            && (k < 0 ==> |recent| == |messages| - Min(-k, |messages|))
  {
    RecentIsTail(messages, maxContext.GetOr(envMaxContext));
  }

  /** A selected message without "role" or "content" makes the call raise. */
  lemma MissingKeyRaises(messages: seq<Message>, maxContext: Option<int>, envMaxContext: int, j: int)
    requires var recent := Recent(messages, maxContext.GetOr(envMaxContext));
             0 <= j < |recent| && !Complete(recent[j])
    ensures Context(messages, maxContext, envMaxContext) == None
  {
  }

  /**
   * The join loses nothing: when no kept content holds a newline, splitting
   * the context at newlines gives one line per kept message, in order, each
   * its label, ": " and its content.
   */
  lemma ContextLines(messages: seq<Message>, maxContext: Option<int>, envMaxContext: int)
    requires var recent := Recent(messages, maxContext.GetOr(envMaxContext));
             && |recent| >= 1
             && AllComplete(recent)
             && (forall j :: 0 <= j < |recent| ==> '\n' !in recent[j].content.value)
    ensures var recent := Recent(messages, maxContext.GetOr(envMaxContext));
            var r := Context(messages, maxContext, envMaxContext);
            r.Some? && Split(r.value, '\n') == Lines(recent)
            && forall j :: 0 <= j < |recent| ==>
                 Split(r.value, '\n')[j] == RoleLabel(recent[j].role.value) + ": " + recent[j].content.value
  {
    var recent := Recent(messages, maxContext.GetOr(envMaxContext));
    var lines := Lines(recent);
    forall j | 0 <= j < |lines| ensures '\n' !in lines[j] {
      NoNewlineInConcat(RoleLabel(recent[j].role.value), ": ", recent[j].content.value);
    }
    SplitJoin(lines, '\n');
  }

  /** `get_conversation_context`: fills the list of lines one message at a time, then joins it. */
  method GetConversationContext(messages: seq<Message>, maxContext: Option<int>, envMaxContext: int)
    returns (r: Option<string>)
    ensures r == Context(messages, maxContext, envMaxContext)
  {
    if |messages| == 0 {
      return Some("");
    }
    var k := if maxContext.None? then envMaxContext else maxContext.value;
    var recent := if |messages| > k then PyTail(messages, k) else messages;
    assert recent == Recent(messages, maxContext.GetOr(envMaxContext));
    var parts: seq<string> := [];
    for i := 0 to |recent|
      invariant AllComplete(recent[..i])
      invariant parts == Lines(recent[..i])
    {
      var msg := recent[i];
      if msg.role.None? || msg.content.None? {
        assert !Complete(recent[i]);
        return None;
      }
      LinesSnoc(recent[..i], msg);
      TakeOneMore(recent, i);
      var role := RoleLabel(msg.role.value);
      parts := parts + [role + ": " + msg.content.value];
    }
    assert recent[..|recent|] == recent;
    r := Some(Join(parts, "\n"));
  }
}
