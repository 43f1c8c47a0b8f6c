/**
 * What the two conversation-context builders share: the chat message as a
 * dictionary that may lack its "role" or "content" key, and Python's
 * negative-index slice `xs[-k:]`.
 */
module Conversation {
  import opened Wrappers
  import opened Numbers

  /** A chat message; a key the dictionary lacks is `None`. */
  datatype Message = Message(role: Option<string>, content: Option<string>)

  /** `a` is what is left of `b` after dropping some leading elements. */
  ghost predicate IsSuffix<T>(a: seq<T>, b: seq<T>)
  {
    |a| <= |b| && a == b[|b| - |a|..]
  }

  /**
   * Python's `xs[-k:]`: for `k > 0` the last `k` elements (all of them when
   * there are fewer); for `k == 0` the whole list, since `-0` is `0`; for
   * `k < 0` the list without its first `-k` elements. The result is always a
   * suffix of `xs`.
   */
  function PyTail<T>(xs: seq<T>, k: int): (r: seq<T>)
    ensures IsSuffix(r, xs)
    ensures k > 0 ==> |r| == Min(k, |xs|)
    ensures k == 0 ==> r == xs
    ensures k < 0 ==> |r| == |xs| - Min(-k, |xs|)
  {
    if k > 0 then xs[|xs| - Min(k, |xs|)..]
    else if k == 0 then xs
    else xs[Min(-k, |xs|)..]
  }

  /** A prefix one element longer is the shorter prefix and that element. */
  lemma TakeOneMore<T>(xs: seq<T>, i: int)
    requires 0 <= i < |xs|
    ensures xs[..i + 1] == xs[..i] + [xs[i]]
  {
    assert xs[..i + 1][..i] == xs[..i];
  }

  /** A line holds a newline only where one of its pieces does. */
  lemma NoNewlineInConcat(a: string, b: string, c: string)
    requires '\n' !in a && '\n' !in b && '\n' !in c
    ensures '\n' !in a + b + c
  {
    assert forall x :: x in a + b + c <==> x in a || x in b || x in c;
  }
}
