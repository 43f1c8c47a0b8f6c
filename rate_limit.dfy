/**
 * The in-memory sliding-window rate limiter (`InMemoryRateLimitService`).
 *
 * Each identifier owns the list of timestamps of the requests it was
 * admitted for. A check first runs the interval-gated sweep over all
 * identifiers, then compacts the identifier's own list to the trailing
 * window, and admits (appending `now`) only while the compacted list is
 * shorter than `limit`. Time is an integer number of seconds passed in by
 * the caller.
 */
module RateLimit {
  import opened Numbers

  /** Seconds that must pass between two sweeps (`_cleanup_interval`). */
  const CleanupInterval: int := 300

  // ---------------------------------------------------------------------------
  // Timestamp lists
  // ---------------------------------------------------------------------------

  /** The timestamps strictly later than `cutoff`, in their original order. */
  function After(ts: seq<int>, cutoff: int): (r: seq<int>)
    ensures |r| <= |ts|
  {
    if |ts| == 0 then []
    else After(ts[..|ts| - 1], cutoff) + (if ts[|ts| - 1] > cutoff then [ts[|ts| - 1]] else [])
  }

  /** A timestamp survives compaction exactly when it is later than the cutoff. */
  lemma {:induction false} AfterMember(ts: seq<int>, cutoff: int, x: int)
    ensures x in After(ts, cutoff) <==> x in ts && x > cutoff
  {
    if |ts| > 0 {
      AfterMember(ts[..|ts| - 1], cutoff, x);
      assert ts == ts[..|ts| - 1] + [ts[|ts| - 1]];
    }
  }

  /** Every timestamp that survives compaction is later than the cutoff. */
  lemma {:induction false} AfterAllAbove(ts: seq<int>, cutoff: int)
    ensures forall i :: 0 <= i < |After(ts, cutoff)| ==> After(ts, cutoff)[i] > cutoff
  {
    if |ts| > 0 {
      AfterAllAbove(ts[..|ts| - 1], cutoff);
    }
  }

  /** Compaction distributes over concatenation. */
  lemma {:induction false} AfterAppend(a: seq<int>, b: seq<int>, cutoff: int)
    ensures After(a + b, cutoff) == After(a, cutoff) + After(b, cutoff)
  {
    if |b| > 0 {
      var b' := b[..|b| - 1];
      assert (a + b)[..|a + b| - 1] == a + b';
      AfterAppend(a, b', cutoff);
    } else {
      assert a + b == a;
    }
  }

  /** Compaction keeps each later timestamp as often as it occurs, and no earlier one. */
  lemma {:induction false} AfterMultiset(ts: seq<int>, cutoff: int)
    ensures forall x :: multiset(After(ts, cutoff))[x] == if x > cutoff then multiset(ts)[x] else 0
  {
    if |ts| > 0 {
      assert ts == ts[..|ts| - 1] + [ts[|ts| - 1]];
      AfterMultiset(ts[..|ts| - 1], cutoff);
    }
  }

  /** Compacting twice is compacting once at the later cutoff. */
  lemma {:induction false} AfterTwice(ts: seq<int>, c1: int, c2: int)
    ensures After(After(ts, c1), c2) == After(ts, if c1 >= c2 then c1 else c2)
  {
    if |ts| > 0 {
      var init := ts[..|ts| - 1];
      var last := ts[|ts| - 1];
      AfterTwice(init, c1, c2);
      AfterAppend(After(init, c1), if last > c1 then [last] else [], c2);
    }
  }

  /** `min(ts)` of a non-empty list. */
  function Earliest(ts: seq<int>): (m: int)
    requires |ts| > 0
    ensures m in ts
    ensures forall i :: 0 <= i < |ts| ==> m <= ts[i]
  {
    if |ts| == 1 then ts[0]
    else
      var m' := Earliest(ts[1..]);
      if ts[0] <= m' then ts[0] else m'
  }

  // ---------------------------------------------------------------------------
  // The limiter's state and its two state changes
  // ---------------------------------------------------------------------------

  /** `_requests` and `_last_cleanup`. */
  datatype Limiter = Limiter(requests: map<string, seq<int>>, lastCleanup: int)

  /** The stored list of an identifier, empty when it has none. */
  function Timestamps(requests: map<string, seq<int>>, id: string): seq<int>
  {
    if id in requests then requests[id] else []
  }

  /** Every list compacted to `cutoff`; identifiers left with nothing are dropped. */
  function Sweep(requests: map<string, seq<int>>, cutoff: int): map<string, seq<int>>
  {
    map k | k in requests && After(requests[k], cutoff) != [] :: After(requests[k], cutoff)
  }

  /** A map with exactly the sweep's identifiers and lists is the sweep. */
  lemma SweepByKeys(m: map<string, seq<int>>, requests: map<string, seq<int>>, cutoff: int)
    requires forall k :: k in m <==> k in requests && After(requests[k], cutoff) != []
    requires forall k :: k in m ==> m[k] == After(requests[k], cutoff)
    ensures m == Sweep(requests, cutoff)
  {
  }

  /** After a sweep, every identifier's view is its old list compacted to the cutoff. */
  lemma SweepTimestamps(requests: map<string, seq<int>>, cutoff: int, id: string)
    ensures Timestamps(Sweep(requests, cutoff), id) == After(Timestamps(requests, id), cutoff)
  {
  }

  /**
   * `_cleanup_expired` at time `now`: nothing happens unless the interval has
   * passed since the last sweep; otherwise every list is compacted with the
   * module-wide `sweepWindow` (not the per-call window).
   */
  function Cleanup(s: Limiter, now: int, sweepWindow: int): Limiter
  {
    if now - s.lastCleanup < CleanupInterval then s
    else Limiter(Sweep(s.requests, now - sweepWindow), now)
  }

  /** The outcome of `is_rate_limited` and the state it leaves. */
  datatype Decision = Decision(limited: bool, state: Limiter)

  /** `is_rate_limited(id, limit, window)` at time `now`. */
  function Check(s: Limiter, sweepWindow: int, id: string, limit: int, window: int, now: int): Decision
  {
    var swept := Cleanup(s, now, sweepWindow);
    var kept := After(Timestamps(swept.requests, id), now - window);
    if |kept| >= limit then Decision(true, swept.(requests := swept.requests[id := kept]))
    else Decision(false, swept.(requests := swept.requests[id := kept + [now]]))
  }

  /**
   * The cutoff a check effectively applies to the checked identifier's stored
   * list: the start of its own trailing window, or the start of the sweep
   * window when a sweep runs first and that window is the shorter one.
   */
  function CheckCutoff(s: Limiter, sweepWindow: int, window: int, now: int): int
  {
    if now - s.lastCleanup < CleanupInterval || window <= sweepWindow then now - window
    else now - sweepWindow
  }

  /** What the gated sweep followed by the check's own compaction leaves of the identifier's list. */
  lemma CleanupThenCompact(s: Limiter, sweepWindow: int, id: string, window: int, now: int)
    ensures After(Timestamps(Cleanup(s, now, sweepWindow).requests, id), now - window)
         == After(Timestamps(s.requests, id), CheckCutoff(s, sweepWindow, window, now))
  {
    CleanupTimestamps(s, now, sweepWindow, id);
    if now - s.lastCleanup >= CleanupInterval {
      AfterTwice(Timestamps(s.requests, id), now - sweepWindow, now - window);
    }
  }

  /**
   * What one check does to the checked identifier's list: it keeps only the
   * timestamps after the effective cutoff, plus `now` exactly when it was
   * admitted; a call is refused exactly when those kept timestamps already
   * number `limit`.
   */
  lemma CheckEffect(s: Limiter, sweepWindow: int, id: string, limit: int, window: int, now: int)
    ensures var d := Check(s, sweepWindow, id, limit, window, now);
            var kept := After(Timestamps(s.requests, id), CheckCutoff(s, sweepWindow, window, now));
            && id in d.state.requests
            && (d.limited <==> |kept| >= limit)
            && d.state.requests[id] == (if d.limited then kept else kept + [now])
  {
    CleanupThenCompact(s, sweepWindow, id, window, now);
    CheckOwnList(s, sweepWindow, id, limit, window, now);
  }

  /** Every other identifier is touched only by the gated sweep, and the sweep time is the sweep's. */
  lemma CheckLeavesOthers(s: Limiter, sweepWindow: int, id: string, limit: int, window: int, now: int)
    ensures var d := Check(s, sweepWindow, id, limit, window, now);
            var swept := Cleanup(s, now, sweepWindow);
            && d.state.lastCleanup == swept.lastCleanup
            && (forall k :: k != id ==> (k in d.state.requests <==> k in swept.requests))
            && (forall k :: k != id && k in d.state.requests ==> d.state.requests[k] == swept.requests[k])
  {
  }

  /** With a limit of zero or less every call is refused. */
  lemma NonPositiveLimitAlwaysRejects(s: Limiter, sweepWindow: int, id: string, limit: int, window: int, now: int)
    requires limit <= 0
    ensures Check(s, sweepWindow, id, limit, window, now).limited
  {
  }

  /**
   * An admitted call appends exactly one timestamp, `now`, to the compacted
   * list, and the list then holds at most `limit` timestamps.
   */
  lemma {:induction false} AdmittedCallAppendsNow(s: Limiter, sweepWindow: int, id: string, limit: int, window: int, now: int)
    requires !Check(s, sweepWindow, id, limit, window, now).limited
    ensures var r := Check(s, sweepWindow, id, limit, window, now).state.requests[id];
            && |r| <= limit
            && r[|r| - 1] == now
            && (forall i :: 0 <= i < |r| - 1 ==> r[i] > now - window)
  {
    AfterAllAbove(Timestamps(Cleanup(s, now, sweepWindow).requests, id), now - window);
  }

  /** An identifier with no stored requests is admitted by any positive limit. */
  lemma UnknownIdentifierAdmitted(s: Limiter, sweepWindow: int, id: string, limit: int, window: int, now: int)
    requires id !in s.requests
    requires limit >= 1
    ensures !Check(s, sweepWindow, id, limit, window, now).limited
    ensures Check(s, sweepWindow, id, limit, window, now).state.requests[id] == [now]
  {
    SweepTimestamps(s.requests, now - sweepWindow, id);
  }

  // ---------------------------------------------------------------------------
  // The sliding-window guarantee over a run of calls
  // ---------------------------------------------------------------------------

  /** How many of the timestamps in `h` fall in the trailing window `(u - window, u]`. */
  function CountWithin(h: seq<int>, u: int, window: int): nat
  {
    if |h| == 0 then 0
    else CountWithin(h[..|h| - 1], u, window) + (if u - window < h[|h| - 1] <= u then 1 else 0)
  }

  lemma CountWithinAppend(h: seq<int>, x: int, u: int, window: int)
    ensures CountWithin(h + [x], u, window) == CountWithin(h, u, window) + (if u - window < x <= u then 1 else 0)
  {
    assert (h + [x])[..|h|] == h;
  }

  /**
   * When nothing in `h` is later than `t`, any trailing window ending at or
   * after `t` holds no more of `h` than the window ending at `t` does.
   */
  lemma {:induction false} CountWithinLater(h: seq<int>, t: int, u: int, window: int)
    requires forall i :: 0 <= i < |h| ==> h[i] <= t
    requires t <= u
    ensures CountWithin(h, u, window) <= |After(h, t - window)|
  {
    if |h| > 0 {
      CountWithinLater(h[..|h| - 1], t, u, window);
    }
  }

  /** Nothing at or after `x` lies in a window ending before `x`. */
  lemma CountWithinEarlier(h: seq<int>, x: int, u: int, window: int)
    requires u < x
    ensures CountWithin(h + [x], u, window) == CountWithin(h, u, window)
  {
    CountWithinAppend(h, x, u, window);
  }

  function Bound(limit: int): nat { if limit < 0 then 0 else limit }

  /** No trailing `window` of the history holds more than `limit` admissions. */
  ghost predicate WithinLimit(history: seq<int>, limit: int, window: int)
  {
    forall u :: CountWithin(history, u, window) <= Bound(limit)
  }

  /**
   * The invariant of one identifier's list over a run: `history` is the list
   * of times it was admitted, none later than `t`; the stored list agrees
   * with the history on the trailing window ending at `t`; and no trailing
   * window of the history holds more than `limit` admissions.
   */
  ghost predicate ListInvariant(stored: seq<int>, history: seq<int>, t: int, limit: int, window: int)
  {
    && (forall i :: 0 <= i < |history| ==> history[i] <= t)
    && After(stored, t - window) == After(history, t - window)
    && WithinLimit(history, limit, window)
  }

  ghost predicate WindowInvariant(s: Limiter, id: string, history: seq<int>, t: int, limit: int, window: int)
  {
    ListInvariant(Timestamps(s.requests, id), history, t, limit, window)
  }

  /** What the gated sweep leaves of one identifier's list. */
  lemma CleanupTimestamps(s: Limiter, now: int, sweepWindow: int, id: string)
    ensures Timestamps(Cleanup(s, now, sweepWindow).requests, id)
         == if now - s.lastCleanup < CleanupInterval then Timestamps(s.requests, id)
            else After(Timestamps(s.requests, id), now - sweepWindow)
  {
    if now - s.lastCleanup >= CleanupInterval {
      SweepTimestamps(s.requests, now - sweepWindow, id);
    }
  }

  /** A list that agrees with the history on a window agrees with it on every later window. */
  lemma WindowViewLater(ts: seq<int>, history: seq<int>, t: int, now: int, window: int)
    requires t <= now
    requires After(ts, t - window) == After(history, t - window)
    ensures After(ts, now - window) == After(history, now - window)
  {
    var a := t - window;
    var b := now - window;
    calc {
      After(ts, b);
      { AfterTwice(ts, a, b); }
      After(After(ts, a), b);
      After(After(history, a), b);
      { AfterTwice(history, a, b); }
      After(history, b);
    }
  }

  /** Compacting to a cutoff no later than the window's start leaves the window as it was. */
  lemma CompactedWindowView(ts: seq<int>, cutoff: int, now: int, window: int)
    requires cutoff <= now - window
    ensures After(After(ts, cutoff), now - window) == After(ts, now - window)
  {
    AfterTwice(ts, cutoff, now - window);
  }

  /** The gated sweep at a later time keeps an identifier's view of its window. */
  lemma CleanupKeepsWindowView(s: Limiter, sweepWindow: int, id: string, history: seq<int>,
                               t: int, now: int, window: int)
    requires window <= sweepWindow && t <= now
    requires After(Timestamps(s.requests, id), t - window) == After(history, t - window)
    ensures After(Timestamps(Cleanup(s, now, sweepWindow).requests, id), now - window) == After(history, now - window)
  {
    var ts := Timestamps(s.requests, id);
    CleanupTimestamps(s, now, sweepWindow, id);
    WindowViewLater(ts, history, t, now, window);
    if now - s.lastCleanup >= CleanupInterval {
      CompactedWindowView(ts, now - sweepWindow, now, window);
    }
  }

  /** The checked identifier's list after a check, and when the check refuses. */
  lemma CheckOwnList(s: Limiter, sweepWindow: int, id: string, limit: int, window: int, now: int)
    ensures var d := Check(s, sweepWindow, id, limit, window, now);
            var kept := After(Timestamps(Cleanup(s, now, sweepWindow).requests, id), now - window);
            && (d.limited <==> |kept| >= limit)
            && Timestamps(d.state.requests, id) == (if d.limited then kept else kept + [now])
  {
  }

  /**
   * Admitting one more request at `now`, when the window ending at `now`
   * still had room, keeps every trailing window within the bound.
   */
  lemma {:induction false} AdmissionKeepsCount(history: seq<int>, now: int, limit: int, window: int)
    requires forall i :: 0 <= i < |history| ==> history[i] <= now
    requires |After(history, now - window)| < limit
    requires WithinLimit(history, limit, window)
    ensures WithinLimit(history + [now], limit, window)
  {
    forall u
      ensures CountWithin(history + [now], u, window) <= Bound(limit)
    {
      if u < now {
        CountWithinEarlier(history, now, u, window);
      } else {
        CountWithinAppend(history, now, u, window);
        CountWithinLater(history, now, u, window);
      }
    }
  }

  /**
   * A refusing step on a list that agrees with the history on the window
   * ending at `now`: the compacted list satisfies the invariant at `now`.
   */
  lemma RefusedStepKeepsInvariant(swept: seq<int>, history: seq<int>, t: int, now: int, limit: int, window: int)
    requires t <= now
    requires forall i :: 0 <= i < |history| ==> history[i] <= t
    requires After(swept, now - window) == After(history, now - window)
    requires WithinLimit(history, limit, window)
    ensures ListInvariant(After(swept, now - window), history, now, limit, window)
  {
    AfterTwice(swept, now - window, now - window);
  }

  /**
   * An admitting step on a list that agrees with the history on the window
   * ending at `now`, when that window holds fewer than `limit` timestamps: the
   * compacted list with `now` appended satisfies the invariant at `now`, for
   * the history with `now` appended.
   */
  lemma AdmittedStepKeepsInvariant(swept: seq<int>, history: seq<int>, t: int, now: int, limit: int, window: int)
    requires t <= now
    requires forall i :: 0 <= i < |history| ==> history[i] <= t
    requires After(swept, now - window) == After(history, now - window)
    requires |After(swept, now - window)| < limit
    requires WithinLimit(history, limit, window)
    ensures ListInvariant(After(swept, now - window) + [now], history + [now], now, limit, window)
  {
    var c := now - window;
    var kept := After(swept, c);
    var tail := After([now], c);
    assert After(kept + [now], c) == kept + tail by {
      AfterTwice(swept, c, c);
      AfterAppend(kept, [now], c);
    }
    assert After(history + [now], c) == kept + tail by {
      AfterAppend(history, [now], c);
    }
    assert forall i :: 0 <= i < |history + [now]| ==> (history + [now])[i] <= now by {
      forall i | 0 <= i < |history + [now]| ensures (history + [now])[i] <= now {
        if i < |history| {
          assert (history + [now])[i] == history[i];
        }
      }
    }
    AdmissionKeepsCount(history, now, limit, window);
  }

  /** A check of the identifier itself keeps the invariant, with `now` added to the history when admitted. */
  lemma {:induction false} CheckKeepsWindowInvariant(s: Limiter, sweepWindow: int, id: string, history: seq<int>,
                                                     t: int, limit: int, window: int, now: int)
    requires window <= sweepWindow && t <= now
    requires WindowInvariant(s, id, history, t, limit, window)
    ensures var d := Check(s, sweepWindow, id, limit, window, now);
            WindowInvariant(d.state, id, if d.limited then history else history + [now], now, limit, window)
  {
    var swept := Timestamps(Cleanup(s, now, sweepWindow).requests, id);
    CleanupKeepsWindowView(s, sweepWindow, id, history, t, now, window);
    CheckOwnList(s, sweepWindow, id, limit, window, now);
    if |After(swept, now - window)| >= limit {
      RefusedStepKeepsInvariant(swept, history, t, now, limit, window);
    } else {
      AdmittedStepKeepsInvariant(swept, history, t, now, limit, window);
    }
  }

  /** A check of another identifier (with any limit and window) keeps the invariant. */
  lemma {:induction false} OtherCheckKeepsWindowInvariant(s: Limiter, sweepWindow: int, other: string, otherLimit: int,
                                                          otherWindow: int, id: string, history: seq<int>,
                                                          t: int, limit: int, window: int, now: int)
    requires other != id
    requires window <= sweepWindow && t <= now
    requires WindowInvariant(s, id, history, t, limit, window)
    ensures WindowInvariant(Check(s, sweepWindow, other, otherLimit, otherWindow, now).state, id, history, now, limit, window)
  {
    var swept := Cleanup(s, now, sweepWindow);
    CleanupKeepsWindowView(s, sweepWindow, id, history, t, now, window);
    assert Timestamps(Check(s, sweepWindow, other, otherLimit, otherWindow, now).state.requests, id)
        == Timestamps(swept.requests, id);
  }

  /** One call to `is_rate_limited`. */
  datatype Call = Call(id: string, limit: int, window: int, now: int)

  /** The answers of a run of calls started in state `s`. */
  function Run(s: Limiter, sweepWindow: int, calls: seq<Call>): (answers: seq<bool>)
    ensures |answers| == |calls|
    decreases |calls|
  {
    if |calls| == 0 then []
    else
      var c := calls[0];
      var d := Check(s, sweepWindow, c.id, c.limit, c.window, c.now);
      [d.limited] + Run(d.state, sweepWindow, calls[1..])
  }

  /** The times of the calls for `id` that were admitted. */
  function Admitted(calls: seq<Call>, answers: seq<bool>, id: string): seq<int>
    requires |answers| == |calls|
  {
    if |calls| == 0 then []
    else (if calls[0].id == id && !answers[0] then [calls[0].now] else []) + Admitted(calls[1..], answers[1..], id)
  }

  ghost predicate NonDecreasing(calls: seq<Call>)
  {
    forall i, j :: 0 <= i < j < |calls| ==> calls[i].now <= calls[j].now
  }

  ghost predicate UsesLimitFor(calls: seq<Call>, id: string, limit: int, window: int)
  {
    forall i :: 0 <= i < |calls| && calls[i].id == id ==> calls[i].limit == limit && calls[i].window == window
  }

  lemma {:induction false} RunKeepsWindowInvariant(s: Limiter, sweepWindow: int, calls: seq<Call>, id: string,
                                                   history: seq<int>, t: int, limit: int, window: int)
    requires window <= sweepWindow
    requires WindowInvariant(s, id, history, t, limit, window)
    requires NonDecreasing(calls) && UsesLimitFor(calls, id, limit, window)
    requires forall i :: 0 <= i < |calls| ==> t <= calls[i].now
    ensures WithinLimit(history + Admitted(calls, Run(s, sweepWindow, calls), id), limit, window)
    decreases |calls|
  {
    var answers := Run(s, sweepWindow, calls);
    if |calls| == 0 {
      assert history + Admitted(calls, answers, id) == history;
    } else {
      var c := calls[0];
      var d := Check(s, sweepWindow, c.id, c.limit, c.window, c.now);
      var h' := if c.id == id && !d.limited then history + [c.now] else history;
      if c.id == id {
        CheckKeepsWindowInvariant(s, sweepWindow, id, history, t, limit, window, c.now);
      } else {
        OtherCheckKeepsWindowInvariant(s, sweepWindow, c.id, c.limit, c.window, id, history, t, limit, window, c.now);
      }
      var rest := calls[1..];
      assert answers == [d.limited] + Run(d.state, sweepWindow, rest);
      assert answers[1..] == Run(d.state, sweepWindow, rest);
      assert NonDecreasing(rest) && UsesLimitFor(rest, id, limit, window);
      assert forall i :: 0 <= i < |rest| ==> c.now <= rest[i].now by {
        forall i | 0 <= i < |rest| ensures c.now <= rest[i].now {
          assert rest[i] == calls[i + 1];
        }
      }
      RunKeepsWindowInvariant(d.state, sweepWindow, rest, id, h', c.now, limit, window);
      AdmittedFirst(calls, answers, id, history);
    }
  }

  /** Peeling the first call off a run's admissions. */
  lemma AdmittedFirst(calls: seq<Call>, answers: seq<bool>, id: string, history: seq<int>)
    requires |calls| > 0 && |answers| == |calls|
    ensures history + Admitted(calls, answers, id)
         == (if calls[0].id == id && !answers[0] then history + [calls[0].now] else history)
            + Admitted(calls[1..], answers[1..], id)
  {
    var more := Admitted(calls[1..], answers[1..], id);
    if calls[0].id == id && !answers[0] {
      assert history + ([calls[0].now] + more) == history + [calls[0].now] + more;
    } else {
      assert [] + more == more;
    }
  }

  /**
   * The sliding-window guarantee: over any run at non-decreasing times in
   * which `id` (initially unknown) is always checked with the same `limit`
   * and a `window` no longer than the sweep window, no trailing `window`
   * holds more than `limit` of its admissions.
   */
  lemma SlidingWindowBound(s: Limiter, sweepWindow: int, calls: seq<Call>, id: string, limit: int, window: int)
    requires id !in s.requests
    requires window <= sweepWindow
    requires NonDecreasing(calls) && UsesLimitFor(calls, id, limit, window)
    ensures forall u :: CountWithin(Admitted(calls, Run(s, sweepWindow, calls), id), u, window) <= Bound(limit)
  {
    var t := if |calls| == 0 then 0 else calls[0].now;
    assert WindowInvariant(s, id, [], t, limit, window);
    RunKeepsWindowInvariant(s, sweepWindow, calls, id, [], t, limit, window);
    assert [] + Admitted(calls, Run(s, sweepWindow, calls), id) == Admitted(calls, Run(s, sweepWindow, calls), id);
  }

  /** The first call of `LongWindowOverAdmits`: admitted into an empty table. */
  lemma LongWindowFirstCall()
    ensures Check(Limiter(map[], 0), 10, "a", 1, 1000, 0) == Decision(false, Limiter(map["a" := [0]], 0))
  {
    assert After([], 0 - 1000) == [];
    assert [] + [0] == [0];
  }

  /** The second call of `LongWindowOverAdmits`: the sweep at 300 drops the first timestamp, so it is admitted too. */
  lemma LongWindowSecondCall()
    ensures Check(Limiter(map["a" := [0]], 0), 10, "a", 1, 1000, 300) == Decision(false, Limiter(map["a" := [300]], 300))
  {
    assert Sweep(map["a" := [0]], 290) == map[] by {
      assert After([0], 290) == [];
    }
    assert Cleanup(Limiter(map["a" := [0]], 0), 300, 10) == Limiter(map[], 300);
    assert Timestamps(map[], "a") == [];
    assert After([], 300 - 1000) == [];
    assert [] + [300] == [300];
  }

  /**
   * Why the guarantee needs the window to be no longer than the sweep's: with
   * a sweep window of 10 seconds, a per-call window of 1000 seconds and a
   * limit of 1, calls at 0 and at 300 are both admitted, because the sweep at
   * 300 drops the first timestamp; the window ending at 300 then holds two
   * admissions.
   */
  lemma LongWindowOverAdmits()
    ensures var calls := [Call("a", 1, 1000, 0), Call("a", 1, 1000, 300)];
            var answers := Run(Limiter(map[], 0), 10, calls);
            && answers == [false, false]
            && Admitted(calls, answers, "a") == [0, 300]
            && CountWithin(Admitted(calls, answers, "a"), 300, 1000) == 2 > Bound(1)
  {
    LongWindowRun();
    LongWindowAdmitted();
    assert CountWithin([0, 300], 300, 1000) == 2 by {
      assert [0, 300][..1] == [0];
      assert [0][..0] == [];
    }
  }

  /** The answers of `LongWindowOverAdmits`'s run: both calls admitted. */
  lemma LongWindowRun()
    ensures Run(Limiter(map[], 0), 10, [Call("a", 1, 1000, 0), Call("a", 1, 1000, 300)]) == [false, false]
  {
    var calls := [Call("a", 1, 1000, 0), Call("a", 1, 1000, 300)];
    LongWindowFirstCall();
    LongWindowSecondCall();
    assert calls[1..] == [Call("a", 1, 1000, 300)];
    assert calls[1..][1..] == [];
    assert Run(Limiter(map["a" := [300]], 300), 10, []) == [];
    assert Run(Limiter(map["a" := [0]], 0), 10, calls[1..]) == [false];
  }

  /** The admissions of `LongWindowOverAdmits`'s run. */
  lemma LongWindowAdmitted()
    ensures Admitted([Call("a", 1, 1000, 0), Call("a", 1, 1000, 300)], [false, false], "a") == [0, 300]
  {
    var calls := [Call("a", 1, 1000, 0), Call("a", 1, 1000, 300)];
    var answers := [false, false];
    assert Admitted(calls[2..], answers[2..], "a") == [];
    assert Admitted(calls[1..], answers[1..], "a") == [300];
  }

  // ---------------------------------------------------------------------------
  // Read-only views
  // ---------------------------------------------------------------------------

  /** `get_rate_limit_info`'s answer. */
  datatype RateLimitInfo = RateLimitInfo(current: int, remainingTime: int)

  /** `get_stats`'s answer. */
  datatype LimiterStats = LimiterStats(totalIdentifiers: int, totalRequests: int, lastCleanup: int)

  /** The number of timestamps stored under the given identifiers. */
  ghost function TotalOver(m: map<string, seq<int>>, keys: set<string>): nat
    requires keys <= m.Keys
  {
    if keys == {} then 0
    else
      var k :| k in keys;
      |m[k]| + TotalOver(m, keys - {k})
  }

  /** The number of timestamps stored over all identifiers. */
  ghost function TotalRequests(m: map<string, seq<int>>): nat
  {
    TotalOver(m, m.Keys)
  }

  /** The total does not depend on which identifier is counted first. */
  lemma {:induction false} TotalOverRemove(m: map<string, seq<int>>, keys: set<string>, k: string)
    requires keys <= m.Keys && k in keys
    ensures TotalOver(m, keys) == |m[k]| + TotalOver(m, keys - {k})
  {
    var k' :| k' in keys && TotalOver(m, keys) == |m[k']| + TotalOver(m, keys - {k'});
    if k' != k {
      calc {
        TotalOver(m, keys);
        |m[k']| + TotalOver(m, keys - {k'});
        { TotalOverRemove(m, keys - {k'}, k); }
        |m[k']| + |m[k]| + TotalOver(m, keys - {k'} - {k});
        { assert keys - {k'} - {k} == keys - {k} - {k'}; }
        |m[k]| + (|m[k']| + TotalOver(m, keys - {k} - {k'}));
        { TotalOverRemove(m, keys - {k}, k'); }
        |m[k]| + TotalOver(m, keys - {k});
      }
    }
  }

  // ---------------------------------------------------------------------------
  // The service object
  // ---------------------------------------------------------------------------

  class RateLimiter {
    /** `RATE_LIMIT_WINDOW`, the window the sweep uses. */
    const sweepWindow: int
    var requests: map<string, seq<int>>
    var lastCleanup: int

    constructor (rateLimitWindow: int, now: int)
      ensures sweepWindow == rateLimitWindow
      ensures requests == map[] && lastCleanup == now
    {
      sweepWindow := rateLimitWindow;
      requests := map[];
      lastCleanup := now;
    }

    function State(): Limiter
      reads this
    {
      Limiter(requests, lastCleanup)
    }

    /** `_cleanup_expired`: the gated sweep over all identifiers. */
    method CleanupExpired(now: int)
      modifies this
      ensures State() == Cleanup(old(State()), now, sweepWindow)
    {
      if now - lastCleanup < CleanupInterval {
        return;
      }
      SweepAll(now - sweepWindow);
      lastCleanup := now;
    }

    /** The sweep's two loops: compact every list to `cutoff`, then drop the identifiers left empty. */
    method SweepAll(cutoff: int)
      modifies this
      ensures requests == Sweep(old(requests), cutoff)
      ensures lastCleanup == old(lastCleanup)
    {
      var expiredKeys := CompactAll(cutoff);
      DeleteKeys(expiredKeys);
      SweepByKeys(requests, old(requests), cutoff);
    }

    /** The sweep's first loop: compacts every list and collects the identifiers left empty. */
    method CompactAll(cutoff: int) returns (expiredKeys: seq<string>)
      modifies this
      ensures requests.Keys == old(requests).Keys
      ensures forall k :: k in requests ==> requests[k] == After(old(requests)[k], cutoff)
      ensures forall k :: k in expiredKeys <==> k in old(requests) && After(old(requests)[k], cutoff) == []
      ensures lastCleanup == old(lastCleanup)
    {
      ghost var start := requests;
      expiredKeys := [];
      var pending := requests.Keys;
      while pending != {}
        invariant pending <= start.Keys && requests.Keys == start.Keys
        invariant forall k :: k in pending ==> requests[k] == start[k]
        invariant forall k :: k in start && k !in pending ==> requests[k] == After(start[k], cutoff)
        invariant forall k :: k in expiredKeys <==> k in start && k !in pending && After(start[k], cutoff) == []
        invariant lastCleanup == old(lastCleanup)
        decreases pending
      {
        var key :| key in pending;
        requests := requests[key := After(requests[key], cutoff)];
        if requests[key] == [] {
          expiredKeys := expiredKeys + [key];
        }
        pending := pending - {key};
      }
    }

    /** The sweep's second loop: deletes the given identifiers and nothing else. */
    method DeleteKeys(keys: seq<string>)
      modifies this
      ensures forall k :: k in requests <==> k in old(requests) && k !in keys
      ensures forall k :: k in requests ==> requests[k] == old(requests)[k]
      ensures lastCleanup == old(lastCleanup)
    {
      for i := 0 to |keys|
        invariant forall k :: k in requests <==> k in old(requests) && k !in keys[..i]
        invariant forall k :: k in requests ==> requests[k] == old(requests)[k]
        invariant lastCleanup == old(lastCleanup)
      {
        assert keys[..i + 1] == keys[..i] + [keys[i]];
        requests := requests - {keys[i]};
      }
      assert keys[..|keys|] == keys;
    }

    /** `is_rate_limited(identifier, limit, window)` at time `now`. */
    method IsRateLimited(identifier: string, limit: int, window: int, now: int) returns (limited: bool)
      modifies this
      ensures Decision(limited, State()) == Check(old(State()), sweepWindow, identifier, limit, window, now)
    {
      var cutoff := now - window;
      CleanupExpired(now);
      ghost var swept := State();
      if identifier !in requests {
        requests := requests[identifier := []];
      }
      requests := requests[identifier := After(requests[identifier], cutoff)];
      ghost var kept := After(Timestamps(swept.requests, identifier), now - window);
      assert requests == swept.requests[identifier := kept];
      if |requests[identifier]| >= limit {
        return true;
      }
      requests := requests[identifier := requests[identifier] + [now]];
      return false;
    }

    /**
     * `get_rate_limit_info(identifier, window)`: how many stored timestamps
     * lie in the trailing window and how long until the oldest of them
     * leaves it; both 0 for an unknown identifier or an empty window.
     */
    function GetRateLimitInfo(identifier: string, window: int, now: int): (info: RateLimitInfo)
      reads this
      ensures identifier !in requests ==> info == RateLimitInfo(0, 0)
      ensures identifier in requests ==>
                info.current == |After(requests[identifier], now - window)|
                && (forall t :: t in requests[identifier] && t > now - window <==> t in After(requests[identifier], now - window))
      ensures info.remainingTime >= 0
      ensures info.current == 0 ==> info.remainingTime == 0
      ensures info.current > 0 ==>
                exists oldest :: oldest in requests[identifier] && oldest > now - window
                  && (forall t :: t in requests[identifier] && t > now - window ==> oldest <= t)
                  && info.remainingTime == Max0(window - (now - oldest))
    {
      if identifier !in requests then RateLimitInfo(0, 0)
      else
        var valid := After(requests[identifier], now - window);
        assert forall t :: t in requests[identifier] && t > now - window <==> t in valid by {
          forall t ensures t in requests[identifier] && t > now - window <==> t in valid {
            AfterMember(requests[identifier], now - window, t);
          }
        }
        var remaining := if |valid| > 0 then Max0(window - (now - Earliest(valid))) else 0;
        RateLimitInfo(|valid|, remaining)
    }

    /** `clear_rate_limit(identifier)`: forgets the identifier and nothing else. */
    method ClearRateLimit(identifier: string)
      modifies this
      ensures requests == old(requests) - {identifier}
      ensures lastCleanup == old(lastCleanup)
    {
      if identifier in requests {
        requests := requests - {identifier};
      }
    }

    /** `get_stats`: the number of identifiers and of stored timestamps. */
    method GetStats() returns (stats: LimiterStats)
      ensures stats == LimiterStats(|requests|, TotalRequests(requests), lastCleanup)
    {
      var total := 0;
      var pending := requests.Keys;
      while pending != {}
        invariant pending <= requests.Keys
        invariant total + TotalOver(requests, pending) == TotalRequests(requests)
        decreases pending
      {
        var key :| key in pending;
        TotalOverRemove(requests, pending, key);
        total := total + |requests[key]|;
        pending := pending - {key};
      }
      stats := LimiterStats(|requests|, total, lastCleanup);
    }
  }

  /**
   * The read-only view predicts the next check: `is_rate_limited` refuses
   * exactly when `get_rate_limit_info` reports at least `limit` requests in
   * the window, provided no sweep runs first or the sweep's window is at
   * least as long as the checked one.
   */
  lemma InfoPredictsCheck(l: RateLimiter, id: string, limit: int, window: int, now: int)
    requires now - l.lastCleanup < CleanupInterval || window <= l.sweepWindow
    ensures Check(l.State(), l.sweepWindow, id, limit, window, now).limited
            <==> l.GetRateLimitInfo(id, window, now).current >= limit
  {
    var s := l.State();
    var ts := Timestamps(s.requests, id);
    CleanupThenCompact(s, l.sweepWindow, id, window, now);
    assert l.GetRateLimitInfo(id, window, now).current == |After(ts, now - window)|;
    CheckOwnList(s, l.sweepWindow, id, limit, window, now);
  }
}
