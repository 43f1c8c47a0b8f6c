/**
 * The in-memory key/value cache with per-entry expiry (`InMemoryCacheService`).
 *
 * Every entry carries an absolute expiry time, where 0 means "never".
 * Reads check the expiry of the one key they touch and evict it when it has
 * passed; a full sweep of expired entries runs at most once per interval and
 * only as a side effect of `set`. Time is an integer number of seconds passed
 * in by the caller.
 */
module Cache {
  import opened Wrappers

  /** Seconds that must pass between two sweeps (`_cleanup_interval`). */
  const CleanupInterval: int := 300

  /**
   * A cached Python value. `Bool` is kept apart from `Int` because Python
   * counts `True` and `False` as the integers 1 and 0 when incrementing.
   */
  datatype Value = Int(n: int) | Bool(b: bool) | Text(s: string) | Nothing

  /** A stored value and its absolute expiry time; 0 means it never expires. */
  datatype Entry = Entry(value: Value, expiry: int)

  /** `expiry > 0 and current_time > expiry`. */
  predicate Expired(e: Entry, now: int)
  {
    e.expiry > 0 && now > e.expiry
  }

  /** `current_time + expire if expire else 0`: no expiry, or an expiry of 0, gives 0. */
  function ExpiryFor(now: int, expire: Option<int>): int
  {
    if expire.Some? && expire.value != 0 then now + expire.value else 0
  }

  /** What a read at time `now` sees under `key`. */
  function Lookup(entries: map<string, Entry>, key: string, now: int): Option<Value>
  {
    if key in entries && !Expired(entries[key], now) then Some(entries[key].value) else None
  }

  /** The table after a read of `key` at `now`: that key is evicted if it has expired. */
  function EvictIfExpired(entries: map<string, Entry>, key: string, now: int): map<string, Entry>
  {
    if key in entries && Expired(entries[key], now) then entries - {key} else entries
  }

  /** The entries that have expired by `now`. */
  function ExpiredKeys(entries: map<string, Entry>, now: int): set<string>
  {
    set k | k in entries && Expired(entries[k], now)
  }

  /** `_cleanup_expired` at `now`: the new table and the new time of the last sweep. */
  function Cleanup(entries: map<string, Entry>, lastCleanup: int, now: int): (map<string, Entry>, int)
  {
    if now - lastCleanup < CleanupInterval then (entries, lastCleanup)
    else (entries - ExpiredKeys(entries, now), now)
  }

  /** `increment`'s starting point: an int (or bool) value, else 0; the expiry is not consulted. */
  function CounterValue(entries: map<string, Entry>, key: string): int
  {
    if key !in entries then 0
    else match entries[key].value
      case Int(n) => n
      case Bool(b) => if b then 1 else 0
      case _ => 0
  }

  /** The table `set(key, value, expire)` leaves at time `now`. */
  function AfterSet(entries: map<string, Entry>, lastCleanup: int, key: string, value: Value,
                    expire: Option<int>, now: int): map<string, Entry>
  {
    Cleanup(entries, lastCleanup, now).0[key := Entry(value, ExpiryFor(now, expire))]
  }

  /**
   * The round trip of `set` and `get`: right after `set(key, value, expire)`
   * at `now`, a read at any time `t` sees `value` exactly while the entry has
   * not expired, that is while the expiry is not positive or `t` has not passed it.
   */
  lemma SetThenGet(entries: map<string, Entry>, lastCleanup: int, key: string, value: Value,
                   expire: Option<int>, now: int, t: int)
    ensures var x := ExpiryFor(now, expire);
            Lookup(AfterSet(entries, lastCleanup, key, value, expire, now), key, t)
              == if x <= 0 || t <= x then Some(value) else None
  {
  }

  /** A falsy `expire` (none, or 0) stores an entry that is visible at every later time. */
  lemma FalsyExpireNeverExpires(entries: map<string, Entry>, lastCleanup: int, key: string, value: Value,
                                expire: Option<int>, now: int, t: int)
    requires expire == None || expire == Some(0)
    ensures Lookup(AfterSet(entries, lastCleanup, key, value, expire, now), key, t) == Some(value)
  {
  }

  /** The sweep at `now` removes nothing that a read at `now` or later would still see. */
  lemma CleanupInvisible(entries: map<string, Entry>, lastCleanup: int, now: int, key: string, t: int)
    requires now <= t
    ensures Lookup(Cleanup(entries, lastCleanup, now).0, key, t) == Lookup(entries, key, t)
  {
  }

  /** `set` changes what no other key shows to a read at `now` or later. */
  lemma SetLeavesOtherKeys(entries: map<string, Entry>, lastCleanup: int, key: string, value: Value,
                           expire: Option<int>, now: int, other: string, t: int)
    requires other != key && now <= t
    ensures Lookup(AfterSet(entries, lastCleanup, key, value, expire, now), other, t) == Lookup(entries, other, t)
  {
    CleanupInvisible(entries, lastCleanup, now, other, t);
  }

  /** Reading a key does not change what any key shows at the same time. */
  lemma EvictionInvisible(entries: map<string, Entry>, key: string, now: int, other: string)
    ensures Lookup(EvictIfExpired(entries, key, now), other, now) == Lookup(entries, other, now)
  {
  }

  /** The table after one `increment(key, amount)`, and the value it returns. */
  function Bump(entries: map<string, Entry>, key: string, amount: int): (map<string, Entry>, int)
  {
    var n := CounterValue(entries, key) + amount;
    (entries[key := Entry(Int(n), 0)], n)
  }

  /** The values returned by `count` successive calls of `increment(key, amount)`, and the table they leave. */
  function BumpTimes(entries: map<string, Entry>, key: string, amount: int, count: nat): (r: (map<string, Entry>, seq<int>))
    ensures |r.1| == count
    decreases count
  {
    if count == 0 then (entries, [])
    else
      var (m, n) := Bump(entries, key, amount);
      var (m', ns) := BumpTimes(m, key, amount, count - 1);
      (m', [n] + ns)
  }

  /**
   * Counters count: starting from a stored integer `start` (0 for an absent
   * key), the i-th of `count` increments returns `start + (i + 1) * amount`.
   */
  lemma {:induction false} BumpTimesValues(entries: map<string, Entry>, key: string, amount: int, count: nat)
    ensures var ns := BumpTimes(entries, key, amount, count).1;
            forall i :: 0 <= i < count ==> ns[i] == CounterValue(entries, key) + (i + 1) * amount
    decreases count
  {
    if count > 0 {
      var m1 := Bump(entries, key, amount).0;
      var start := CounterValue(entries, key);
      assert CounterValue(m1, key) == start + amount;
      BumpTimesValues(m1, key, amount, count - 1);
      var ns := BumpTimes(entries, key, amount, count).1;
      forall i | 0 <= i < count
        ensures ns[i] == start + (i + 1) * amount
      {
        if i > 0 {
          assert ns[i] == BumpTimes(m1, key, amount, count - 1).1[i - 1];
          assert (start + amount) + i * amount == start + (i + 1) * amount;
        }
      }
    }
  }

  /**
   * After `count > 0` increments the counter is stored as
   * `start + count * amount` with no expiry, and no other key has changed.
   */
  lemma {:induction false} BumpTimesTable(entries: map<string, Entry>, key: string, amount: int, count: nat)
    requires count > 0
    ensures BumpTimes(entries, key, amount, count).0
            == entries[key := Entry(Int(CounterValue(entries, key) + count * amount), 0)]
    decreases count
  {
    if count > 1 {
      var m1 := Bump(entries, key, amount).0;
      var start := CounterValue(entries, key);
      assert CounterValue(m1, key) == start + amount;
      BumpTimesTable(m1, key, amount, count - 1);
      assert (start + amount) + (count - 1) * amount == start + count * amount;
      assert m1[key := Entry(Int(start + count * amount), 0)]
             == entries[key := Entry(Int(start + count * amount), 0)];
    }
  }

  /** `increment(key)` called N times on an absent key returns N. */
  lemma IncrementFromAbsent(entries: map<string, Entry>, key: string, count: nat)
    requires key !in entries
    requires count > 0
    ensures BumpTimes(entries, key, 1, count).1[count - 1] == count
  {
    BumpTimesValues(entries, key, 1, count);
  }

  /** `get_stats`'s answer. */
  datatype CacheStats = CacheStats(totalKeys: int, expiredKeys: int, lastCleanup: int)

  class CacheService {
    var entries: map<string, Entry>
    var lastCleanup: int

    constructor (now: int)
      ensures entries == map[] && lastCleanup == now
    {
      entries := map[];
      lastCleanup := now;
    }

    /** `_cleanup_expired`: the gated sweep that drops every expired entry. */
    method CleanupExpired(now: int)
      modifies this
      ensures (entries, lastCleanup) == Cleanup(old(entries), old(lastCleanup), now)
    {
      if now - lastCleanup < CleanupInterval {
        return;
      }
      var expiredKeys: seq<string> := [];
      var pending := entries.Keys;
      while pending != {}
        invariant pending <= entries.Keys
        invariant forall k :: k in expiredKeys <==> k in entries && k !in pending && Expired(entries[k], now)
        decreases pending
      {
        var key :| key in pending;
        if Expired(entries[key], now) {
          expiredKeys := expiredKeys + [key];
        }
        pending := pending - {key};
      }
      ghost var start := entries;
      for i := 0 to |expiredKeys|
        invariant entries == start - (set j | 0 <= j < i :: expiredKeys[j])
      {
        assert (set j | 0 <= j < i + 1 :: expiredKeys[j]) == (set j | 0 <= j < i :: expiredKeys[j]) + {expiredKeys[i]};
        entries := entries - {expiredKeys[i]};
      }
      assert (set j | 0 <= j < |expiredKeys| :: expiredKeys[j]) == ExpiredKeys(start, now) by {
        forall k ensures k in ExpiredKeys(start, now) ==> k in (set j | 0 <= j < |expiredKeys| :: expiredKeys[j]) {
          if k in ExpiredKeys(start, now) {
            var j :| 0 <= j < |expiredKeys| && expiredKeys[j] == k;
          }
        }
      }
      lastCleanup := now;
    }

    /** `set(key, value, expire)` at `now`; it always reports success. */
    method Set(key: string, value: Value, expire: Option<int>, now: int) returns (ok: bool)
      modifies this
      ensures ok
      ensures entries == AfterSet(old(entries), old(lastCleanup), key, value, expire, now)
      ensures lastCleanup == Cleanup(old(entries), old(lastCleanup), now).1
    {
      var expiry := if expire.Some? && expire.value != 0 then now + expire.value else 0;
      CleanupExpired(now);
      entries := entries[key := Entry(value, expiry)];
      return true;
    }

    /** `get(key, default)` at `now`: the live value, or `default`, evicting the key if it has expired. */
    method Get(key: string, default: Value, now: int) returns (v: Value)
      modifies this
      ensures v == Lookup(old(entries), key, now).GetOr(default)
      ensures entries == EvictIfExpired(old(entries), key, now)
      ensures lastCleanup == old(lastCleanup)
    {
      if key !in entries {
        return default;
      }
      var e := entries[key];
      if e.expiry > 0 && now > e.expiry {
        entries := entries - {key};
        return default;
      }
      return e.value;
    }

    /** `delete(key)`: true exactly when the key was present; only that key goes. */
    method Delete(key: string) returns (removed: bool)
      modifies this
      ensures removed == (key in old(entries))
      ensures entries == old(entries) - {key}
      ensures lastCleanup == old(lastCleanup)
    {
      if key in entries {
        entries := entries - {key};
        return true;
      }
      return false;
    }

    /** `exists(key)` at `now`: true exactly when `get` would return the stored value. */
    method Exists(key: string, now: int) returns (present: bool)
      modifies this
      ensures present == Lookup(old(entries), key, now).Some?
      ensures entries == EvictIfExpired(old(entries), key, now)
      ensures lastCleanup == old(lastCleanup)
    {
      if key !in entries {
        return false;
      }
      var e := entries[key];
      if e.expiry > 0 && now > e.expiry {
        entries := entries - {key};
        return false;
      }
      return true;
    }

    /** `increment(key, amount)`: the old counter plus `amount`, stored with no expiry. */
    method Increment(key: string, amount: int) returns (n: int)
      modifies this
      ensures (entries, n) == Bump(old(entries), key, amount)
      ensures lastCleanup == old(lastCleanup)
    {
      var current := 0;
      if key in entries {
        var e := entries[key];
        match e.value {
          case Int(i) => current := i;
          case Bool(b) => current := if b then 1 else 0;
          case _ =>
        }
      }
      n := current + amount;
      entries := entries[key := Entry(Int(n), 0)];
    }

    /** `clear()`: drops every entry. */
    method Clear()
      modifies this
      ensures entries == map[]
      ensures lastCleanup == old(lastCleanup)
    {
      entries := map[];
    }

    /** `get_stats` at `now`: the number of entries and of those already expired. */
    method GetStats(now: int) returns (stats: CacheStats)
      ensures stats == CacheStats(|entries|, |ExpiredKeys(entries, now)|, lastCleanup)
    {
      var expired := 0;
      var pending := entries.Keys;
      while pending != {}
        invariant pending <= entries.Keys
        invariant expired == |ExpiredKeys(entries, now) - pending|
        decreases pending
      {
        var key :| key in pending;
        ghost var before := ExpiredKeys(entries, now) - pending;
        if Expired(entries[key], now) {
          assert ExpiredKeys(entries, now) - (pending - {key}) == before + {key};
          expired := expired + 1;
        } else {
          assert ExpiredKeys(entries, now) - (pending - {key}) == before;
        }
        pending := pending - {key};
      }
      assert ExpiredKeys(entries, now) - {} == ExpiredKeys(entries, now);
      stats := CacheStats(|entries|, expired, lastCleanup);
    }
  }
}
