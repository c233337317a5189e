/** The fixed-window rate limiter. */
module RateLimiting {
  import opened Common

  type Key = string

  // ---------------------------------------------------------------- what it computes, for one key

  /** The window the last of the checks at times `ts` fell into, and how many checks it holds so far. A
      check opens a new window when the previous one is over. */
  datatype Window = Window(start: real, count: nat)

  function Current(window: real, ts: seq<real>): Window
    requires ts != []
  {
    var n := |ts| - 1;
    if n == 0 then Window(ts[0], 1)
    else
      var before := Current(window, ts[..n]);
      if ts[n] >= before.start + window then Window(ts[n], 1) else Window(before.start, before.count + 1)
  }

  predicate Monotone(ts: seq<real>) {
    forall i, j | 0 <= i < j < |ts| :: ts[i] <= ts[j]
  }

  /** Whether the last check is allowed: the 32-bit counter of its window has not passed the limit. */
  predicate Allowed(window: real, limit: nat, ts: seq<real>)
    requires ts != []
  {
    Wrapping(Current(window, ts).count) <= limit
  }

  /** How many checks between `from` and `from + window`, both included, were allowed. */
  function AllowedIn(window: real, limit: nat, ts: seq<real>, from: real): nat {
    if ts == [] then 0
    else
      var n := |ts| - 1;
      AllowedIn(window, limit, ts[..n], from)
      + if from <= ts[n] <= from + window && Allowed(window, limit, ts) then 1 else 0
  }

  lemma {:induction false} CurrentBounds(window: real, ts: seq<real>)
    requires ts != [] && window > 0.0 && Monotone(ts)
    ensures var c := Current(window, ts);
            1 <= c.count <= |ts| && c.start <= ts[|ts| - 1] < c.start + window
  {
    if |ts| > 1 {
      CurrentBounds(window, ts[..|ts| - 1]);
    }
  }

  /** How many allowed checks there can be so far, by where the current window starts. */
  predicate Bounded(window: real, limit: nat, ts: seq<real>, from: real)
    requires ts != []
  {
    var c, n := Current(window, ts), AllowedIn(window, limit, ts, from);
    if c.start < from then n <= Min(c.count, limit) && (c.start + window <= from ==> n == 0)
    else if c.start <= from + window then n <= Min(c.count, limit) + if c.start == from then 0 else limit
    else n <= 2 * limit
  }

  lemma {:induction false} AlwaysBounded(window: real, limit: nat, ts: seq<real>, from: real)
    requires ts != [] && window > 0.0 && Monotone(ts) && |ts| < U32_LIMIT
    ensures Bounded(window, limit, ts, from)
  {
    var n := |ts| - 1;
    CurrentBounds(window, ts);
    if n == 0 {
      assert ts[..n] == [];
    } else {
      CurrentBounds(window, ts[..n]);
      AlwaysBounded(window, limit, ts[..n], from);
    }
  }

  /** With a clock that does not go back, any interval as long as the window has at most twice the limit
      of allowed checks of one key. */
  lemma AtMostTwiceTheLimit(window: real, limit: nat, ts: seq<real>, from: real)
    requires window > 0.0 && Monotone(ts) && |ts| < U32_LIMIT
    ensures AllowedIn(window, limit, ts, from) <= 2 * limit
  {
    if ts != [] {
      AlwaysBounded(window, limit, ts, from);
    }
  }

  /** A window of length zero limits nothing: every check opens its own. */
  lemma {:induction false} ZeroWindowLimitsNothing(limit: nat, ts: seq<real>)
    requires ts != [] && Monotone(ts)
    ensures Current(0.0, ts) == Window(ts[|ts| - 1], 1)
    ensures Allowed(0.0, limit, ts) <==> limit >= 1
  {
    if |ts| > 1 {
      ZeroWindowLimitsNothing(limit, ts[..|ts| - 1]);
    }
  }

  /** `a` checks at time zero and `b` checks one window later. */
  function TwoBursts(window: real, a: nat, b: nat): seq<real> {
    seq(a, _ => 0.0) + seq(b, _ => window)
  }

  lemma SmallCount(window: real, limit: u32, ts: seq<real>)
    requires ts != [] && Current(window, ts).count <= limit
    ensures Allowed(window, limit, ts)
  {
    hide Current;
  }

  lemma {:induction false} BurstsAllowed(window: real, limit: u32, a: nat, b: nat)
    requires window > 0.0 && 1 <= a <= limit && b <= limit
    ensures var ts := TwoBursts(window, a, b);
            && Current(window, ts) == (if b == 0 then Window(0.0, a) else Window(window, b))
            && AllowedIn(window, limit, ts, 0.0) == a + b
    decreases a + b
  {
    hide Allowed;
    var ts := TwoBursts(window, a, b);
    var before := ts[..|ts| - 1];
    if b > 0 {
      BurstsAllowed(window, limit, a, b - 1);
      assert before == TwoBursts(window, a, b - 1);
    } else if a > 1 {
      BurstsAllowed(window, limit, a - 1, 0);
      assert before == TwoBursts(window, a - 1, 0);
    } else {
      assert before == [];
    }
    SmallCount(window, limit, ts);
  }

  /** The bound is reached for every limit and window, by two bursts a window apart. */
  lemma TwiceTheLimitIsReached(window: real, limit: u32)
    requires window > 0.0 && limit >= 1
    ensures var ts := TwoBursts(window, limit, limit);
            Monotone(ts) && AllowedIn(window, limit, ts, 0.0) == 2 * limit
  {
    BurstsAllowed(window, limit, limit, limit);
  }

  // ---------------------------------------------------------------- the limiter

  lemma WrappingNext(n: nat)
    ensures Wrapping(Wrapping(n) + 1) == Wrapping(n + 1)
  {
  }

  datatype Entry = Entry(count: u32, resetAt: real)

  /** What the stored entries mean: an entry of a key is its current window; a key without one has no
      window that is still open. */
  ghost predicate Meaning(window: real, entries: map<Key, Entry>, history: map<Key, seq<real>>, clock: real) {
    forall k | k in history || k in entries :: KeyMeaning(window, entries, history, clock, k)
  }

  ghost predicate KeyMeaning(window: real, entries: map<Key, Entry>, history: map<Key, seq<real>>, clock: real, k: Key) {
    && (k in entries ==> k in history)
    && (k in history ==>
          && history[k] != [] && Monotone(history[k]) && history[k][|history[k]| - 1] <= clock
          && var c := Current(window, history[k]);
             if k in entries then entries[k] == Entry(Wrapping(c.count), c.start + window)
             else c.start + window <= clock)
  }

  function Retain(entries: map<Key, Entry>, now: real): map<Key, Entry> {
    map k | k in entries && entries[k].resetAt > now :: entries[k]
  }

  lemma RetainKeeps(window: real, entries: map<Key, Entry>, history: map<Key, seq<real>>, clock: real, now: real)
    requires Meaning(window, entries, history, clock) && clock <= now
    ensures Meaning(window, Retain(entries, now), history, now)
  {
    forall k | k in history || k in Retain(entries, now)
      ensures KeyMeaning(window, Retain(entries, now), history, now, k)
    {
      assert KeyMeaning(window, entries, history, clock, k);
    }
  }

  function Log(history: map<Key, seq<real>>, k: Key): seq<real> {
    if k in history then history[k] else []
  }

  /** The entry of a key after a check. */
  function Counted(window: real, kept: map<Key, Entry>, now: real, k: Key): Entry {
    if k in kept then Entry(Wrapping(kept[k].count + 1), kept[k].resetAt) else Entry(Wrapping(1), now + window)
  }

  lemma CheckedKey(window: real, entries: map<Key, Entry>, history: map<Key, seq<real>>, now: real, k: Key)
    requires window >= 0.0 && Meaning(window, Retain(entries, now), history, now)
    ensures var kept, ts := Retain(entries, now), Log(history, k) + [now];
            var c, e := Current(window, ts), Counted(window, kept, now, k);
            Monotone(ts) && e == Entry(Wrapping(c.count), c.start + window)
  {
    var kept, ts := Retain(entries, now), Log(history, k) + [now];
    assert ts[..|ts| - 1] == Log(history, k);
    hide Retain, Wrapping;
    if k in history || k in kept {
      assert KeyMeaning(window, kept, history, now, k);
      WrappingNext(Current(window, history[k]).count);
    }
  }

  lemma CheckKeeps(window: real, entries: map<Key, Entry>, history: map<Key, seq<real>>, now: real, k: Key)
    requires window >= 0.0 && Meaning(window, Retain(entries, now), history, now)
    ensures var kept, ts := Retain(entries, now), Log(history, k) + [now];
            Meaning(window, kept[k := Counted(window, kept, now, k)], history[k := ts], now)
  {
    var kept, ts := Retain(entries, now), Log(history, k) + [now];
    CheckedKey(window, entries, history, now, k);
    var entries', history' := kept[k := Counted(window, kept, now, k)], history[k := ts];
    hide Retain, Counted, Current, Monotone;
    forall j | j in history' || j in entries'
      ensures KeyMeaning(window, entries', history', now, j)
    {
      if j != k {
        assert KeyMeaning(window, kept, history, now, j);
      }
    }
  }

  class RateLimiter {
    const limit: u32
    const window: real
    var entries: map<Key, Entry>
    ghost var history: map<Key, seq<real>>   // the times of the checks of each key, since its last reset
    ghost var clock: real

    ghost predicate Valid()
      reads this
    {
      window >= 0.0 && Meaning(window, entries, history, clock)
    }

    constructor (limit: u32, window: real)
      requires window >= 0.0
      ensures Valid() && this.limit == limit && this.window == window && history == map[]
    {
      this.limit, this.window, entries, history, clock := limit, window, map[], map[], 0.0;
    }

    method Check(now: real, key: Key) returns (allowed: bool)
      requires Valid() && clock <= now
      modifies this
      ensures Valid() && clock == now
      ensures history == old(history)[key := Log(old(history), key) + [now]]
      ensures allowed == Allowed(window, limit, history[key])
    {
      RetainKeeps(window, entries, history, clock, now);
      CheckedKey(window, entries, history, now, key);
      CheckKeeps(window, entries, history, now, key);
      entries := Retain(entries, now);
      assert key in entries ==> entries[key].resetAt > now;
      hide Meaning, Current, Monotone, Wrapping, Retain;
      var entry := if key in entries then entries[key] else Entry(0, now + window);
      if now >= entry.resetAt {
        entry := Entry(0, now + window);
      }
      entry := entry.(count := Wrapping(entry.count + 1));
      assert entry == Counted(window, entries, now, key);
      entries := entries[key := entry];
      history, clock := history[key := Log(history, key) + [now]], now;
      return entry.count <= limit;
    }

    method Reset(key: Key)
      requires Valid()
      modifies this
      ensures Valid() && clock == old(clock)
      ensures history == old(history) - {key}
    {
      ghost var was, times := entries, history;
      entries := entries - {key};
      history := history - {key};
      forall k | k in history || k in entries
        ensures KeyMeaning(window, entries, history, clock, k)
      {
        assert KeyMeaning(window, was, times, clock, k);
      }
    }

    method Cleanup(now: real)
      requires Valid() && clock <= now
      modifies this
      ensures Valid() && clock == now
      ensures history == old(history)
    {
      RetainKeeps(window, entries, history, clock, now);
      entries := Retain(entries, now);
      clock := now;
    }
  }
}
