/**
 The sliding-window limiter (lib/rate-limit.ts). It forgets old hits whenever it looks at
 a key and in sweeps; the ghost field `log` remembers every allowed call, and the limiter
 is proved to decide as if it had kept them all.
 */
module RateLimit {
  import opened Basics

  const MAX_KEYS := 10000

  datatype Decision = Decision(allowed: bool, remaining: Option<int>, retryAfterMs: int)
  datatype Call = Call(key: string, at: int)

  /** The times after `from`, in order. */
  function Since(times: seq<int>, from: int): seq<int> {
    if |times| == 0 then []
    else
      var init, t := times[..|times| - 1], times[|times| - 1];
      if t > from then Since(init, from) + [t] else Since(init, from)
  }

  /** The times at which a key's calls were allowed. */
  function TimesOf(log: seq<Call>, key: string): seq<int> {
    if |log| == 0 then []
    else
      var init, c := log[..|log| - 1], log[|log| - 1];
      if c.key == key then TimesOf(init, key) + [c.at] else TimesOf(init, key)
  }

  /** How many allowed calls of the key lie in the window that ends at `now`. */
  function InWindow(log: seq<Call>, key: string, now: int, windowMs: int): nat {
    |Since(TimesOf(log, key), now - windowMs)|
  }

  ghost predicate Ordered(times: seq<int>) {
    forall i, j :: 0 <= i < j < |times| ==> times[i] <= times[j]
  }

  lemma {:induction false} SinceTwice(times: seq<int>, a: int, b: int)
    requires a <= b
    ensures Since(Since(times, a), b) == Since(times, b)
  {
    if |times| > 0 {
      var init, t := times[..|times| - 1], times[|times| - 1];
      SinceTwice(init, a, b);
      if t > a {
        assert (Since(init, a) + [t])[..|Since(init, a)|] == Since(init, a);
      }
    }
  }

  lemma SinceAppend(times: seq<int>, t: int, from: int)
    ensures Since(times + [t], from) == Since(times, from) + if t > from then [t] else []
  {
    assert (times + [t])[..|times|] == times;
  }

  lemma {:induction false} SinceShrinks(times: seq<int>, a: int, b: int)
    requires a <= b
    ensures |Since(times, b)| <= |Since(times, a)|
  {
    if |times| > 0 {
      SinceShrinks(times[..|times| - 1], a, b);
    }
  }

  lemma {:induction false} SinceOrdered(times: seq<int>, from: int)
    requires Ordered(times)
    ensures Ordered(Since(times, from))
    ensures forall i :: 0 <= i < |Since(times, from)| ==>
              Since(times, from)[i] > from && (|times| > 0 && Since(times, from)[i] <= times[|times| - 1])
  {
    if |times| > 0 {
      SinceOrdered(times[..|times| - 1], from);
    }
  }

  /** Of an ordered list something drops out exactly when its first element does. */
  lemma {:induction false} FirstDrops(times: seq<int>, from: int)
    requires Ordered(times) && |times| > 0
    ensures |Since(times, from)| <= |times|
    ensures |Since(times, from)| < |times| <==> times[0] <= from
  {
    var init := times[..|times| - 1];
    if |times| > 1 {
      FirstDrops(init, from);
      assert init[0] == times[0];
    } else {
      assert Since(init, from) == [];
    }
  }

  lemma {:induction false} TimesOrdered(log: seq<Call>, key: string, clock: int)
    requires forall i, j :: 0 <= i < j < |log| ==> log[i].at <= log[j].at
    requires forall i :: 0 <= i < |log| ==> log[i].at <= clock
    ensures Ordered(TimesOf(log, key))
    ensures forall i :: 0 <= i < |TimesOf(log, key)| ==> TimesOf(log, key)[i] <= clock
  {
    if |log| > 0 {
      var last := log[|log| - 1];
      TimesOrdered(log[..|log| - 1], key, last.at);
    }
  }

  lemma TimesAppend(log: seq<Call>, c: Call, key: string)
    ensures TimesOf(log + [c], key) == TimesOf(log, key) + if c.key == key then [c.at] else []
  {
    assert (log + [c])[..|log|] == log;
  }

  /** What the limiter keeps of a key is all that matters of its history for windows from `since` on. */
  ghost predicate Agree(kept: seq<int>, times: seq<int>, since: int) {
    forall from :: from >= since ==> Since(kept, from) == Since(times, from)
  }

  ghost predicate KeyOk(kept: seq<int>, times: seq<int>, since: int, limit: int) {
    Agree(kept, times, since) && |Since(times, since)| <= limit
  }

  /** A later window, with or without forgetting what it does not reach. */
  lemma KeyLater(kept: seq<int>, times: seq<int>, since: int, from: int, limit: int)
    requires KeyOk(kept, times, since, limit) && since <= from
    ensures KeyOk(kept, times, from, limit) && KeyOk(Since(kept, from), times, from, limit)
    ensures Since(kept, from) == Since(times, from)
  {
    hide Since;
    forall f | f >= from ensures Since(Since(kept, from), f) == Since(times, f) {
      SinceTwice(kept, from, f);
    }
    SinceShrinks(times, since, from);
  }

  lemma KeyAppend(times: seq<int>, since: int, t: int, limit: int)
    requires KeyOk(Since(times, since), times, since, limit) && |Since(times, since)| < limit
    ensures KeyOk(Since(times, since) + [t], times + [t], since, limit)
  {
    hide Since;
    forall f | f >= since ensures Since(Since(times, since) + [t], f) == Since(times + [t], f) {
      SinceAppend(Since(times, since), t, f);
      SinceAppend(times, t, f);
    }
    SinceAppend(times, t, since);
  }

  ghost predicate Chronological(log: seq<Call>, clock: int) {
    && (forall i, j :: 0 <= i < j < |log| ==> log[i].at <= log[j].at)
    && (forall i :: 0 <= i < |log| ==> log[i].at <= clock)
  }

  /** When the window is full, exactly the times from `oldest + windowMs` on find room again. */
  lemma FullUntil(log: seq<Call>, clock: int, key: string, now: int, windowMs: int)
    requires Chronological(log, clock) && InWindow(log, key, now, windowMs) > 0
    ensures var oldest := Since(TimesOf(log, key), now - windowMs)[0];
            && oldest + windowMs > now
            && forall later :: later >= now ==>
                 (InWindow(log, key, later, windowMs) < InWindow(log, key, now, windowMs)
                  <==> later >= oldest + windowMs)
  {
    hide Since, TimesOf, Ordered;
    var times := TimesOf(log, key);
    TimesOrdered(log, key, clock);
    SinceOrdered(times, now - windowMs);
    var list := Since(times, now - windowMs);
    forall later | later >= now
      ensures InWindow(log, key, later, windowMs) < |list| <==> later >= list[0] + windowMs
    {
      SinceTwice(times, now - windowMs, later - windowMs);
      FirstDrops(list, later - windowMs);
    }
  }

  class SlidingWindowLimiter {
    const limit: int
    const windowMs: int
    var hits: map<string, seq<int>>
    ghost var log: seq<Call>
    ghost var clock: int

    ghost predicate Valid()
      reads this
    {
      limit > 0 ==>
        && (forall key :: KeyOk(Lookup(hits, key, []), TimesOf(log, key), clock - windowMs, limit))
        && Chronological(log, clock)
    }

    constructor (limit: int, windowMs: int, ghost clock: int)
      ensures Valid() && this.limit == limit && this.windowMs == windowMs && log == [] && this.clock == clock
    {
      this.limit, this.windowMs := limit, windowMs;
      this.hits, this.log, this.clock := map[], [], clock;
    }

    /**
     `check`: a call is allowed exactly when fewer than `limit` earlier allowed calls of its
     key lie in the window; when it is refused, `retryAfterMs` is the least delay after which
     the key, left alone, is allowed again.
     */
    method Check(key: string, now: int) returns (r: Decision)
      requires Valid() && (limit > 0 ==> now >= clock)
      modifies this
      ensures Valid()
      ensures limit <= 0 ==> r == Decision(true, None, 0) && hits == old(hits) && log == old(log)
      ensures limit > 0 ==>
                && clock == now
                && (r.allowed <==> InWindow(old(log), key, now, windowMs) < limit)
                && log == old(log) + (if r.allowed then [Call(key, now)] else [])
      ensures limit > 0 && r.allowed ==>
                r == Decision(true, Some(limit - 1 - InWindow(old(log), key, now, windowMs)), 0)
      ensures limit > 0 && !r.allowed ==>
                && r.remaining == Some(0) && r.retryAfterMs > 0
                && forall later :: later >= now ==>
                     (InWindow(old(log), key, later, windowMs) < limit <==> later >= now + r.retryAfterMs)
      ensures limit > 0 && r.allowed && |hits| > 10_000 ==>
                forall k :: k in hits ==> InWindow(log, k, now, windowMs) > 0
    {
      hide Since, TimesOf, KeyOk, Chronological, InWindow;
      if limit <= 0 {
        return Decision(true, None, 0);
      }
      var list := Since(Lookup(hits, key, []), now - windowMs);
      Advance(key, list, now);
      if |list| >= limit {
        FullUntil(log, clock, key, now, windowMs);
        return Decision(false, Some(0), list[0] + windowMs - now);
      }
      list := list + [now];
      Allow(key, list, now);
      if |hits| > MAX_KEYS {
        Sweep(now);
      }
      r := Decision(true, Some(limit - |list|), 0);
    }

    /** Stores the pruned list; from here on the limiter is asked about `now` and later. */
    method Advance(key: string, list: seq<int>, now: int)
      requires Valid() && limit > 0 && now >= clock && list == Since(Lookup(hits, key, []), now - windowMs)
      modifies this`hits, this`clock
      ensures Valid() && clock == now && hits == old(hits)[key := list]
      ensures list == Since(TimesOf(log, key), now - windowMs) && |list| == InWindow(log, key, now, windowMs) <= limit
    {
      hide Since, TimesOf, KeyOk;
      ghost var before := hits;
      forall k
        ensures KeyOk(Lookup(before[key := list], k, []), TimesOf(log, k), now - windowMs, limit)
        ensures k == key ==> list == Since(TimesOf(log, k), now - windowMs)
      {
        KeyLater(Lookup(before, k, []), TimesOf(log, k), clock - windowMs, now - windowMs, limit);
      }
      hits, clock := hits[key := list], now;
      assert KeyOk(Lookup(hits, key, []), TimesOf(log, key), clock - windowMs, limit);
      WithinLimit(Lookup(hits, key, []), TimesOf(log, key), clock - windowMs, limit);
    }

    method Allow(key: string, list: seq<int>, now: int)
      requires Valid() && limit > 0 && now == clock && |list| <= limit
      requires list == Since(TimesOf(log, key), now - windowMs) + [now]
      requires key in hits && hits[key] == Since(TimesOf(log, key), now - windowMs)
      modifies this`hits, this`log
      ensures Valid() && clock == now && log == old(log) + [Call(key, now)] && hits == old(hits)[key := list]
    {
      hide Since, TimesOf, KeyOk;
      ghost var c := Call(key, now);
      forall k
        ensures KeyOk(Lookup(hits[key := list], k, []), TimesOf(log + [c], k), clock - windowMs, limit)
      {
        TimesAppend(log, c, k);
        assert KeyOk(Lookup(hits, k, []), TimesOf(log, k), clock - windowMs, limit);
        if k == key {
          KeyAppend(TimesOf(log, k), now - windowMs, now, limit);
        } else {
          assert TimesOf(log, k) + [] == TimesOf(log, k);
        }
      }
      hits := hits[key := list];
      log := log + [c];
    }

    /** `sweep`: forgets what no window reaches any more, and keys with nothing left. */
    method Sweep(now: int)
      requires Valid() && limit > 0 && now >= clock
      modifies this`hits, this`clock
      ensures Valid() && clock == now
      ensures forall key :: Lookup(hits, key, []) == Since(Lookup(old(hits), key, []), now - windowMs)
      ensures forall key :: key in hits ==> InWindow(log, key, now, windowMs) > 0
    {
      ghost var before := hits;
      var rest, from := hits.Keys, now - windowMs;
      SinceNone(from);
      hide Since, TimesOf, KeyOk;
      while rest != {}
        invariant rest <= before.Keys && clock == old(clock)
        invariant forall key :: key in rest ==> key in hits && hits[key] == before[key]
        invariant forall key :: key !in rest ==> Lookup(hits, key, []) == Since(Lookup(before, key, []), from)
        invariant forall key :: key in hits && key !in rest ==> hits[key] != []
        decreases rest
      {
        var key :| key in rest;
        var live := Since(hits[key], from);
        if |live| == 0 {
          hits := hits - {key};
        } else {
          hits := hits[key := live];
        }
        rest := rest - {key};
      }
      forall key
        ensures KeyOk(Lookup(hits, key, []), TimesOf(log, key), now - windowMs, limit)
        ensures key in hits ==> InWindow(log, key, now, windowMs) > 0
      {
        assert KeyOk(Lookup(before, key, []), TimesOf(log, key), clock - windowMs, limit);
        KeyLater(Lookup(before, key, []), TimesOf(log, key), clock - windowMs, from, limit);
      }
      clock := now;
    }
  }

  lemma SinceNone(from: int)
    ensures Since([], from) == []
  {
  }

  lemma WithinLimit(kept: seq<int>, times: seq<int>, since: int, limit: int)
    requires KeyOk(kept, times, since, limit)
    ensures |Since(times, since)| <= limit
  {
  }
}
