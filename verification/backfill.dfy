/** `getPreviousDayRate`: the bounded backward search for the nearest earlier
    day with a rate, through a per-request cache keyed by `yyyy-MM-dd`. The
    bank adapter is a parameter `lookup`; the search also returns the days it
    looked up, in order, so that call counts can be stated. */
module Backfill {
  import opened Js
  import opened Calendar
  import opened Dates
  import opened Records

  /** The request's `rateCache`: `yyyy-MM-dd` text to record. */
  type Cache = map<string, Rate>

  /** The default of `maxAttempts`. */
  const DefaultMaxAttempts: nat := 30

  /** The rate a search returns, the cache after it, and the days it looked up. */
  datatype Probe = Probe(rate: Option<Rate>, cache: Cache, calls: seq<Day>)

  /** Every entry of `after` is an entry of `before`, or the rate `lookup`
      gave for one of the looked-up days, stored under that day's key. So a
      record re-dated by the caller is never in the cache. */
  predicate CachedFrom(key: Day -> string, before: Cache, after: Cache, lookup: Day -> Option<Rate>, calls: seq<Day>) {
    forall k :: k in after ==>
      (k in before && after[k] == before[k])
      || exists i :: 0 <= i < |calls| && k == key(calls[i]) && lookup(calls[i]) == Some(after[k])
  }

  lemma CachedFromChain(key: Day -> string, a: Cache, b: Cache, c: Cache, lookup: Day -> Option<Rate>, xs: seq<Day>, ys: seq<Day>)
    requires CachedFrom(key, a, b, lookup, xs) && CachedFrom(key, b, c, lookup, ys)
    ensures CachedFrom(key, a, c, lookup, xs + ys)
  {
    forall k | k in c
      ensures (k in a && c[k] == a[k])
        || exists i :: 0 <= i < |xs + ys| && k == key((xs + ys)[i]) && lookup((xs + ys)[i]) == Some(c[k])
    {
      if k in b && c[k] == b[k] {
        if !(k in a && b[k] == a[k]) {
          var i :| 0 <= i < |xs| && k == key(xs[i]) && lookup(xs[i]) == Some(b[k]);
          assert (xs + ys)[i] == xs[i];
        }
      } else {
        var i :| 0 <= i < |ys| && k == key(ys[i]) && lookup(ys[i]) == Some(c[k]);
        assert (xs + ys)[|xs| + i] == ys[i];
      }
    }
  }

  /** The loop of `getPreviousDayRate` at day `cur` with `fuel` attempts
      left. `key` is the cache key of a day, `format(day, "yyyy-MM-dd")` in
      the code. A cached key returns at once; otherwise the day is looked up
      and a rate is cached under its key and returned. `known` is false for a
      bank that is neither `"bidv"` nor `"tcb"`: then nothing is looked up. */
  function Walk(key: Day -> string, known: bool, lookup: Day -> Option<Rate>, cur: Day, cache: Cache, fuel: nat): (p: Probe)
    ensures |p.calls| <= fuel
    ensures forall i :: 0 <= i < |p.calls| ==> p.calls[i] == cur - i
    ensures !known ==> p.calls == [] && p.cache == cache
    ensures !known && cache == map[] ==> p.rate.None?
    ensures p.rate.None? ==> p.cache == cache
    decreases fuel
  {
    if fuel == 0 then Probe(None, cache, [])
    else
      var k := key(cur);
      if k in cache then Probe(Some(cache[k]), cache, [])
      else if !known then Walk(key, known, lookup, cur - 1, cache, fuel - 1)
      else
        match lookup(cur)
        case Some(r) => Probe(Some(r), cache[k := r], [cur])
        case None =>
          var p := Walk(key, known, lookup, cur - 1, cache, fuel - 1);
          Probe(p.rate, p.cache, [cur] + p.calls)
  }

  /** Only uncached days are looked up, and the search stops at the first
      one that has a rate. */
  lemma {:induction false} WalkLooksUpMisses(key: Day -> string, known: bool, lookup: Day -> Option<Rate>, cur: Day, cache: Cache, fuel: nat)
    ensures var p := Walk(key, known, lookup, cur, cache, fuel);
      && (forall i :: 0 <= i < |p.calls| ==> key(p.calls[i]) !in cache)
      && (forall i :: 0 <= i < |p.calls| - 1 ==> lookup(p.calls[i]).None?)
      && (p.rate.None? ==> forall i :: 0 <= i < |p.calls| ==> lookup(p.calls[i]).None?)
    decreases fuel
  {
    if fuel > 0 && key(cur) !in cache {
      WalkLooksUpMisses(key, known, lookup, cur - 1, cache, fuel - 1);
    }
  }

  /** The search adds at most one entry: the rate it found, under the key
      of the last day it looked up. */
  lemma {:induction false} WalkAddsOne(key: Day -> string, known: bool, lookup: Day -> Option<Rate>, cur: Day, cache: Cache, fuel: nat)
    ensures var p := Walk(key, known, lookup, cur, cache, fuel);
      p.cache != cache ==>
        && |p.calls| > 0 && p.rate.Some?
        && lookup(p.calls[|p.calls| - 1]) == p.rate
        && p.cache == cache[key(p.calls[|p.calls| - 1]) := p.rate.value]
    decreases fuel
  {
    if fuel > 0 && key(cur) !in cache && known && lookup(cur).None? {
      WalkAddsOne(key, known, lookup, cur - 1, cache, fuel - 1);
      var p := Walk(key, known, lookup, cur, cache, fuel);
      var q := Walk(key, known, lookup, cur - 1, cache, fuel - 1);
      assert p == Probe(q.rate, q.cache, [cur] + q.calls);
      if q.cache != cache {
        var n := |q.calls|;
        assert p.calls[n] == q.calls[n - 1];
      }
    }
  }

  /** Whatever the search caches is a looked-up day's own rate. */
  lemma WalkCaches(key: Day -> string, known: bool, lookup: Day -> Option<Rate>, cur: Day, cache: Cache, fuel: nat)
    ensures var p := Walk(key, known, lookup, cur, cache, fuel);
      CachedFrom(key, cache, p.cache, lookup, p.calls)
  {
    WalkAddsOne(key, known, lookup, cur, cache, fuel);
    var p := Walk(key, known, lookup, cur, cache, fuel);
    if p.cache != cache {
      var last := |p.calls| - 1;
      assert p.cache == cache[key(p.calls[last]) := p.rate.value];
      forall k | k in p.cache
        ensures (k in cache && p.cache[k] == cache[k])
          || exists i :: 0 <= i < |p.calls| && k == key(p.calls[i]) && lookup(p.calls[i]) == Some(p.cache[k])
      {
        if k == key(p.calls[last]) {
          assert lookup(p.calls[last]) == Some(p.cache[k]);
        }
      }
    }
  }

  /** `getPreviousDayRate(day, bank, rateCache, maxAttempts)`: it starts at the
      day before `day`, never looks up `day` itself, makes at most
      `maxAttempts` lookups and returns at once, with none, on a cached key. */
  function PreviousDayRate(key: Day -> string, known: bool, lookup: Day -> Option<Rate>, day: Day, cache: Cache, maxAttempts: nat): (p: Probe)
    ensures |p.calls| <= maxAttempts
    ensures forall i :: 0 <= i < |p.calls| ==> p.calls[i] == day - 1 - i && p.calls[i] < day
    ensures maxAttempts > 0 && key(day - 1) in cache ==>
      p == Probe(Some(cache[key(day - 1)]), cache, [])
    ensures p.rate.None? ==> p.cache == cache
    ensures !known ==> p.calls == [] && p.cache == cache
    ensures !known && cache == map[] ==> p.rate.None?
  {
    Walk(key, known, lookup, day - 1, cache, maxAttempts)
  }

  /* ---------------- the search without a cache ---------------- */

  /** The nearest day from `cur` back over `fuel` days that has a rate: the
      reference the cached search is measured against. */
  function NearestDonor(lookup: Day -> Option<Rate>, cur: Day, fuel: nat): (x: Option<Day>)
    ensures x.Some? ==> cur - fuel < x.value <= cur && lookup(x.value).Some?
    ensures x.Some? ==> forall y :: x.value < y <= cur ==> lookup(y).None?
    ensures x.None? ==> forall y :: cur - fuel < y <= cur ==> lookup(y).None?
    decreases fuel
  {
    if fuel == 0 then None
    else if lookup(cur).Some? then Some(cur)
    else NearestDonor(lookup, cur - 1, fuel - 1)
  }

  /** The rate of the nearest donor day, if any. */
  function NearestRate(lookup: Day -> Option<Rate>, cur: Day, fuel: nat): Option<Rate> {
    match NearestDonor(lookup, cur, fuel)
    case Some(x) => lookup(x)
    case None => None
  }

  /** No two days of `lo..hi` share a key. */
  ghost predicate KeysDistinct(key: Day -> string, lo: Day, hi: Day) {
    forall x, y :: lo <= x <= hi && lo <= y <= hi && key(x) == key(y) ==> x == y
  }

  /** Every cached key of a day in `lo..hi` holds the rate `lookup` gives
      for that day. */
  ghost predicate Faithful(key: Day -> string, cache: Cache, lookup: Day -> Option<Rate>, lo: Day, hi: Day) {
    forall x :: lo <= x <= hi && key(x) in cache ==> lookup(x) == Some(cache[key(x)])
  }

  /** Storing a day's own rate under its key keeps a cache faithful. */
  lemma StoreFaithful(key: Day -> string, cache: Cache, lookup: Day -> Option<Rate>, lo: Day, hi: Day, d: Day, r: Rate)
    requires Faithful(key, cache, lookup, lo, hi) && KeysDistinct(key, lo, hi)
    requires lo <= d <= hi && lookup(d) == Some(r)
    ensures Faithful(key, cache[key(d) := r], lookup, lo, hi)
  {
  }

  /** The cache is transparent: with distinct keys and a faithful cache,
      the search returns the nearest donor's rate, as if every day were
      looked up, and leaves the cache faithful. */
  lemma {:induction false} WalkTransparent(key: Day -> string, lookup: Day -> Option<Rate>, lo: Day, hi: Day,
                                           cur: Day, cache: Cache, fuel: nat)
    requires KeysDistinct(key, lo, hi) && Faithful(key, cache, lookup, lo, hi)
    requires fuel > 0 ==> lo <= cur - fuel + 1 && cur <= hi
    ensures Walk(key, true, lookup, cur, cache, fuel).rate == NearestRate(lookup, cur, fuel)
    ensures Faithful(key, Walk(key, true, lookup, cur, cache, fuel).cache, lookup, lo, hi)
    decreases fuel
  {
    if fuel > 0 && key(cur) !in cache {
      match lookup(cur)
      case Some(r) =>
        StoreFaithful(key, cache, lookup, lo, hi, cur, r);
      case None =>
        WalkTransparent(key, lookup, lo, hi, cur - 1, cache, fuel - 1);
    }
  }
}
