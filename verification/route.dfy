/** The `POST` handler of route.js: validation, the inclusive day range, and
    the sequential loop that keeps direct hits, fills misses from the nearest
    earlier day through `getPreviousDayRate`, and omits days it cannot fill. */
module Route {
  import opened Js
  import opened Calendar
  import opened Dates
  import opened Records
  import opened Adapters
  import opened Backfill

  /** The `bank` field as the handlers read it. */
  datatype Bank = BidvBank | TcbBank | OtherBank

  function BankOf(v: Value): (b: Bank)
    ensures b == BidvBank <==> v == Str("bidv")
    ensures b == TcbBank <==> v == Str("tcb")
  {
    if v == Str("bidv") then BidvBank else if v == Str("tcb") then TcbBank else OtherBank
  }

  /** The adapter route.js calls for a recognised bank. */
  function RouteLookup(banks: Banks, bank: Bank): Day -> Option<Rate> {
    d => if bank == BidvBank then ServerBidv(banks, d) else RouteTcb(banks, d)
  }

  /** The `date` a filled record gets: `dd/MM/yyyy` for BIDV, `yyyy-MM-dd` otherwise. */
  function Stamp(bank: Bank): Day -> string {
    if bank == BidvBank then BankDate else IsoDate
  }

  /** The cache key of a day, `format(date, "yyyy-MM-dd")`. */
  function CacheKey(d: Day): string {
    IsoDate(d)
  }

  /** One iteration of the loop: the rate it appends, the cache after it and
      the days it looked up. */
  datatype DayResult = DayResult(rate: Option<Rate>, cache: Cache, calls: seq<Day>)

  /** The loop body for day `d`, with `key` the cache key of a day and
      `stamp` the date text a filled record gets. A direct hit is appended
      unchanged and cached under the day's key; a miss is filled from the
      search before `d`, re-dated to `stamp(d)` and not cached; otherwise
      nothing is appended. `known` is false for an unrecognised bank, whose
      adapter call is skipped. */
  function DayStep(known: bool, key: Day -> string, stamp: Day -> string,
                   lookup: Day -> Option<Rate>, d: Day, cache: Cache): (s: DayResult)
    ensures |s.calls| <= 1 + DefaultMaxAttempts
    ensures forall i :: 0 <= i < |s.calls| ==> s.calls[i] == d - i
    ensures !known ==> s.calls == [] && s.cache == cache
    ensures !known && cache == map[] ==> s.rate.None?
    ensures known ==> |s.calls| > 0
    ensures known && lookup(d).Some? ==>
      s.rate == lookup(d) && s.cache == cache[key(d) := lookup(d).value]
    ensures known && lookup(d).None? && s.rate.Some? ==>
      Field(s.rate.value, "date") == Str(stamp(d))
    ensures CachedFrom(key, cache, s.cache, lookup, s.calls)
  {
    if !known then
      var p := PreviousDayRate(key, false, lookup, d, cache, DefaultMaxAttempts);
      CachedFromNothing(key, cache, lookup);
      DayResult(if p.rate.Some? then Some(WithDate(p.rate.value, stamp(d))) else None, p.cache, p.calls)
    else
      match lookup(d)
      case Some(r) =>
        CachedFromHit(key, cache, lookup, d, r);
        DayResult(Some(r), cache[key(d) := r], [d])
      case None =>
        var p := PreviousDayRate(key, true, lookup, d, cache, DefaultMaxAttempts);
        WalkCaches(key, true, lookup, d - 1, cache, DefaultMaxAttempts);
        CachedFromShift(key, cache, p.cache, lookup, d, p.calls);
        DayResult(if p.rate.Some? then Some(WithDate(p.rate.value, stamp(d))) else None, p.cache, [d] + p.calls)
  }

  lemma CachedFromNothing(key: Day -> string, cache: Cache, lookup: Day -> Option<Rate>)
    ensures CachedFrom(key, cache, cache, lookup, [])
  {
  }

  lemma CachedFromHit(key: Day -> string, cache: Cache, lookup: Day -> Option<Rate>, d: Day, r: Rate)
    requires lookup(d) == Some(r)
    ensures CachedFrom(key, cache, cache[key(d) := r], lookup, [d])
  {
    forall k | k in cache[key(d) := r] && !(k in cache && cache[key(d) := r][k] == cache[k])
      ensures k == key([d][0]) && lookup([d][0]) == Some(cache[key(d) := r][k])
    {
    }
  }

  lemma CachedFromShift(key: Day -> string, before: Cache, after: Cache, lookup: Day -> Option<Rate>, d: Day, calls: seq<Day>)
    requires CachedFrom(key, before, after, lookup, calls)
    ensures CachedFrom(key, before, after, lookup, [d] + calls)
  {
    forall k | k in after
      ensures (k in before && after[k] == before[k])
        || exists i :: 0 <= i < |[d] + calls| && k == key(([d] + calls)[i]) && lookup(([d] + calls)[i]) == Some(after[k])
    {
      if !(k in before && after[k] == before[k]) {
        var i :| 0 <= i < |calls| && k == key(calls[i]) && lookup(calls[i]) == Some(after[k]);
        assert ([d] + calls)[i + 1] == calls[i];
      }
    }
  }

  /** What the loop built: the records, the day each was built for, the
      cache and the days looked up. */
  datatype Run = Run(results: seq<Rate>, produced: seq<Day>, cache: Cache, calls: seq<Day>)

  predicate Increasing(days: seq<Day>) {
    forall i, j :: 0 <= i < j < |days| ==> days[i] < days[j]
  }

  /** The `for (const date of dates)` loop of `POST`. */
  function Resolve(known: bool, key: Day -> string, stamp: Day -> string,
                   lookup: Day -> Option<Rate>, days: seq<Day>, cache: Cache): (r: Run)
    ensures |r.results| == |r.produced| <= |days|
    ensures forall i :: 0 <= i < |r.produced| ==> r.produced[i] in days
    ensures Increasing(days) ==> Increasing(r.produced)
    ensures |r.calls| <= (1 + DefaultMaxAttempts) * |days|
    ensures !known && cache == map[] ==> r.results == [] && r.calls == [] && r.cache == map[]
    ensures known ==> forall i :: 0 <= i < |r.produced| ==>
      lookup(r.produced[i]) == Some(r.results[i]) || Field(r.results[i], "date") == Str(stamp(r.produced[i]))
    ensures CachedFrom(key, cache, r.cache, lookup, r.calls)
    decreases |days|
  {
    if |days| == 0 then Run([], [], cache, [])
    else
      var s := DayStep(known, key, stamp, lookup, days[0], cache);
      var rest := Resolve(known, key, stamp, lookup, days[1..], s.cache);
      CachedFromChain(key, cache, s.cache, rest.cache, lookup, s.calls, rest.calls);
      var produced := (if s.rate.Some? then [days[0]] else []) + rest.produced;
      ProducedIncreasing(days, rest.produced, s.rate.Some?, produced);
      Run((if s.rate.Some? then [s.rate.value] else []) + rest.results, produced, rest.cache, s.calls + rest.calls)
  }

  /** Keeping or dropping the first day preserves order and membership. */
  lemma ProducedIncreasing(days: seq<Day>, rest: seq<Day>, kept: bool, produced: seq<Day>)
    requires |days| > 0
    requires forall i :: 0 <= i < |rest| ==> rest[i] in days[1..]
    requires Increasing(days[1..]) ==> Increasing(rest)
    requires produced == (if kept then [days[0]] else []) + rest
    ensures Increasing(days) ==> Increasing(produced)
    ensures forall i :: 0 <= i < |produced| ==> produced[i] in days
  {
    if Increasing(days) {
      assert Increasing(days[1..]);
      if kept {
        forall j | 0 <= j < |rest|
          ensures days[0] < rest[j]
        {
          var k :| 0 <= k < |days[1..]| && days[1..][k] == rest[j];
          assert days[k + 1] == rest[j];
        }
        assert forall i :: 0 < i < |produced| ==> produced[i] == rest[i - 1];
      }
    }
  }

  /* ---------------- the loop without a cache ---------------- */

  /** The record `POST` returns for day `d`, specified without the cache:
      the day's own rate, else the rate of the nearest of the 30 days before
      it that has one, re-dated to `stamp(d)`, else nothing. */
  function Expected(known: bool, stamp: Day -> string, lookup: Day -> Option<Rate>, d: Day): Option<Rate> {
    if !known then None
    else if lookup(d).Some? then lookup(d)
    else
      match NearestDonor(lookup, d - 1, DefaultMaxAttempts)
      case Some(x) => Some(WithDate(lookup(x).value, stamp(d)))
      case None => None
  }

  /** The expected records of a list of days, in order, skipping the days
      that have none. */
  function ExpectedAll(known: bool, stamp: Day -> string, lookup: Day -> Option<Rate>, days: seq<Day>): (rs: seq<Rate>)
    ensures |rs| <= |days|
    decreases |days|
  {
    if |days| == 0 then []
    else
      match Expected(known, stamp, lookup, days[0])
      case Some(r) => [r] + ExpectedAll(known, stamp, lookup, days[1..])
      case None => ExpectedAll(known, stamp, lookup, days[1..])
  }

  /** The days of `days` that get a record. */
  function ExpectedDays(known: bool, stamp: Day -> string, lookup: Day -> Option<Rate>, days: seq<Day>): (ds: seq<Day>)
    decreases |days|
  {
    if |days| == 0 then []
    else
      var head := if Expected(known, stamp, lookup, days[0]).Some? then [days[0]] else [];
      head + ExpectedDays(known, stamp, lookup, days[1..])
  }

  /** One loop iteration through a faithful cache produces the expected
      record and keeps the cache faithful. */
  lemma DayStepTransparent(key: Day -> string, stamp: Day -> string, lookup: Day -> Option<Rate>,
                           lo: Day, hi: Day, d: Day, cache: Cache)
    requires KeysDistinct(key, lo, hi) && Faithful(key, cache, lookup, lo, hi)
    requires lo <= d - DefaultMaxAttempts && d <= hi
    ensures DayStep(true, key, stamp, lookup, d, cache).rate == Expected(true, stamp, lookup, d)
    ensures Faithful(key, DayStep(true, key, stamp, lookup, d, cache).cache, lookup, lo, hi)
  {
    if lookup(d).Some? {
      StoreFaithful(key, cache, lookup, lo, hi, d, lookup(d).value);
    } else {
      WalkTransparent(key, lookup, lo, hi, d - 1, cache, DefaultMaxAttempts);
    }
  }

  /** The cache changes nothing: over days whose 30-day windows have
      distinct keys, starting from a faithful cache, the loop returns
      exactly the expected records, in day order. */
  lemma {:induction false} ResolveTransparent(key: Day -> string, stamp: Day -> string, lookup: Day -> Option<Rate>,
                                              lo: Day, hi: Day, days: seq<Day>, cache: Cache)
    requires KeysDistinct(key, lo, hi) && Faithful(key, cache, lookup, lo, hi)
    requires forall i :: 0 <= i < |days| ==> lo <= days[i] - DefaultMaxAttempts && days[i] <= hi
    ensures Resolve(true, key, stamp, lookup, days, cache).results == ExpectedAll(true, stamp, lookup, days)
    ensures Resolve(true, key, stamp, lookup, days, cache).produced == ExpectedDays(true, stamp, lookup, days)
    decreases |days|
  {
    if |days| > 0 {
      DayStepTransparent(key, stamp, lookup, lo, hi, days[0], cache);
      var s := DayStep(true, key, stamp, lookup, days[0], cache);
      assert forall i :: 0 <= i < |days[1..]| ==> days[1..][i] == days[i + 1];
      ResolveTransparent(key, stamp, lookup, lo, hi, days[1..], s.cache);
    }
  }

  /** The keys of era days are distinct. */
  lemma EraKeysDistinct(lo: Day, hi: Day)
    requires InEra(lo) && InEra(hi)
    ensures KeysDistinct(CacheKey, lo, hi)
  {
    forall x, y | lo <= x <= hi && lo <= y <= hi && CacheKey(x) == CacheKey(y)
      ensures x == y
    {
      EraBetween(lo, x, hi);
      EraBetween(lo, y, hi);
      IsoInjective(x, y);
    }
  }

  /* ---------------- POST ---------------- */

  /** The destructured request body. */
  datatype Body = Body(startDate: Value, endDate: Value, bank: Value)

  /** The JSON payload of a response. */
  datatype Payload = Rates(data: seq<Rate>) | Problem(error: string)

  /** A response's status and payload, with the days the handler looked up. */
  datatype Reply = Reply(status: nat, payload: Payload, calls: seq<Day>)

  /** `!startDate || !endDate || !bank` is false. */
  predicate Complete(b: Body) {
    Truthy(b.startDate) && Truthy(b.endDate) && Truthy(b.bank)
  }

  /** `getDateRange(startDate, endDate)`: empty unless both dates parse. */
  function RequestDays(b: Body): (days: seq<Day>)
    ensures ParseDate(b.startDate).Some? && ParseDate(b.endDate).Some? ==>
      days == DateRange(ParseDate(b.startDate).value, ParseDate(b.endDate).value)
    ensures ParseDate(b.startDate).None? || ParseDate(b.endDate).None? ==> days == []
    ensures Increasing(days)
  {
    match (ParseDate(b.startDate), ParseDate(b.endDate))
    case (Some(a), Some(z)) => DateRange(a, z)
    case _ => []
  }

  /** `POST(request)` of route.js. `None` is a request whose body does not
      parse or is null: the handler's outer catch answers 500. */
  function RoutePost(request: Option<Body>, banks: Banks): (r: Reply)
    ensures request.None? ==> r == Reply(500, Problem("Internal server error"), [])
    ensures request.Some? && !Complete(request.value) ==>
      r == Reply(400, Problem("Missing required parameters"), [])
    ensures r.status == 200 <==> request.Some? && Complete(request.value)
    ensures r.status == 200 ==> (r.payload.Rates?
      && |r.payload.data| <= |RequestDays(request.value)|
      && |r.calls| <= (1 + DefaultMaxAttempts) * |RequestDays(request.value)|)
    ensures r.status == 200 && BankOf(request.value.bank) == OtherBank ==>
      r.payload.data == [] && r.calls == []
  {
    match request
    case None => Reply(500, Problem("Internal server error"), [])
    case Some(b) =>
      if !Complete(b) then Reply(400, Problem("Missing required parameters"), [])
      else
        var bank := BankOf(b.bank);
        var run := Resolve(bank != OtherBank, CacheKey, Stamp(bank), RouteLookup(banks, bank), RequestDays(b), map[]);
        Reply(200, Rates(run.results), run.calls)
  }

  /** For a request between two era days, at least 30 days after year 1
      begins, `POST` answers with exactly the expected record of every
      requested day that has one, in day order. */
  lemma RoutePostMeetsReference(b: Body, banks: Banks, start: Day, end: Day)
    requires Complete(b) && ParseDate(b.startDate) == Some(start) && ParseDate(b.endDate) == Some(end)
    requires InEra(start - DefaultMaxAttempts) && InEra(end)
    requires BankOf(b.bank) != OtherBank
    ensures var bank := BankOf(b.bank);
      RoutePost(Some(b), banks).payload
        == Rates(ExpectedAll(true, Stamp(bank), RouteLookup(banks, bank), DateRange(start, end)))
  {
    var bank := BankOf(b.bank);
    var days := DateRange(start, end);
    EraKeysDistinct(start - DefaultMaxAttempts, end);
    ResolveTransparent(CacheKey, Stamp(bank), RouteLookup(banks, bank), start - DefaultMaxAttempts, end, days, map[]);
  }
}
