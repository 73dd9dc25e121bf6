/** The `POST` handler of the SvelteKit variant, +server.js: the same
    validation and day range as route.js, but no cache and no backfill. Each
    day is tried once inside its own `try`; a hit is kept, a miss or a throw
    is dropped and the loop goes on. */
module Server {
  import opened Js
  import opened Calendar
  import opened Dates
  import opened Records
  import opened Adapters
  import opened Backfill
  import opened Route

  /** The `try` block for day `d`: `fetchBIDVRates` never throws, `fetchTCBRates`
      does when its request fails, and an unrecognised bank calls nothing. */
  function ServerDay(banks: Banks, bank: Bank, d: Day): (r: Attempt)
    ensures bank == OtherBank ==> r == Returned(None)
    ensures bank == BidvBank ==> r.Returned? && (r.rate.Some? <==> ServerBidvRow(banks, BankDate(d)).Some?)
    ensures bank == TcbBank ==> (r.Returned? <==> banks.rates(IsoDate(d)).Received?)
    ensures bank == TcbBank && r.Returned? ==> (r.rate.Some? <==> TcbRowFor(banks, IsoDate(d)).Some?)
    ensures r.Returned? && r.rate.Some? ==>
      r.rate.value.date == (if bank == BidvBank then BankDate(d) else IsoDate(d))
  {
    match bank
    case BidvBank => Returned(ServerBidv(banks, d))
    case TcbBank => ServerTcb(banks, d)
    case OtherBank => Returned(None)
  }

  /** A day the loop keeps: its attempt returned a record. */
  predicate Hit(a: Attempt) {
    a.Returned? && a.rate.Some?
  }

  /** The records a day's attempt pushes. */
  function Pushed(a: Attempt): (rs: seq<Rate>)
    ensures |rs| <= 1
  {
    if Hit(a) then [a.rate.value] else []
  }

  /** The day itself, when its attempt pushes a record. */
  function KeptDay(a: Attempt, d: Day): (ds: seq<Day>)
    ensures |ds| == |Pushed(a)|
  {
    if Hit(a) then [d] else []
  }

  /** The records the `for (const date of dates)` loop of +server.js pushes,
      with `attempt` the `try` block of a day. */
  function Hits(attempt: Day -> Attempt, days: seq<Day>): (rs: seq<Rate>)
    ensures |rs| <= |days|
    decreases |days|
  {
    if |days| == 0 then [] else Pushed(attempt(days[0])) + Hits(attempt, days[1..])
  }

  /** The day each pushed record came from. */
  function HitDays(attempt: Day -> Attempt, days: seq<Day>): (ds: seq<Day>)
    decreases |days|
  {
    if |days| == 0 then [] else KeptDay(attempt(days[0]), days[0]) + HitDays(attempt, days[1..])
  }

  /** Each pushed record is what its day's attempt returned. */
  lemma {:induction false} HitsFromTheirDays(attempt: Day -> Attempt, days: seq<Day>)
    ensures |HitDays(attempt, days)| == |Hits(attempt, days)|
    ensures forall i :: 0 <= i < |HitDays(attempt, days)| ==>
      attempt(HitDays(attempt, days)[i]) == Returned(Some(Hits(attempt, days)[i]))
    decreases |days|
  {
    if |days| > 0 {
      HitsFromTheirDays(attempt, days[1..]);
      var a := attempt(days[0]);
      var ds := HitDays(attempt, days[1..]);
      var rs := Hits(attempt, days[1..]);
      assert HitDays(attempt, days) == KeptDay(a, days[0]) + ds;
      assert Hits(attempt, days) == Pushed(a) + rs;
      if Hit(a) {
        forall i | 1 <= i < |ds| + 1
          ensures attempt((KeptDay(a, days[0]) + ds)[i]) == Returned(Some((Pushed(a) + rs)[i]))
        {
          assert (KeptDay(a, days[0]) + ds)[i] == ds[i - 1];
          assert (Pushed(a) + rs)[i] == rs[i - 1];
        }
      }
    }
  }

  /** The loop keeps exactly the requested days that hit, in the order they
      were requested. */
  lemma {:induction false} HitDaysExact(attempt: Day -> Attempt, days: seq<Day>)
    ensures forall d | d in HitDays(attempt, days) :: d in days && Hit(attempt(d))
    ensures forall d | d in days && Hit(attempt(d)) :: d in HitDays(attempt, days)
    ensures Increasing(days) ==> Increasing(HitDays(attempt, days))
    decreases |days|
  {
    if |days| > 0 {
      var tail := days[1..];
      HitDaysExact(attempt, tail);
      var rest := HitDays(attempt, tail);
      assert forall d | d in rest :: d in tail;
      var kept := Hit(attempt(days[0]));
      var produced := (if kept then [days[0]] else []) + rest;
      assert HitDays(attempt, days) == produced;
      assert forall i :: 0 <= i < |rest| ==> rest[i] in rest;
      ProducedIncreasing(days, rest, kept, produced);
      assert days == [days[0]] + tail;
    }
  }

  /** The loop distributes over a split of the day list: a day contributes
      the same records wherever it stands. */
  lemma {:induction false} HitsAppend(attempt: Day -> Attempt, xs: seq<Day>, ys: seq<Day>)
    ensures Hits(attempt, xs + ys) == Hits(attempt, xs) + Hits(attempt, ys)
    decreases |xs|
  {
    if |xs| > 0 {
      assert (xs + ys)[0] == xs[0];
      assert (xs + ys)[1..] == xs[1..] + ys;
      HitsAppend(attempt, xs[1..], ys);
    } else {
      assert xs + ys == ys;
    }
  }

  /** Every pushed record is the record some requested day's attempt
      returned. */
  lemma HitsWitnessed(attempt: Day -> Attempt, days: seq<Day>)
    ensures forall i :: 0 <= i < |Hits(attempt, days)| ==>
      exists d :: d in days && Hit(attempt(d)) && attempt(d).rate.value == Hits(attempt, days)[i]
  {
    var rs := Hits(attempt, days);
    var ds := HitDays(attempt, days);
    HitsFromTheirDays(attempt, days);
    HitDaysExact(attempt, days);
    forall i | 0 <= i < |rs|
      ensures exists d :: d in days && Hit(attempt(d)) && attempt(d).rate.value == rs[i]
    {
      assert ds[i] in ds && attempt(ds[i]) == Returned(Some(rs[i]));
    }
  }

  /** A day whose `try` block throws adds nothing, and the days after it are
      still processed. */
  lemma ThrowSkipped(attempt: Day -> Attempt, xs: seq<Day>, d: Day, ys: seq<Day>)
    requires attempt(d) == Threw
    ensures Hits(attempt, xs + [d] + ys) == Hits(attempt, xs) + Hits(attempt, ys)
  {
    HitsAppend(attempt, xs + [d], ys);
    HitsAppend(attempt, xs, [d]);
    OneThrowHitsNothing(attempt, d);
    assert Hits(attempt, xs + [d]) == Hits(attempt, xs);
  }

  lemma OneThrowHitsNothing(attempt: Day -> Attempt, d: Day)
    requires attempt(d) == Threw
    ensures Hits(attempt, [d]) == []
  {
    assert [d][1..] == [];
    assert Pushed(attempt(d)) == [];
  }

  /** `POST(request)` of +server.js, with `attempts(bank)` the `try` block
      of a day for that bank. */
  function PlainPost(request: Option<Body>, attempts: Bank -> Day -> Attempt): (r: Reply)
    ensures request.None? ==> r == Reply(500, Problem("Internal server error"), [])
    ensures request.Some? && !Complete(request.value) ==>
      r == Reply(400, Problem("Missing required parameters"), [])
    ensures r.status == 200 <==> request.Some? && Complete(request.value)
    ensures r.status == 200 ==> (r.payload.Rates?
      && |r.payload.data| <= |RequestDays(request.value)|
      && r.calls == (if BankOf(request.value.bank) == OtherBank then [] else RequestDays(request.value)))
    ensures r.status == 200 ==> r.payload.data == Hits(attempts(BankOf(request.value.bank)), RequestDays(request.value))
  {
    match request
    case None => Reply(500, Problem("Internal server error"), [])
    case Some(b) =>
      if !Complete(b) then Reply(400, Problem("Missing required parameters"), [])
      else
        var bank := BankOf(b.bank);
        var days := RequestDays(b);
        Reply(200, Rates(Hits(attempts(bank), days)), if bank == OtherBank then [] else days)
  }

  /** The `try` block of a day for each bank. */
  function ServerAttempts(banks: Banks): (attempts: Bank -> Day -> Attempt)
    ensures forall d :: attempts(OtherBank)(d) == Returned(None)
    ensures forall d :: attempts(BidvBank)(d).Returned?
    ensures forall d :: attempts(TcbBank)(d).Threw? <==> banks.rates(IsoDate(d)).Failed?
  {
    bank => d => ServerDay(banks, bank, d)
  }

  /** The handler over the real adapters: for a complete request the reply
      holds, in day order, exactly the records of the requested days whose
      `try` block returned one; an unknown bank gets an empty list. */
  function ServerPost(request: Option<Body>, banks: Banks): (r: Reply)
    ensures r.status == 200 <==> request.Some? && Complete(request.value)
    ensures request.None? ==> r.status == 500
    ensures request.Some? && !Complete(request.value) ==> r.status == 400
    ensures r.status == 200 ==> r.payload.Rates?
    ensures r.status == 200 && BankOf(request.value.bank) == OtherBank ==> r.payload.data == []
    ensures r.status == 200 ==> var bank := BankOf(request.value.bank);
      var days := RequestDays(request.value);
      var kept := HitDays(ServerAttempts(banks)(bank), days);
      && |kept| == |r.payload.data|
      && Increasing(kept)
      && (forall d :: d in kept <==> d in days && Hit(ServerDay(banks, bank, d)))
      && (forall i :: 0 <= i < |kept| ==> ServerDay(banks, bank, kept[i]) == Returned(Some(r.payload.data[i])))
  {
    var r := PlainPost(request, ServerAttempts(banks));
    if r.status == 200 then
      var bank := BankOf(request.value.bank);
      var days := RequestDays(request.value);
      var attempt := ServerAttempts(banks)(bank);
      HitsFromTheirDays(attempt, days);
      HitDaysExact(attempt, days);
      if bank == OtherBank then
        NothingHits(attempt, days);
        r
      else r
    else r
  }

  /** A loop whose every `try` block returns null pushes nothing. */
  lemma {:induction false} NothingHits(attempt: Day -> Attempt, days: seq<Day>)
    requires forall d :: attempt(d) == Returned(None)
    ensures Hits(attempt, days) == []
    decreases |days|
  {
    if |days| > 0 {
      NothingHits(attempt, days[1..]);
    }
  }

  /** Where every requested day has a direct hit, the cached, backfilling
      loop of route.js and the plain loop of +server.js return the same
      records. */
  lemma {:induction false} DirectHitsAgree(lookup: Day -> Option<Rate>, stamp: Day -> string,
                                           attempt: Day -> Attempt, days: seq<Day>)
    requires forall i :: 0 <= i < |days| ==> lookup(days[i]).Some? && attempt(days[i]) == Returned(lookup(days[i]))
    ensures ExpectedAll(true, stamp, lookup, days) == Hits(attempt, days)
    decreases |days|
  {
    if |days| > 0 {
      assert forall i :: 0 <= i < |days[1..]| ==> days[1..][i] == days[i + 1];
      DirectHitsAgree(lookup, stamp, attempt, days[1..]);
    }
  }

  /** The BIDV attempt of +server.js returns what route.js looks up. */
  lemma BidvAttemptIsLookup(banks: Banks, d: Day)
    ensures ServerAttempts(banks)(BidvBank)(d) == Returned(RouteLookup(banks, BidvBank)(d))
  {
  }

  /** For BIDV over era days with a rate on every requested day, the two
      server variants answer with the same records. */
  lemma BidvVariantsAgree(b: Body, banks: Banks, start: Day, end: Day)
    requires Complete(b) && ParseDate(b.startDate) == Some(start) && ParseDate(b.endDate) == Some(end)
    requires InEra(start - DefaultMaxAttempts) && InEra(end)
    requires BankOf(b.bank) == BidvBank
    requires forall d :: start <= d <= end ==> RouteLookup(banks, BidvBank)(d).Some?
    ensures ServerPost(Some(b), banks).payload == RoutePost(Some(b), banks).payload
  {
    var days := DateRange(start, end);
    RoutePostMeetsReference(b, banks, start, end);
    var lookup := RouteLookup(banks, BidvBank);
    var attempt := ServerAttempts(banks)(BidvBank);
    forall i | 0 <= i < |days|
      ensures lookup(days[i]).Some? && attempt(days[i]) == Returned(lookup(days[i]))
    {
      BidvAttemptIsLookup(banks, days[i]);
    }
    DirectHitsAgree(lookup, Stamp(BidvBank), attempt, days);
    assert RequestDays(b) == days;
    var plain := PlainPost(Some(b), ServerAttempts(banks));
    assert ServerPost(Some(b), banks) == plain;
    assert plain.payload == Rates(Hits(attempt, days));
  }
}
