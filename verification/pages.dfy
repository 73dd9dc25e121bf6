/** `handleFetch` of the two client pages, bidv/page.jsx and tcb/page.jsx:
    validation of the two `<input type="date">` texts, the inclusive day
    range, and a loop that asks the bank once per day with no cache and no
    backfill, keeping the hits in day order. */
module Pages {
  import opened Js
  import opened Calendar
  import opened Dates
  import opened Records
  import opened Adapters
  import opened Route
  import opened Server

  /** Where `handleFetch` stopped, as its status message says. */
  datatype PageStatus =
    | MissingDates   // "Please select both start and end dates."
    | StartAfterEnd  // "Start date must be before or equal to end date."
    | NoData         // "No data found for the selected range."
    | Done           // the status is cleared

  /** The final `results` state, the day each came from, and the days the
      page asked the bank about. */
  datatype PageRun = PageRun(status: PageStatus, results: seq<Rate>, produced: seq<Day>, calls: seq<Day>)

  /** `getDateRange(startDate, endDate)` over the input texts: empty when a
      text is not a `yyyy-MM-dd` date, as `new Date` then gives an invalid
      date and `current <= last` fails. */
  function PageDays(start: string, end: string): (days: seq<Day>)
    ensures ParseIso(start).Some? && ParseIso(end).Some? ==>
      days == DateRange(ParseIso(start).value, ParseIso(end).value)
    ensures ParseIso(start).None? || ParseIso(end).None? ==> days == []
    ensures Increasing(days)
  {
    match (ParseIso(start), ParseIso(end))
    case (Some(a), Some(z)) => DateRange(a, z)
    case _ => []
  }

  /** A page fetch never throws: both pages catch every error and return `null`. */
  function Caught(lookup: Day -> Option<Rate>): Day -> Attempt {
    d => Returned(lookup(d))
  }

  /** `handleFetch()` with `lookup` the page's per-day fetch. Both dates
      are required, `startDate > endDate` as texts is refused, and both
      checks come before any request; then every day of the range is asked
      once and the hits are kept. */
  function HandleFetch(start: string, end: string, lookup: Day -> Option<Rate>): (p: PageRun)
    ensures start == "" || end == "" ==> p == PageRun(MissingDates, [], [], [])
    ensures start != "" && end != "" && StrLess(end, start) ==> p == PageRun(StartAfterEnd, [], [], [])
    ensures p.status.MissingDates? <==> start == "" || end == ""
    ensures p.calls != [] ==> p.status.Done? || p.status.NoData?
    ensures (p.status.Done? || p.status.NoData?) ==> (p.calls == PageDays(start, end)
      && p.results == Hits(Caught(lookup), p.calls)
      && p.produced == HitDays(Caught(lookup), p.calls)
      && (p.status.Done? <==> p.results != []))
  {
    if start == "" || end == "" then PageRun(MissingDates, [], [], [])
    else if StrLess(end, start) then PageRun(StartAfterEnd, [], [], [])
    else
      var days := PageDays(start, end);
      var rs := Hits(Caught(lookup), days);
      PageRun(if rs == [] then NoData else Done, rs, HitDays(Caught(lookup), days), days)
  }

  /** For texts the date inputs produce, the text comparison is the day
      comparison: a range is refused exactly when its end is before its
      start, so a one-day range is accepted. */
  lemma TextOrderIsDayOrder(start: string, end: string)
    requires ParseIso(start).Some? && ParseIso(end).Some?
    ensures StrLess(end, start) <==> ParseIso(end).value < ParseIso(start).value
  {
    var a := ParseIso(start).value;
    var z := ParseIso(end).value;
    ParseIsoRoundTrip(start);
    ParseIsoRoundTrip(end);
    IsoOrder(z, a);
  }

  /** An accepted fetch asks about every day from start to end, in order,
      and keeps, in that order, exactly the days that had a rate, each with
      the record the page built for it. */
  lemma HandleFetchKeepsHits(start: string, end: string, lookup: Day -> Option<Rate>)
    requires start != "" && end != "" && ParseIso(start).Some? && ParseIso(end).Some?
    requires ParseIso(start).value <= ParseIso(end).value
    ensures var p := HandleFetch(start, end, lookup);
      && p.calls == DateRange(ParseIso(start).value, ParseIso(end).value)
      && |p.results| == |p.produced|
      && Increasing(p.produced)
      && (forall d :: d in p.produced <==> ParseIso(start).value <= d <= ParseIso(end).value && lookup(d).Some?)
      && (forall i :: 0 <= i < |p.produced| ==> lookup(p.produced[i]) == Some(p.results[i]))
  {
    TextOrderIsDayOrder(start, end);
    var days := PageDays(start, end);
    var attempt := Caught(lookup);
    HitsFromTheirDays(attempt, days);
    HitDaysExact(attempt, days);
    var p := HandleFetch(start, end, lookup);
    assert p.calls == days;
    forall d
      ensures d in days <==> ParseIso(start).value <= d <= ParseIso(end).value
    {
      if ParseIso(start).value <= d <= ParseIso(end).value {
        assert days[d - ParseIso(start).value] == d;
      }
    }
  }

  /** When every record `lookup` gives for a day is dated `stamp` of that
      day, every record the loop keeps is dated `stamp` of its day. */
  lemma KeptRecordsDated(days: seq<Day>, lookup: Day -> Option<Rate>, stamp: Day -> string)
    requires forall d :: lookup(d).Some? ==> lookup(d).value.date == stamp(d)
    ensures |HitDays(Caught(lookup), days)| == |Hits(Caught(lookup), days)|
    ensures forall i :: 0 <= i < |HitDays(Caught(lookup), days)| ==>
      Hits(Caught(lookup), days)[i].date == stamp(HitDays(Caught(lookup), days)[i])
  {
    var ds := HitDays(Caught(lookup), days);
    var rs := Hits(Caught(lookup), days);
    HitsFromTheirDays(Caught(lookup), days);
    forall i | 0 <= i < |ds|
      ensures rs[i].date == stamp(ds[i])
    {
      assert Caught(lookup)(ds[i]) == Returned(Some(rs[i]));
    }
  }

  /* ---------------- the two pages ---------------- */

  /** The BIDV page's per-day fetch. */
  function BidvPageLookup(banks: Banks): Day -> Option<Rate> {
    d => PageBidv(banks, d)
  }

  /** The Techcombank page's per-day fetch. */
  function TcbPageLookup(banks: Banks): Day -> Option<Rate> {
    d => PageTcb(banks, d)
  }

  lemma BidvPageDated(banks: Banks, d: Day)
    requires BidvPageLookup(banks)(d).Some?
    ensures BidvPageLookup(banks)(d).value.date == PageDate(d)
  {
  }

  lemma TcbPageDated(banks: Banks, d: Day)
    requires TcbPageLookup(banks)(d).Some?
    ensures TcbPageLookup(banks)(d).value.date == PageDate(d)
  {
  }

  /** Every record the BIDV page keeps is dated `formatDate` of the day it
      was asked about. */
  lemma BidvPageDatesItsDays(banks: Banks, start: string, end: string)
    ensures var p := HandleFetch(start, end, BidvPageLookup(banks));
      |p.produced| == |p.results| && forall i :: 0 <= i < |p.produced| ==> p.results[i].date == PageDate(p.produced[i])
  {
    var lookup := BidvPageLookup(banks);
    forall d | lookup(d).Some?
      ensures lookup(d).value.date == PageDate(d)
    {
      BidvPageDated(banks, d);
    }
    KeptRecordsDated(PageDays(start, end), lookup, PageDate);
  }

  /** Every record the Techcombank page keeps is dated `formatDate` of the
      day it was asked about, though it asked with the page's
      `${yyyy}-${mm}-${dd}` text, whose year is unpadded. */
  lemma TcbPageDatesItsDays(banks: Banks, start: string, end: string)
    ensures var p := HandleFetch(start, end, TcbPageLookup(banks));
      |p.produced| == |p.results| && forall i :: 0 <= i < |p.produced| ==> p.results[i].date == PageDate(p.produced[i])
  {
    var lookup := TcbPageLookup(banks);
    forall d | lookup(d).Some?
      ensures lookup(d).value.date == PageDate(d)
    {
      TcbPageDated(banks, d);
    }
    KeptRecordsDated(PageDays(start, end), lookup, PageDate);
  }
}
