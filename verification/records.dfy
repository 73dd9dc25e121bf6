/** The upstream bank replies after JSON parsing, the bank oracle that stands
    for the network, the rate records the code builds, and the two pure
    selections every adapter shares: the latest `time` entry of a BIDV
    search reply and the first USD row of a rates list. */
module Records {
  import opened Js

  /* ---------------- upstream replies ---------------- */

  /** One HTTP exchange. `Failed` is anything that makes the call throw: a
      transport error, a non-OK status, or a body of the wrong shape (a
      missing body, a `data` that is not a list, a list item that is not an
      object). */
  datatype Fetch<T> = Received(body: T) | Failed

  /** An entry of the BIDV search-time reply. */
  datatype TimeEntry = TimeEntry(time: Value, namerecord: Value)

  /** `{status, data: [{time, namerecord}]}`; `data` is `None` when absent or null. */
  datatype SearchReply = SearchReply(status: Value, data: Option<seq<TimeEntry>>)

  /** A row of the BIDV rates reply. */
  datatype CurrencyRow = CurrencyRow(
    currency: Value, nameVI: Value, nameEN: Value, muaTm: Value, muaCk: Value, ban: Value)

  /** `{status, data: [{currency, nameVI, ...}]}`. */
  datatype DetailReply = DetailReply(status: Value, data: Option<seq<CurrencyRow>>)

  /** A row of the Techcombank rates reply. */
  datatype TcbRow = TcbRow(
    label_: Value, askRate: Value, bidRateCK: Value, bidRateTM: Value,
    askRateTM: Value, sourceCurrency: Value, targetCurrency: Value)

  /** `{exchangeRate?: {data?: [...]}}`. */
  datatype TcbReply = TcbReply(exchangeRate: Option<TcbTable>)
  datatype TcbTable = TcbTable(data: Option<seq<TcbRow>>)

  /** The network: what each upstream endpoint answers, keyed by the text the
      code puts in the request. BIDV is asked by date text, then by date text
      and `time` text; Techcombank by date text. The server's GET query and
      the page's POST form carrying the same texts get the same reply. */
  datatype Banks = Banks(
    search: string -> Fetch<SearchReply>,
    detail: (string, string) -> Fetch<DetailReply>,
    rates: string -> Fetch<TcbReply>)

  /* ---------------- rate records ---------------- */

  /** The JSON objects the adapters return. */
  datatype Rate =
    | BidvRate(date: string, nameVI: Value, muaTm: Value, muaCk: Value,
               currency: Value, nameEN: Value, ban: Value)
    | TcbRate(date: string, label_: Value, askRate: Value, bidRateCK: Value,
              bidRateTM: Value, askRateTM: Value, sourceCurrency: Value, targetCurrency: Value)

  /** `row[key]`: a property read, `undefined` for a key the record lacks. */
  function Field(r: Rate, key: string): Value {
    match r
    case BidvRate(date, nameVI, muaTm, muaCk, currency, nameEN, ban) =>
      if key == "date" then Str(date)
      else if key == "nameVI" then nameVI
      else if key == "muaTm" then muaTm
      else if key == "muaCk" then muaCk
      else if key == "currency" then currency
      else if key == "nameEN" then nameEN
      else if key == "ban" then ban
      else Undefined
    case TcbRate(date, label_, askRate, bidRateCK, bidRateTM, askRateTM, sourceCurrency, targetCurrency) =>
      if key == "date" then Str(date)
      else if key == "label" then label_
      else if key == "askRate" then askRate
      else if key == "bidRateCK" then bidRateCK
      else if key == "bidRateTM" then bidRateTM
      else if key == "askRateTM" then askRateTM
      else if key == "sourceCurrency" then sourceCurrency
      else if key == "targetCurrency" then targetCurrency
      else Undefined
  }

  /** The keys each record kind carries. */
  function Keys(r: Rate): seq<string> {
    if r.BidvRate? then ["date", "nameVI", "muaTm", "muaCk", "currency", "nameEN", "ban"]
    else ["date", "label", "askRate", "bidRateCK", "bidRateTM", "askRateTM", "sourceCurrency", "targetCurrency"]
  }

  /** `{ ...r, date }`: a copy with only `date` replaced. */
  function WithDate(r: Rate, date: string): (f: Rate)
    ensures Field(f, "date") == Str(date)
    ensures forall key :: key != "date" ==> Field(f, key) == Field(r, key)
    ensures Keys(f) == Keys(r)
  {
    r.(date := date)
  }

  /** A value that is there: truthy, or the empty string the adapters
      substitute; never `undefined` or `null`. */
  predicate Present(v: Value) {
    Truthy(v) || v == Str("")
  }

  /** Every field of the record is present. */
  predicate NoMissing(r: Rate) {
    match r
    case BidvRate(_, nameVI, muaTm, muaCk, currency, nameEN, ban) =>
      Present(nameVI) && Present(muaTm) && Present(muaCk) && Present(currency) && Present(nameEN) && Present(ban)
    case TcbRate(_, label_, askRate, bidRateCK, bidRateTM, askRateTM, sourceCurrency, targetCurrency) =>
      Present(label_) && Present(askRate) && Present(bidRateCK) && Present(bidRateTM)
      && Present(askRateTM) && Present(sourceCurrency) && Present(targetCurrency)
  }

  /* ---------------- the latest search entry ---------------- */

  /** The fold `data.reduce((l, c) => c.time > l.time ? c : l, data[0])`
      (and the page's equivalent `for` loop) from position `i` with the
      entry at `best` held: the index of the entry it returns. */
  function LatestFrom(s: seq<TimeEntry>, best: nat, i: nat): (k: nat)
    requires best < |s| && i <= |s|
    ensures k < |s| && (k == best || i <= k)
    ensures forall j :: k < j < |s| && i <= j ==> !Later(s[j].time, s[k].time)
    decreases |s| - i
  {
    if i == |s| then best
    else if Later(s[i].time, s[best].time) then LatestFrom(s, i, i + 1)
    else LatestFrom(s, best, i + 1)
  }

  /** The index of the entry the fold chooses over the whole list: no entry
      after it is later. */
  function Latest(s: seq<TimeEntry>): (k: nat)
    requires |s| > 0
    ensures k < |s|
    ensures forall j :: k < j < |s| ==> !Later(s[j].time, s[k].time)
  {
    LatestFrom(s, 0, 0)
  }

  /** Two values `>` treats alike: both strings or both numbers. */
  predicate Kindred(a: Value, b: Value) {
    (a.Str? && b.Str?) || (a.Num? && b.Num?)
  }

  /** All `time` values are strings, or all are numbers. */
  predicate UniformTimes(s: seq<TimeEntry>) {
    (forall i :: 0 <= i < |s| ==> s[i].time.Str?) || (forall i :: 0 <= i < |s| ==> s[i].time.Num?)
  }

  lemma LaterTransitive(a: Value, b: Value, c: Value)
    requires Kindred(a, b) && Kindred(b, c)
    requires Later(a, b) && Later(b, c)
    ensures Later(a, c)
  {
    if a.Str? {
      StrLessTransitive(c.s, b.s, a.s);
    }
  }

  lemma LaterTotal(a: Value, b: Value)
    requires Kindred(a, b)
    ensures Later(a, b) || Later(b, a) || a == b
  {
    if a.Str? {
      StrLessTrichotomy(a.s, b.s);
    }
  }

  /** With uniform times, the fold returns the first entry of maximal `time`:
      none is later than it, and it is strictly later than every entry
      before it. */
  lemma LatestIsFirstMaximum(s: seq<TimeEntry>)
    requires |s| > 0 && UniformTimes(s)
    ensures forall j :: 0 <= j < |s| ==> !Later(s[j].time, s[Latest(s)].time)
    ensures forall j :: 0 <= j < Latest(s) ==> Later(s[Latest(s)].time, s[j].time)
  {
    LatestFromFirstMaximum(s, 0, 0);
  }

  lemma {:induction false} LatestFromFirstMaximum(s: seq<TimeEntry>, best: nat, i: nat)
    requires best < |s| && i <= |s| && UniformTimes(s)
    requires best < i || best == 0
    requires forall j :: 0 <= j < i ==> !Later(s[j].time, s[best].time)
    requires forall j :: 0 <= j < best ==> Later(s[best].time, s[j].time)
    ensures var k := LatestFrom(s, best, i);
      && (forall j :: 0 <= j < |s| ==> !Later(s[j].time, s[k].time))
      && (forall j :: 0 <= j < k ==> Later(s[k].time, s[j].time))
    decreases |s| - i
  {
    if i < |s| {
      if Later(s[i].time, s[best].time) {
        forall j | 0 <= j < i + 1
          ensures !Later(s[j].time, s[i].time)
        {
          if j == i {
            LaterIrreflexive(s[i].time);
          } else if Later(s[j].time, s[i].time) {
            LaterTransitive(s[j].time, s[i].time, s[best].time);
          }
        }
        forall j | 0 <= j < i
          ensures Later(s[i].time, s[j].time)
        {
          LaterTotal(s[i].time, s[j].time);
        }
        LatestFromFirstMaximum(s, i, i + 1);
      } else {
        LatestFromFirstMaximum(s, best, i + 1);
      }
    }
  }

  /** The entry a BIDV search reply yields: `None` unless `status` is the
      number 1 and `data` is a non-empty list. */
  function ChooseEntry(reply: SearchReply): (e: Option<TimeEntry>)
    ensures e.Some? <==> (reply.status == Num(1) && reply.data.Some? && |reply.data.value| > 0)
    ensures e.Some? ==> var s := reply.data.value;
      exists k :: 0 <= k < |s| && s[k] == e.value && forall j :: k < j < |s| ==> !Later(s[j].time, s[k].time)
    ensures e.Some? && UniformTimes(reply.data.value) ==> var s := reply.data.value;
      exists k :: 0 <= k < |s| && s[k] == e.value
        && (forall j :: 0 <= j < |s| ==> !Later(s[j].time, s[k].time))
        && (forall j :: 0 <= j < k ==> Later(s[k].time, s[j].time))
  {
    if reply.status != Num(1) || reply.data.None? || |reply.data.value| == 0 then None
    else
      var s := reply.data.value;
      var k := Latest(s);
      assert s[k] == s[k];
      if UniformTimes(s) then
        LatestIsFirstMaximum(s);
        Some(s[k])
      else Some(s[k])
  }

  /* ---------------- the USD rows ---------------- */

  predicate IsUsdRow(row: CurrencyRow) {
    row.currency == Str("USD")
  }

  /** `data.find(item => item.currency === "USD")` after the status check:
      `None` unless `status` is 1, `data` is present and some row is USD;
      otherwise the first USD row. */
  function UsdRow(reply: DetailReply): (u: Option<CurrencyRow>)
    ensures u.Some? <==> (reply.status == Num(1) && reply.data.Some?
      && exists k :: 0 <= k < |reply.data.value| && IsUsdRow(reply.data.value[k]))
    ensures u.Some? ==> var s := reply.data.value;
      exists k :: 0 <= k < |s| && s[k] == u.value && IsUsdRow(s[k]) && forall j :: 0 <= j < k ==> !IsUsdRow(s[j])
  {
    if reply.status != Num(1) || reply.data.None? then None
    else
      var s := reply.data.value;
      match FindFirst(s, IsUsdRow)
      case None => None
      case Some(k) => Some(s[k])
  }

  /** The label of the Techcombank row the code reads. */
  const UsdLabel: string := "USD (50,100)"

  predicate IsUsdTcbRow(row: TcbRow) {
    row.label_ == Str(UsdLabel)
  }

  /** `exchangeRate?.data?.find(item => item.label === "USD (50,100)")`. */
  function UsdTcbRow(reply: TcbReply): (u: Option<TcbRow>)
    ensures u.Some? <==> (reply.exchangeRate.Some? && reply.exchangeRate.value.data.Some?
      && exists k :: 0 <= k < |reply.exchangeRate.value.data.value| && IsUsdTcbRow(reply.exchangeRate.value.data.value[k]))
    ensures u.Some? ==> var s := reply.exchangeRate.value.data.value;
      exists k :: 0 <= k < |s| && s[k] == u.value && IsUsdTcbRow(s[k]) && forall j :: 0 <= j < k ==> !IsUsdTcbRow(s[j])
  {
    if reply.exchangeRate.None? || reply.exchangeRate.value.data.None? then None
    else
      var s := reply.exchangeRate.value.data.value;
      match FindFirst(s, IsUsdTcbRow)
      case None => None
      case Some(k) => Some(s[k])
  }
}
