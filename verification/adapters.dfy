/** The bank adapters: `fetchBIDVRates` and `fetchTCBRates` of the two server
    files, and the pages' `fetchNamerecord`/`fetchUSD` twins, each turning the
    oracle's replies for one day into a rate record or nothing. */
module Adapters {
  import opened Js
  import opened Calendar
  import opened Dates
  import opened Records

  /* ---------------- BIDV ---------------- */

  /** The search-time call for a date text: the entry the code goes on with,
      or `None` when the reply is missing, has `status` other than 1 or an
      empty list. */
  function SearchEntry(banks: Banks, date: string): (e: Option<TimeEntry>)
    ensures banks.search(date).Failed? ==> e.None?
    ensures banks.search(date).Received? ==> e == ChooseEntry(banks.search(date).body)
  {
    match banks.search(date)
    case Failed => None
    case Received(reply) => ChooseEntry(reply)
  }

  /** Both BIDV calls of the server adapters: the USD row of the rates
      published under the latest `namerecord`, whose `${...}` text is the
      `time` query parameter. Every failure is caught and becomes null. */
  function ServerBidvRow(banks: Banks, date: string): (row: Option<CurrencyRow>)
    ensures SearchEntry(banks, date).None? ==> row.None?
    ensures row.Some? ==> IsUsdRow(row.value)
    ensures row.Some? ==> (SearchEntry(banks, date).Some?
      && var t := ToText(SearchEntry(banks, date).value.namerecord);
         banks.detail(date, t).Received? && row == UsdRow(banks.detail(date, t).body))
    ensures (SearchEntry(banks, date).Some?
      && var t := ToText(SearchEntry(banks, date).value.namerecord);
         banks.detail(date, t).Received? && UsdRow(banks.detail(date, t).body).Some?) ==> row.Some?
  {
    match SearchEntry(banks, date)
    case None => None
    case Some(e) =>
      match banks.detail(date, ToText(e.namerecord))
      case Failed => None
      case Received(reply) => UsdRow(reply)
  }

  /** The record the server adapters build from the USD row: every field
      falls back to `""` when missing or falsy, except `currency`, which
      falls back to `"USD"`. */
  function BidvDefaults(date: string, row: CurrencyRow): (r: Rate)
    ensures r.BidvRate? && r.date == date && NoMissing(r)
    ensures Truthy(row.nameVI) ==> r.nameVI == row.nameVI
    ensures Truthy(row.muaTm) ==> r.muaTm == row.muaTm
    ensures Truthy(row.muaCk) ==> r.muaCk == row.muaCk
    ensures Truthy(row.nameEN) ==> r.nameEN == row.nameEN
    ensures Truthy(row.ban) ==> r.ban == row.ban
    ensures Truthy(row.currency) ==> r.currency == row.currency
    ensures !Truthy(row.currency) ==> r.currency == Str("USD")
  {
    BidvRate(date,
      Or(row.nameVI, Str("")), Or(row.muaTm, Str("")), Or(row.muaCk, Str("")),
      Or(row.currency, Str("USD")), Or(row.nameEN, Str("")), Or(row.ban, Str("")))
  }

  /** `fetchBIDVRates(d)`, the same in both server files: the record is dated
      `dd/MM/yyyy` of the day asked, its currency is always `"USD"` and no
      field is left missing. */
  function ServerBidv(banks: Banks, d: Day): (r: Option<Rate>)
    ensures r.Some? <==> ServerBidvRow(banks, BankDate(d)).Some?
    ensures r.Some? ==> r.value == BidvDefaults(BankDate(d), ServerBidvRow(banks, BankDate(d)).value)
    ensures r.Some? ==> (r.value.BidvRate? && r.value.date == BankDate(d)
      && r.value.currency == Str("USD") && NoMissing(r.value))
  {
    match ServerBidvRow(banks, BankDate(d))
    case None => None
    case Some(row) => Some(BidvDefaults(BankDate(d), row))
  }

  /** The BIDV page's `fetchNamerecord`: the `namerecord` of the latest
      entry, or `None` for the page's `null`. */
  function PageNamerecord(banks: Banks, date: string): (n: Option<Value>)
    ensures n.Some? <==> SearchEntry(banks, date).Some?
    ensures n.Some? ==> n.value == SearchEntry(banks, date).value.namerecord
  {
    match SearchEntry(banks, date)
    case None => None
    case Some(e) => Some(e.namerecord)
  }

  /** One day of the BIDV page loop: `fetchNamerecord`, the skip on a falsy
      `namerecord`, then `fetchUSD`, whose fields are copied as they come,
      under `date` = `formatDate` of the day. */
  function PageBidv(banks: Banks, d: Day): (r: Option<Rate>)
    ensures r.Some? ==> (PageNamerecord(banks, PageDate(d)).Some?
      && Truthy(PageNamerecord(banks, PageDate(d)).value))
    ensures r.Some? ==> var t := ToText(PageNamerecord(banks, PageDate(d)).value);
      && banks.detail(PageDate(d), t).Received?
      && UsdRow(banks.detail(PageDate(d), t).body).Some?
      && var row := UsdRow(banks.detail(PageDate(d), t).body).value;
         r.value == BidvVerbatim(PageDate(d), row)
    ensures r.Some? ==> r.value.currency == Str("USD")
    ensures (PageNamerecord(banks, PageDate(d)).Some? && Truthy(PageNamerecord(banks, PageDate(d)).value)
      && var t := ToText(PageNamerecord(banks, PageDate(d)).value);
         banks.detail(PageDate(d), t).Received? && UsdRow(banks.detail(PageDate(d), t).body).Some?) ==> r.Some?
  {
    var date := PageDate(d);
    match PageNamerecord(banks, date)
    case None => None
    case Some(n) =>
      if !Truthy(n) then None
      else
        match banks.detail(date, ToText(n))
        case Failed => None
        case Received(reply) =>
          match UsdRow(reply)
          case None => None
          case Some(row) => Some(BidvVerbatim(date, row))
  }

  /** The page's `{ date: dateStr, ...usd }`: the row's fields as they come. */
  function BidvVerbatim(date: string, row: CurrencyRow): (r: Rate)
    ensures r.BidvRate? && r.date == date
    ensures Field(r, "nameVI") == row.nameVI && Field(r, "muaTm") == row.muaTm && Field(r, "muaCk") == row.muaCk
    ensures Field(r, "currency") == row.currency && Field(r, "nameEN") == row.nameEN && Field(r, "ban") == row.ban
  {
    BidvRate(date, row.nameVI, row.muaTm, row.muaCk, row.currency, row.nameEN, row.ban)
  }

  /** For four-digit years the page asks BIDV the same questions as the
      server adapter; whenever the page finds a rate, the server finds the
      same USD row and fills in its defaults. */
  lemma PageBidvAgreesWithServer(banks: Banks, d: Day)
    requires FourDigitYear(d)
    ensures PageBidv(banks, d).Some? ==> exists row ::
      PageBidv(banks, d).value == BidvVerbatim(PageDate(d), row)
      && ServerBidv(banks, d) == Some(BidvDefaults(PageDate(d), row))
  {
    PageFormatsAgree(d);
    if PageBidv(banks, d).Some? {
      var date := PageDate(d);
      var n := PageNamerecord(banks, date).value;
      var row := UsdRow(banks.detail(date, ToText(n)).body).value;
      assert PageBidv(banks, d).value == BidvVerbatim(date, row);
      assert ServerBidvRow(banks, date) == Some(row);
    }
  }

  /* ---------------- Techcombank ---------------- */

  /** The Techcombank call for a date text: the USD row, or `None` when the
      reply has no `exchangeRate.data` or no row labelled `"USD (50,100)"`.
      `Failed` is kept apart because only one server file catches it. */
  function TcbRowFor(banks: Banks, date: string): (row: Option<TcbRow>)
    ensures row.Some? ==> IsUsdTcbRow(row.value)
    ensures row.Some? <==> banks.rates(date).Received? && UsdTcbRow(banks.rates(date).body).Some?
    ensures row.Some? ==> row == UsdTcbRow(banks.rates(date).body)
  {
    match banks.rates(date)
    case Failed => None
    case Received(reply) => UsdTcbRow(reply)
  }

  /** The record the server adapters build from the Techcombank USD row:
      the label is always the USD label, a missing or falsy field becomes
      `""`, except that the two currencies fall back to `source` and `target`. */
  function TcbDefaults(date: string, row: TcbRow, source: string, target: string): (r: Rate)
    requires IsUsdTcbRow(row)
    ensures r.TcbRate? && r.date == date && r.label_ == Str(UsdLabel) && NoMissing(r)
    ensures Truthy(row.askRate) ==> r.askRate == row.askRate
    ensures Truthy(row.bidRateCK) ==> r.bidRateCK == row.bidRateCK
    ensures Truthy(row.bidRateTM) ==> r.bidRateTM == row.bidRateTM
    ensures Truthy(row.askRateTM) ==> r.askRateTM == row.askRateTM
    ensures Truthy(row.sourceCurrency) ==> r.sourceCurrency == row.sourceCurrency
    ensures Truthy(row.targetCurrency) ==> r.targetCurrency == row.targetCurrency
    ensures !Truthy(row.sourceCurrency) ==> r.sourceCurrency == Str(source)
    ensures !Truthy(row.targetCurrency) ==> r.targetCurrency == Str(target)
  {
    TcbRate(date, Or(row.label_, Str("")), Or(row.askRate, Str("")), Or(row.bidRateCK, Str("")),
      Or(row.bidRateTM, Str("")), Or(row.askRateTM, Str("")),
      Or(row.sourceCurrency, Str(source)), Or(row.targetCurrency, Str(target)))
  }

  /** `fetchTCBRates(d)` in route.js: dated `yyyy-MM-dd`, every missing field
      becomes `""`, and a failed call is caught and becomes null. */
  function RouteTcb(banks: Banks, d: Day): (r: Option<Rate>)
    ensures r.Some? <==> TcbRowFor(banks, IsoDate(d)).Some?
    ensures r.Some? ==> r.value == TcbDefaults(IsoDate(d), TcbRowFor(banks, IsoDate(d)).value, "", "")
  {
    var date := IsoDate(d);
    match TcbRowFor(banks, date)
    case None => None
    case Some(row) => Some(TcbDefaults(date, row, "", ""))
  }

  /** What a call of an adapter that does not catch produces. */
  datatype Attempt = Threw | Returned(rate: Option<Rate>)

  /** `fetchTCBRates(d)` in +server.js: no try/catch, so a failed call throws;
      otherwise as in route.js except that a missing `sourceCurrency` becomes
      `"USD"` and a missing `targetCurrency` becomes `"VND"`. */
  function ServerTcb(banks: Banks, d: Day): (a: Attempt)
    ensures a.Threw? <==> banks.rates(IsoDate(d)).Failed?
    ensures a.Returned? ==> (a.rate.Some? <==> TcbRowFor(banks, IsoDate(d)).Some?)
    ensures a.Returned? && a.rate.Some? ==>
      a.rate.value == TcbDefaults(IsoDate(d), TcbRowFor(banks, IsoDate(d)).value, "USD", "VND")
  {
    var date := IsoDate(d);
    match banks.rates(date)
    case Failed => Threw
    case Received(reply) =>
      match UsdTcbRow(reply)
      case None => Returned(None)
      case Some(row) => Returned(Some(TcbDefaults(date, row, "USD", "VND")))
  }

  /** The two server variants find a Techcombank rate on the same days and
      differ only in the currency defaults. */
  lemma TcbVariantsAgree(banks: Banks, d: Day)
    ensures ServerTcb(banks, d).Returned? <==> banks.rates(IsoDate(d)).Received?
    ensures ServerTcb(banks, d).Returned? ==> (ServerTcb(banks, d).rate.Some? <==> RouteTcb(banks, d).Some?)
    ensures ServerTcb(banks, d).Returned? && RouteTcb(banks, d).Some? ==>
      ServerTcb(banks, d).rate.value == RouteTcb(banks, d).value.(
        sourceCurrency := Or(RouteTcb(banks, d).value.sourceCurrency, Str("USD")),
        targetCurrency := Or(RouteTcb(banks, d).value.targetCurrency, Str("VND")))
  {
    var date := IsoDate(d);
    var row := TcbRowFor(banks, date);
    if row.Some? {
      DefaultsDiffer(date, row.value);
    }
  }

  /** The `"USD"`/`"VND"` defaults are the `""` defaults with the two
      currencies filled in when empty. */
  lemma DefaultsDiffer(date: string, row: TcbRow)
    requires IsUsdTcbRow(row)
    ensures var plain := TcbDefaults(date, row, "", "");
      TcbDefaults(date, row, "USD", "VND") == plain.(
        sourceCurrency := Or(plain.sourceCurrency, Str("USD")),
        targetCurrency := Or(plain.targetCurrency, Str("VND")))
  {
  }

  /** The Techcombank page's `fetchUSD(dateObj)`: asks with the page's
      `${yyyy}-${mm}-${dd}` text and dates the record with `formatDate`, the
      `DD/MM/YYYY` text of the same day; fields are copied as they come. */
  function PageTcb(banks: Banks, d: Day): (r: Option<Rate>)
    ensures r.Some? <==> TcbRowFor(banks, PageIsoDate(d)).Some?
    ensures r.Some? ==> var row := TcbRowFor(banks, PageIsoDate(d)).value;
      r.value == TcbRate(PageDate(d), row.label_, row.askRate, row.bidRateCK, row.bidRateTM,
        row.askRateTM, row.sourceCurrency, row.targetCurrency)
    ensures r.Some? ==> r.value.label_ == Str(UsdLabel)
  {
    match TcbRowFor(banks, PageIsoDate(d))
    case None => None
    case Some(row) =>
      Some(TcbRate(PageDate(d), row.label_, row.askRate, row.bidRateCK, row.bidRateTM,
        row.askRateTM, row.sourceCurrency, row.targetCurrency))
  }

  /** For four-digit years the page finds a Techcombank rate exactly when
      route.js does; the page's record carries the `DD/MM/YYYY` date where
      route.js carries `yyyy-MM-dd`. */
  lemma PageTcbAgreesWithRoute(banks: Banks, d: Day)
    requires FourDigitYear(d)
    ensures PageTcb(banks, d).Some? <==> RouteTcb(banks, d).Some?
    ensures PageTcb(banks, d).Some? ==> (PageTcb(banks, d).value.date == BankDate(d)
      && RouteTcb(banks, d).value.date == IsoDate(d))
  {
    PageFormatsAgree(d);
  }
}
