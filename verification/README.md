# Exchange-rate export: date-range rate resolution

A Dafny model of how the exchange-rate export app resolves USD rates over a
range of days. The app asks the BIDV and Techcombank web services for each
day. The server route fills a day without a rate from the nearest earlier day
that has one, within 30 days, through a per-request cache. The second server
variant and the two client pages keep only the days that had a rate. The app
also writes the results as CSV in four layouts, from three exporters.

The network is an oracle. `Records.Banks` maps each query text to an
already-parsed reply, or to `Failed` when the call throws. Each adapter turns
one day's replies into a record or nothing. The server adapters ask the BIDV
servlets with GET query strings. The BIDV page asks the same servlets with
POST forms whose `date` is URL-encoded. The model keys both by the decoded
`date` and `time` texts, so it assumes a servlet answers the two forms of the
same question alike.

Dates are integer day ordinals of the proleptic Gregorian calendar, with
0 = 0000-01-01. `Calendar` converts them to and from (year, month, day) and
proves the conversion round-trips. On ordinals, `setDate(getDate() + 1)` is
`+ 1`.

JavaScript values are modelled explicitly. `Js.Value` covers `undefined`,
`null`, booleans, integers and strings, together with truthiness, `||`,
`String(v)` and the `>` comparison. The text comparison of two `yyyy-MM-dd`
strings is proved to be the day order.

Modules:

- `Js`: JavaScript values, `String`, `padStart`, and string comparison.
- `Calendar`: day ordinals and civil dates.
- `Dates`: the four date texts, `new Date(text)` parsing, and `getDateRange`.
- `Records`: the reply schemas, the records, the latest-`time` choice and
  the USD row lookups.
- `Adapters`: `fetchBIDVRates`/`fetchTCBRates` of both server files, and the
  pages' `fetchNamerecord`/`fetchUSD`.
- `Backfill`: `getPreviousDayRate` with its cache.
- `Route`: `POST` of route.js.
- `Server`: `POST` of +server.js.
- `Pages`: `handleFetch` of the two pages.
- `Csv`: the pages' `exportCSV` and an RFC 4180 reader to read the files back.
- `Viewer`: `handleFetch` and `handleExport` of `ExchangeRateViewer`.

Points where the code behaves in ways worth noting, each modelled as written:

- In +server.js the Techcombank adapter does not catch a failed call. The
  loop's per-day `catch` drops that day, and the next day is still processed.
  The adapters of route.js and of the pages turn every error into null.
- In route.js a filled record is never cached. The cache only receives direct
  hits, and the donor records that `getPreviousDayRate` finds, under the
  donor day's key.
- Every loop awaits one day before asking about the next, so the model is sequential.

## Model

| member | source | states |
|---|---|---|
| Records.ChooseEntry | src/app/api/exchange-rates/route.js:23-28 | there is an entry exactly when `status` is the number 1 and `data` is a non-empty list; when the `time`s are all strings or all numbers it is the first entry of maximal `time`: no entry has a greater `time`, and every entry before it has a smaller one |
| Records.LatestIsFirstMaximum | src/app/api/exchange-rates/route.js:25-28 | the `reduce` picks an entry whose `time` no entry exceeds and that is strictly greater than every earlier one, so ties go to the first |
| Records.UsdRow | src/app/api/exchange-rates/route.js:35-38 | a row exactly when `status` is 1, `data` is present and some row has currency `"USD"`; it is the first such row |
| Records.UsdTcbRow | src/app/api/exchange-rates/route.js:63-68 | a row exactly when `exchangeRate.data` is present and some row is labelled `"USD (50,100)"`; it is the first such row |
| Records.WithDate | src/app/api/exchange-rates/route.js:175-178 | `{...prevRate, date}` replaces `date` and leaves every other field and the key set as they were |
| Adapters.ServerBidvRow | src/app/api/exchange-rates/route.js:16-38 | the USD row exists exactly when the search reply yields an entry and the detail reply for its `namerecord` text is received and has a USD row |
| Adapters.BidvDefaults | src/app/api/exchange-rates/route.js:39-47 | truthy fields are kept; falsy ones become `""`, except `currency`, which becomes `"USD"`; no field is missing |
| Adapters.ServerBidv | src/app/api/exchange-rates/route.js:14-52 | a record exactly when the USD row exists; it is dated `dd/MM/yyyy` of the day, its currency is `"USD"` and it has no missing field |
| Adapters.PageNamerecord | src/app/bidv/page.jsx:43-48 | the page reads the same entry as the server: `null` exactly when the server adapter has no entry, otherwise that entry's `namerecord` |
| Adapters.PageBidv | src/app/bidv/page.jsx:54-81 | a record exactly when the namerecord is truthy and the detail reply has a USD row; it is that row's fields verbatim under `formatDate` of the day |
| Adapters.BidvVerbatim | src/app/bidv/page.jsx:70-77 | `{date, ...usd}` carries the given date and each field of the row as it came |
| Adapters.PageBidvAgreesWithServer | src/app/bidv/page.jsx:30-81 | for four-digit years, whenever the page finds a record, the server adapter finds the same USD row and returns it with its defaults |
| Adapters.TcbRowFor | src/app/api/exchange-rates/route.js:60-68 | a labelled USD row exactly when the call is received and its reply has one |
| Adapters.TcbDefaults | src/app/api/exchange-rates/route.js:69-78 | label `"USD (50,100)"`, truthy fields kept, falsy fields `""`, except that the two currencies fall back to the given defaults |
| Adapters.RouteTcb | src/app/api/exchange-rates/route.js:55-83 | a record exactly when the USD row exists, dated `yyyy-MM-dd` with `""` defaults; a failed call gives null |
| Adapters.ServerTcb | src/routes/api/exchange-rates/+server.js:55-77 | throws exactly when the call fails; otherwise as in route.js, with `"USD"`/`"VND"` as the currency defaults |
| Adapters.TcbVariantsAgree | src/routes/api/exchange-rates/+server.js:67-76 | the two server variants find a record on the same days, and the records differ only in the two currency defaults |
| Adapters.PageTcb | src/app/tcb/page.jsx:30-56 | a record exactly when the row for the page's query text exists; fields are verbatim and the label is the USD label |
| Adapters.PageTcbAgreesWithRoute | src/app/tcb/page.jsx:31-44 | for four-digit years the page queries the same text as route.js, finds a record on the same days and dates it `DD/MM/YYYY` |
| Calendar.NextDay | src/app/api/exchange-rates/route.js:92 | the next ordinal is the next calendar day: the day advances, or the month or the year rolls over |
| Calendar.DayOrder | src/app/api/exchange-rates/route.js:90 | ordinal order is the (year, month, day) order of the civil dates |
| Calendar.CivilRoundTrip | src/app/api/exchange-rates/route.js:88-92 | every valid civil date is the civil date of its own ordinal |
| Dates.DateRange | src/app/api/exchange-rates/route.js:86-95 | `end - start + 1` days when `start <= end`, else none; the i-th day is `start + i` |
| Dates.PageFormatsAgree | src/app/bidv/page.jsx:11-17 | for four-digit years `formatDate` is `dd/MM/yyyy` (ten characters, slashes at 2 and 5) and the TCB page's query text is `yyyy-MM-dd` |
| Dates.IsoRoundTrip | src/app/api/exchange-rates/route.js:103 | for years 1 to 9999 the `yyyy-MM-dd` text of a day parses back to that day |
| Dates.ParseIsoRoundTrip | src/app/api/exchange-rates/route.js:88-89 | a text that parses is the `yyyy-MM-dd` text of the day it parses to |
| Dates.IsoInjective | src/app/api/exchange-rates/route.js:108-110 | for years 1 to 9999, distinct days have distinct cache keys |
| Dates.IsoOrder | src/app/bidv/page.jsx:147-150 | comparing two `yyyy-MM-dd` texts as strings compares their days |
| Backfill.Walk | src/app/api/exchange-rates/route.js:98-134 | at most `fuel` lookups, of the days `cur, cur-1, ...` in order; an unrecognised bank looks nothing up; a miss leaves the cache as it was |
| Backfill.PreviousDayRate | src/app/api/exchange-rates/route.js:98-111 | at most `maxAttempts` lookups, all before the day and never the day itself; a cached previous day is returned at once with no lookup |
| Backfill.WalkLooksUpMisses | src/app/api/exchange-rates/route.js:107-126 | only uncached days are looked up; every lookup but the last missed; when nothing is found, every lookup missed |
| Backfill.WalkAddsOne | src/app/api/exchange-rates/route.js:122-125 | the cache grows by at most the found record, stored under the key of the day it came from |
| Backfill.WalkCaches | src/app/api/exchange-rates/route.js:124 | every entry the search adds is the rate of a day it looked up |
| Backfill.NearestDonor | src/app/api/exchange-rates/route.js:101-133 | the reference search: the nearest day in the window that has a rate, with none between it and the start; or none in the window |
| Backfill.WalkTransparent | src/app/api/exchange-rates/route.js:101-133 | through a cache holding only true rates under distinct keys, the search returns the nearest donor's rate and keeps the cache that way |
| Route.DayStep | src/app/api/exchange-rates/route.js:151-184 | a hit is appended unchanged and cached under the day's key; a miss looks at most 30 earlier days up and any fill is re-dated to the day |
| Route.Resolve | src/app/api/exchange-rates/route.js:147-198 | at most one record per day, in requested order, at most 31 lookups per day; an unrecognised bank yields nothing; each record is a hit or re-dated |
| Route.ResolveTransparent | src/app/api/exchange-rates/route.js:149-198 | the cache changes nothing: from a faithful cache the loop returns exactly the reference records and days |
| Route.EraKeysDistinct | src/app/api/exchange-rates/route.js:153 | over years 1 to 9999, `yyyy-MM-dd` keys of distinct days differ |
| Route.RequestDays | src/app/api/exchange-rates/route.js:147 | the day range of the two parsed dates, empty when either does not parse; always increasing |
| Route.RoutePost | src/app/api/exchange-rates/route.js:136-211 | 500 for an unreadable body, 400 with no lookup when a field is missing, else 200 with at most one record per day |
| Route.RoutePostMeetsReference | src/app/api/exchange-rates/route.js:147-203 | for a known bank and era days, the 200 payload is each day's direct rate, or its nearest earlier rate re-dated, in day order |
| Server.ServerDay | src/routes/api/exchange-rates/+server.js:107-113 | an unknown bank calls nothing and gives null; BIDV never throws and has a record exactly when the USD row exists; Techcombank returns exactly when its call is received and has a record exactly when the USD row exists; a BIDV record is dated `dd/MM/yyyy` and a Techcombank one `yyyy-MM-dd` |
| Server.ServerAttempts | src/routes/api/exchange-rates/+server.js:107-113 | for every day, the unknown bank's attempt is null, the BIDV attempt returns, and the Techcombank attempt throws exactly when its call fails |
| Server.ServerPost | src/routes/api/exchange-rates/+server.js:93-128 | 200 exactly for a complete request, otherwise 500 or 400; the records are, in day order, exactly those of the requested days whose attempt returned one, each its own day's record; an unknown bank gets an empty list |
| Server.NothingHits | src/routes/api/exchange-rates/+server.js:104-121 | when no day's attempt returns a record, the loop pushes nothing |
| Server.Hits | src/routes/api/exchange-rates/+server.js:104-121 | at most one record per requested day |
| Server.HitsFromTheirDays | src/routes/api/exchange-rates/+server.js:114-116 | each pushed record is what its own day's attempt returned |
| Server.HitDaysExact | src/routes/api/exchange-rates/+server.js:104-121 | the kept days are exactly the requested days that hit, and stay in requested order |
| Server.HitsAppend | src/routes/api/exchange-rates/+server.js:104-121 | the loop over two joined day lists is the concatenation of the two loops |
| Server.HitsWitnessed | src/routes/api/exchange-rates/+server.js:114-115 | every pushed record is the record some requested day's attempt returned |
| Server.ThrowSkipped | src/routes/api/exchange-rates/+server.js:117-120 | a day that throws adds nothing, and the days after it are processed as usual |
| Server.PlainPost | src/routes/api/exchange-rates/+server.js:93-128 | 500 / 400 with no lookup as in route.js; the 200 payload is exactly the in-order direct hits of the range |
| Server.DirectHitsAgree | src/routes/api/exchange-rates/+server.js:104-121 | where every day has a direct rate, the backfilling loop and the plain loop agree |
| Server.BidvVariantsAgree | src/routes/api/exchange-rates/+server.js:93-128 | for BIDV, with a rate on every requested day, both server variants return the same payload |
| Pages.PageDays | src/app/bidv/page.jsx:19-28 | the day range of the two parsed texts, empty when either does not parse; increasing |
| Pages.HandleFetch | src/app/bidv/page.jsx:142-170 | missing dates or a later start refuse with no request; otherwise each day of the range is asked once and the hits are kept; "no data" exactly when none |
| Pages.TextOrderIsDayOrder | src/app/tcb/page.jsx:125-128 | for date-input texts, `startDate > endDate` holds exactly when the end day is before the start day, so equal dates pass |
| Pages.HandleFetchKeepsHits | src/app/tcb/page.jsx:132-143 | an accepted fetch asks about every day of the range in order and keeps exactly the days with a rate, each with its own record |
| Pages.BidvPageDatesItsDays | src/app/bidv/page.jsx:156-166 | every kept record is dated `formatDate` of the day it was asked for |
| Pages.TcbPageDatesItsDays | src/app/tcb/page.jsx:134-143 | every kept record is dated `formatDate` of its day, although the query used the page's `${yyyy}-${mm}-${dd}` text with an unpadded year |
| Csv.SplitJoin | src/app/components/ExchangeRateViewer.js:97 | splitting on `\n` a `\n`-join of parts without line feeds gives the parts back |
| Csv.ReadEscapedEscape | src/app/bidv/page.jsx:129 | reading a cell with doubled quotes up to the closing quote gives back the cell text |
| Csv.ReadQuotedQuote | src/app/bidv/page.jsx:129 | unquoting a written cell gives back its text (section 2, rule 7 of RFC 4180) |
| Csv.ReadRowLine | src/app/bidv/page.jsx:129 | reading a written line gives back all its cells, in order |
| Csv.ReadTableTable | src/app/bidv/page.jsx:128-130 | reading the `\r\n`-joined lines gives back every row, in order |
| Csv.ExportReadsBack | src/app/bidv/page.jsx:114-130 | the export reads back as the header and then one row per record, holding the texts of its fields |
| Csv.TcbText | src/app/tcb/page.jsx:107 | a falsy cell is the empty text, any other is `String(cell)` |
| Csv.BidvCsvReadsBack | src/app/bidv/page.jsx:114-130 | the BIDV file reads back as the 7 header names and, per record, `String` of its 7 fields in order |
| Csv.TcbCsvReadsBack | src/app/tcb/page.jsx:91-108 | the Techcombank file reads back as the 8 header names and, per record, its 8 fields with falsy ones empty |
| Viewer.ViewerFetch | src/app/components/ExchangeRateViewer.js:32-59 | a missing date or a later start refuses with the source's message and sends nothing; otherwise the request carries the chosen bank |
| Viewer.ViewerRequestRoundTrip | src/app/components/ExchangeRateViewer.js:54-58 | the server reads back exactly the picked range from the `yyyy-MM-dd` texts sent |
| Viewer.ViewerRequestComplete | src/app/components/ExchangeRateViewer.js:54-58 | the request passes the server's required-parameter check whenever a bank is chosen |
| Viewer.ViewerGetsReference | src/app/components/ExchangeRateViewer.js:49-65 | picking a start no later than the end, with the 30 days before the start and the end in years 1 to 9999, and a known bank yields route.js's reference records for the range, in day order |
| Viewer.ViewerReceive | src/app/components/ExchangeRateViewer.js:60-70 | an error is shown exactly when the status is not 200; a 200 shows its `data` |
| Viewer.ViewerCsv | src/app/components/ExchangeRateViewer.js:77-78 | there is no file exactly when there are no results |
| Viewer.ExportLines | src/app/components/ExchangeRateViewer.js:91-97 | for n results without line feeds the text splits into exactly n + 1 lines: the titles, then one line per result, in order |
| Viewer.LineReadsBack | src/app/components/ExchangeRateViewer.js:95 | where no cell holds a quote, a CSV reader recovers the line's cell texts |
| Viewer.BidvCellTexts | src/app/components/ExchangeRateViewer.js:95 | a BIDV line holds date, nameVI, muaTm, muaCk, currency, nameEN and ban, in that order |
| Viewer.CellsCollide | src/app/components/ExchangeRateViewer.js:95 | moving `","` across the first field boundary does not change the line |
| Viewer.LinesCollide | src/app/components/ExchangeRateViewer.js:95 | two different BIDV records can export as the same line, because cells are wrapped without escaping |

## Left out

- Network calls, URLs, the legacy-TLS agent and JSON parsing are left out. The replies are an oracle of already-parsed values, and `Failed` stands for any throw on the way, including a reply without the expected shape and a page's `!res.ok`.
- Logging, the `Response`/`json` wrapping and response headers are left out. A reply is a status, a payload and the days looked up.
- React state, progress messages, rendering, the Blob download and download file names are left out: they are UI.
- layout.js, page.js and Analytics.js are not part of this model: they are UI and analytics.
- JavaScript `Date` time zones and daylight saving are left out, because days are ordinals.
- `new Date(v)` is modelled only for strict `yyyy-MM-dd` texts of a valid date in years 1 to 9999. Unlike V8, the model counts as invalid year 0 (`"0000-03-01"`), a day past the month's end that V8 rolls over (`"2024-02-30"` is 2024-03-01 there), and numeric date fields (`new Date(n)`). Such requests get an empty range in the model where V8 would look up days.
- `time` values of a search reply are all strings or all numbers. The coercions of `>` on mixed types are not modelled. `ToNumber` reads digit strings only, and `StrLess` compares code points where JavaScript compares UTF-16 code units, which differ only outside the Basic Multilingual Plane.
- Numbers are integers. The bank rates are strings in practice, so floating point is not modelled.
- The per-day `catch` of route.js (lines 185-197) is not modelled. Both of that file's adapters catch every error, so the branch is never taken.
- The JSON key order of records is not modelled. Records are datatypes, and `Field` reads them by key.
- The viewer's bank `<select>` and its default dates are parameters.
- Route.Resolve: says that each kept record is a direct hit or carries the re-dated stamp, not which one. The exact record is stated by Route.ResolveTransparent and Route.RoutePostMeetsReference.
- Route.RoutePost: bounds the lookups at 31 per day rather than giving their exact list.
- Route.RoutePostMeetsReference: holds for days whose 30-day search window lies in years 1 to 9999. Outside it, date-fns `yyyy` keys of distinct days can collide.
- Viewer.ViewerRequestRoundTrip: holds for years 1 to 9999, the range in which `yyyy-MM-dd` texts parse back.
- Adapters.PageBidvAgreesWithServer: holds for four-digit years. `formatDate` prints the year unpadded, so for other years the page queries a different text than the server.
- Adapters.PageBidvAgreesWithServer: rests on the assumption that a BIDV servlet gives the same reply to the page's POST form (bidv/page.jsx lines 31-40 and 55-64) as to the server's GET query (route.js lines 18-20 and 30-32) for the same `date` and `time` texts. Both are modelled by one `Banks.search`/`Banks.detail` oracle, so the agreement is not proved about two separately modelled transports.
- Viewer.ViewerGetsReference: holds when the start is not after the end and the 30 days before the start, like the end, lie in years 1 to 9999. A later start is refused by the viewer. For other years, date-fns `yyyy` keys of distinct days can collide and the server reads a different range.
