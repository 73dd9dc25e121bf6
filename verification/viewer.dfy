/** The two handlers of ExchangeRateViewer.js that carry logic:
    `handleFetch`, which checks the picked dates before it posts a request,
    and `handleExport`, which writes the results as CSV text with every cell
    wrapped in quotes but nothing escaped. */
module Viewer {
  import opened Js
  import opened Calendar
  import opened Dates
  import opened Records
  import opened Backfill
  import opened Route
  import opened Csv

  /* ---------------- handleFetch ---------------- */

  /** What `handleFetch` does before awaiting anything: show an error, or
      post a request body. */
  datatype FetchStep = Refused(error: string) | Send(body: Body)

  /** `handleFetch()` up to the `fetch` call. A picked date is a day; `None`
      is an empty picker. Dates compare as instants, so equal days pass. */
  function ViewerFetch(start: Option<Day>, end: Option<Day>, bank: string): (f: FetchStep)
    ensures start.None? || end.None? ==> f == Refused("Please select both start and end dates")
    ensures start.Some? && end.Some? && start.value > end.value ==> f == Refused("Start date cannot be after end date")
    ensures f.Send? <==> start.Some? && end.Some? && start.value <= end.value
    ensures f.Send? ==> f.body.bank == Str(bank)
  {
    if start.None? || end.None? then Refused("Please select both start and end dates")
    else if start.value > end.value then Refused("Start date cannot be after end date")
    else Send(Body(Str(IsoDate(start.value)), Str(IsoDate(end.value)), Str(bank)))
  }

  /** The text the viewer sends for a day parses back to that day. */
  lemma SentDateParses(n: Day)
    requires InEra(n)
    ensures ParseDate(Str(IsoDate(n))) == Some(n) && Truthy(Str(IsoDate(n)))
  {
    IsoRoundTrip(n);
  }

  /** A day range with both days parsed asks for exactly those days. */
  lemma SentBodyDays(b: Body, start: Day, end: Day)
    requires ParseDate(b.startDate) == Some(start) && ParseDate(b.endDate) == Some(end)
    ensures RequestDays(b) == DateRange(start, end)
  {
  }

  /** The server reads back the range the viewer sent: for days of years 1
      to 9999, the request asks for exactly the picked days. */
  lemma ViewerRequestRoundTrip(start: Day, end: Day, bank: string)
    requires InEra(start) && InEra(end) && start <= end
    ensures var f := ViewerFetch(Some(start), Some(end), bank);
      f.Send? && RequestDays(f.body) == DateRange(start, end)
  {
    var f := ViewerFetch(Some(start), Some(end), bank);
    SentDateParses(start);
    SentDateParses(end);
    SentBodyDays(f.body, start, end);
  }

  /** The request the viewer sends passes the server's required-parameter
      check whenever a bank was chosen. */
  lemma ViewerRequestComplete(start: Day, end: Day, bank: string)
    requires InEra(start) && InEra(end) && start <= end && bank != ""
    ensures var f := ViewerFetch(Some(start), Some(end), bank);
      f.Send? && Complete(f.body)
  {
    var f := ViewerFetch(Some(start), Some(end), bank);
    SentDateParses(start);
    SentDateParses(end);
    assert f.body.startDate == Str(IsoDate(start)) && f.body.endDate == Str(IsoDate(end));
    assert Truthy(f.body.startDate) && Truthy(f.body.endDate) && Truthy(f.body.bank);
  }

  /** Viewer and route together: picking two days at least 30 days into
      year 1 and a known bank yields the reference records of every picked
      day that has one, in day order. */
  lemma ViewerGetsReference(start: Day, end: Day, bank: string, banks: Banks)
    requires InEra(start - DefaultMaxAttempts) && InEra(end) && start <= end
    requires bank == "bidv" || bank == "tcb"
    ensures var f := ViewerFetch(Some(start), Some(end), bank);
      var b := BankOf(Str(bank));
      f.Send? && RoutePost(Some(f.body), banks).payload
        == Rates(ExpectedAll(true, Stamp(b), RouteLookup(banks, b), DateRange(start, end)))
  {
    EraBetween(start - DefaultMaxAttempts, start, end);
    ViewerRequestRoundTrip(start, end, bank);
    ViewerRequestComplete(start, end, bank);
    IsoRoundTrip(start);
    IsoRoundTrip(end);
    var f := ViewerFetch(Some(start), Some(end), bank);
    RoutePostMeetsReference(f.body, banks, start, end);
  }

  /** What the viewer shows once the response arrives. */
  datatype Shown = Table(results: seq<Rate>) | Error(message: string)

  /** The rest of `handleFetch`: a response that is not OK shows its
      `error`, or a stock message; an OK one shows `data.data || []`. */
  function ViewerReceive(r: Reply): (s: Shown)
    ensures s.Error? <==> r.status != 200
    ensures r.status == 200 && r.payload.Rates? ==> s == Table(r.payload.data)
  {
    if r.status != 200 then
      var reason := match r.payload
        case Problem(e) => if e != "" then e else "Failed to fetch exchange rates"
        case Rates(_) => "Failed to fetch exchange rates";
      Error("An error occurred while fetching exchange rates: " + reason)
    else
      match r.payload
      case Rates(data) => Table(data)
      case Problem(_) => Table([])
  }

  /* ---------------- handleExport ---------------- */

  /** The viewer's column titles and the record keys under them, for
      `selectedBank === "bidv"` and for any other bank. */
  const BidvTitles: seq<string> := ["Date", "NameVI", "MuaTm", "MuaCk", "Currency", "NameEN", "Ban"]
  const BidvColumns: seq<string> := ["date", "nameVI", "muaTm", "muaCk", "currency", "nameEN", "ban"]
  const TcbTitles: seq<string> :=
    ["Date", "Label", "AskRate", "BidRateCK", "BidRateTM", "SourceCurrency", "TargetCurrency", "AskRateTM"]
  const TcbColumns: seq<string> :=
    ["date", "label", "askRate", "bidRateCK", "bidRateTM", "sourceCurrency", "targetCurrency", "askRateTM"]

  /** `"${value}"`: the text wrapped in quotes, nothing escaped. */
  function Wrap(c: string): string {
    "\"" + c + "\""
  }

  function WrapAll(cells: seq<string>): (ws: seq<string>)
    ensures |ws| == |cells|
    ensures forall i :: 0 <= i < |cells| ==> ws[i] == Wrap(cells[i])
    decreases |cells|
  {
    if |cells| == 0 then [] else [Wrap(cells[0])] + WrapAll(cells[1..])
  }

  /** The cell texts of record `r` under `keys`: the template literal applies
      `String` to each value. */
  function CellTexts(r: Rate, keys: seq<string>): seq<string> {
    Texts(Values(r, keys), ToText)
  }

  /** One line of the export: the wrapped cells joined by `,`. */
  function ViewerLine(r: Rate, keys: seq<string>): string {
    Join(WrapAll(CellTexts(r, keys)), ",")
  }

  function ViewerLines(results: seq<Rate>, keys: seq<string>): (ls: seq<string>)
    ensures |ls| == |results|
    ensures forall i :: 0 <= i < |results| ==> ls[i] == ViewerLine(results[i], keys)
    decreases |results|
  {
    if |results| == 0 then [] else [ViewerLine(results[0], keys)] + ViewerLines(results[1..], keys)
  }

  /** The export text for one layout: titles joined by `,`, a line feed,
      then the lines joined by `\n`. */
  function ExportText(titles: seq<string>, keys: seq<string>, results: seq<Rate>): string {
    Join(titles, ",") + "\n" + Join(ViewerLines(results, keys), "\n")
  }

  /** `handleExport()`: nothing without results, else the text for the
      selected bank's layout. */
  function ViewerCsv(bank: string, results: seq<Rate>): (csv: Option<string>)
    ensures csv.None? <==> results == []
  {
    if |results| == 0 then None
    else if bank == "bidv" then Some(ExportText(BidvTitles, BidvColumns, results))
    else Some(ExportText(TcbTitles, TcbColumns, results))
  }

  /** The layout `handleExport` picks for a bank. */
  function Layout(bank: string): (seq<string>, seq<string>) {
    if bank == "bidv" then (BidvTitles, BidvColumns) else (TcbTitles, TcbColumns)
  }

  /* ---------------- properties of the export ---------------- */

  lemma {:induction false} JoinNoLineFeed(parts: seq<string>, sep: string)
    requires NoLineFeed(sep)
    requires forall i :: 0 <= i < |parts| ==> NoLineFeed(parts[i])
    ensures NoLineFeed(Join(parts, sep))
    decreases |parts|
  {
    if |parts| > 1 {
      JoinNoLineFeed(parts[1..], sep);
      var s := parts[0] + sep + Join(parts[1..], sep);
      forall i | 0 <= i < |s|
        ensures s[i] != '\n'
      {
        if i < |parts[0]| {
          assert s[i] == parts[0][i];
          assert parts[0][i] in parts[0];
        } else if i < |parts[0]| + |sep| {
          assert s[i] == sep[i - |parts[0]|];
          assert sep[i - |parts[0]|] in sep;
        } else {
          assert s[i] == Join(parts[1..], sep)[i - |parts[0]| - |sep|];
          assert Join(parts[1..], sep)[i - |parts[0]| - |sep|] in Join(parts[1..], sep);
        }
      }
    }
  }

  /** A record with no line feed in any of its cell texts. */
  predicate SingleLine(r: Rate, keys: seq<string>) {
    forall j :: 0 <= j < |keys| ==> NoLineFeed(ToText(Field(r, keys[j])))
  }

  lemma LineHasNoLineFeed(r: Rate, keys: seq<string>)
    requires SingleLine(r, keys)
    ensures NoLineFeed(ViewerLine(r, keys))
  {
    var ws := WrapAll(CellTexts(r, keys));
    forall i | 0 <= i < |ws|
      ensures NoLineFeed(ws[i])
    {
      var c := CellTexts(r, keys)[i];
      assert NoLineFeed(c);
      assert ws[i] == "\"" + c + "\"";
      assert forall k :: 0 <= k < |ws[i]| ==> ws[i][k] == '"' || ws[i][k] == c[k - 1];
    }
    JoinNoLineFeed(ws, ",");
  }

  /** For n results whose fields hold no line feed, the export splits on
      `\n` into exactly n + 1 lines: the titles, then one line per result
      in order; there is no trailing line feed. */
  lemma ExportLines(bank: string, results: seq<Rate>)
    requires results != []
    requires forall i :: 0 <= i < |results| ==> SingleLine(results[i], Layout(bank).1)
    ensures var lines := Lines(ViewerCsv(bank, results).value);
      && |lines| == |results| + 1
      && lines[0] == Join(Layout(bank).0, ",")
      && forall i :: 0 <= i < |results| ==> lines[i + 1] == ViewerLine(results[i], Layout(bank).1)
  {
    var (titles, keys) := Layout(bank);
    TitlesHaveNoLineFeed(bank);
    assert ViewerCsv(bank, results).value == ExportText(titles, keys, results);
    ExportTextLines(titles, keys, results);
  }

  lemma ExportTextLines(titles: seq<string>, keys: seq<string>, results: seq<Rate>)
    requires results != []
    requires NoLineFeed(Join(titles, ","))
    requires forall i :: 0 <= i < |results| ==> SingleLine(results[i], keys)
    ensures var lines := Lines(ExportText(titles, keys, results));
      && |lines| == |results| + 1
      && lines[0] == Join(titles, ",")
      && forall i :: 0 <= i < |results| ==> lines[i + 1] == ViewerLine(results[i], keys)
  {
    var ls := ViewerLines(results, keys);
    var head := Join(titles, ",");
    var parts := [head] + ls;
    assert Join(parts, "\n") == head + "\n" + Join(ls, "\n") by {
      assert parts[1..] == ls;
    }
    forall i | 0 <= i < |parts|
      ensures NoLineFeed(parts[i])
    {
      if i > 0 {
        LineHasNoLineFeed(results[i - 1], keys);
      }
    }
    SplitJoin(parts);
  }

  lemma TitlesHaveNoLineFeed(bank: string)
    ensures NoLineFeed(Join(Layout(bank).0, ","))
  {
    var titles := Layout(bank).0;
    forall i | 0 <= i < |titles|
      ensures NoLineFeed(titles[i])
    {
    }
    JoinNoLineFeed(titles, ",");
  }

  /** Where no cell text holds a quote, wrapping is RFC 4180 quoting, so a
      CSV reader recovers the cell texts of the line. */
  lemma {:induction false} WrapIsQuote(c: string)
    requires '"' !in c
    ensures Wrap(c) == Quote(c)
  {
    EscapePlain(c);
  }

  lemma {:induction false} EscapePlain(c: string)
    requires '"' !in c
    ensures Escape(c) == c
    decreases |c|
  {
    if |c| > 0 {
      assert c[0] != '"' by { assert c[0] in c; }
      assert forall k :: 0 <= k < |c[1..]| ==> c[1..][k] == c[k + 1];
      EscapePlain(c[1..]);
      assert [c[0]] + c[1..] == c;
    }
  }

  lemma {:induction false} WrapAllIsQuoteAll(cells: seq<string>)
    requires forall i :: 0 <= i < |cells| ==> '"' !in cells[i]
    ensures WrapAll(cells) == QuoteAll(cells)
    decreases |cells|
  {
    if |cells| > 0 {
      WrapIsQuote(cells[0]);
      WrapAllIsQuoteAll(cells[1..]);
    }
  }

  /** A line of a record with no quote in its cell texts reads back as those
      texts. */
  lemma LineReadsBack(r: Rate, keys: seq<string>)
    requires |keys| > 0
    requires forall j :: 0 <= j < |keys| ==> '"' !in ToText(Field(r, keys[j]))
    ensures ReadRow(ViewerLine(r, keys)) == Some((CellTexts(r, keys), ""))
  {
    var cells := CellTexts(r, keys);
    WrapAllIsQuoteAll(cells);
    ReadRowLine(cells, "");
    assert ViewerLine(r, keys) + "" == ViewerLine(r, keys);
  }

  /** The cell texts of a BIDV record, in the viewer's column order. */
  lemma BidvCellTexts(r: Rate)
    requires r.BidvRate?
    ensures CellTexts(r, BidvColumns)
      == [r.date, ToText(r.nameVI), ToText(r.muaTm), ToText(r.muaCk), ToText(r.currency), ToText(r.nameEN), ToText(r.ban)]
  {
    BidvValues(r);
    var vs := [Str(r.date), r.nameVI, r.muaTm, r.muaCk, r.currency, r.nameEN, r.ban];
    TextsSeven(vs, ToText);
  }

  /** The values of a BIDV record, in the viewer's column order. */
  lemma BidvValues(r: Rate)
    requires r.BidvRate?
    ensures Values(r, BidvColumns) == [Str(r.date), r.nameVI, r.muaTm, r.muaCk, r.currency, r.nameEN, r.ban]
  {
    BidvFields(r);
    var vs := Values(r, BidvColumns);
    var want := [Str(r.date), r.nameVI, r.muaTm, r.muaCk, r.currency, r.nameEN, r.ban];
    forall i | 0 <= i < 7
      ensures vs[i] == want[i]
    {
      assert vs[i] == Field(r, BidvColumns[i]);
    }
  }

  lemma TextsSeven(vs: seq<Value>, text: Value -> string)
    requires |vs| == 7
    ensures Texts(vs, text) == [text(vs[0]), text(vs[1]), text(vs[2]), text(vs[3]), text(vs[4]), text(vs[5]), text(vs[6])]
  {
  }

  lemma BidvFields(r: Rate)
    requires r.BidvRate?
    ensures Field(r, "date") == Str(r.date) && Field(r, "nameVI") == r.nameVI
    ensures Field(r, "muaTm") == r.muaTm && Field(r, "muaCk") == r.muaCk
    ensures Field(r, "currency") == r.currency && Field(r, "nameEN") == r.nameEN
    ensures Field(r, "ban") == r.ban
  {
  }

  /** A field holding `","` writes the same text as a field boundary. */
  lemma WrapShift(x: string, y: string, z: string)
    ensures Wrap(x + "\",\"" + y) + "," + Wrap(z) == Wrap(x) + "," + Wrap(y + "\",\"" + z)
  {
  }

  lemma JoinHead(ws: seq<string>, sep: string)
    requires |ws| >= 3
    ensures Join(ws, sep) == ws[0] + sep + ws[1] + sep + Join(ws[2..], sep)
  {
    assert ws[1..][1..] == ws[2..];
  }

  /** Without escaping, two cell lists that differ only in where a `","`
      stands across their first field boundary write the same line. */
  lemma CellsCollide(ca: seq<string>, cb: seq<string>, x: string, y: string, z: string)
    requires |ca| == |cb| >= 3 && ca[2..] == cb[2..]
    requires ca[0] == x + "\",\"" + y && ca[1] == z
    requires cb[0] == x && cb[1] == y + "\",\"" + z
    ensures Join(WrapAll(ca), ",") == Join(WrapAll(cb), ",")
  {
    var wa := WrapAll(ca);
    var wb := WrapAll(cb);
    assert wa[2..] == wb[2..] by {
      assert forall i :: 0 <= i < |wa[2..]| ==> wa[2..][i] == Wrap(ca[2..][i]) == wb[2..][i];
    }
    JoinHead(wa, ",");
    JoinHead(wb, ",");
    WrapShift(x, y, z);
  }

  /** Hence the export of two different BIDV records can be the same text:
      moving `","` across a field boundary changes the record but not its
      line. */
  lemma LinesCollide(a: Rate, b: Rate, x: string, y: string, z: string)
    requires a.BidvRate? && b.BidvRate?
    requires a.date == x + "\",\"" + y && a.nameVI == Str(z)
    requires b.date == x && b.nameVI == Str(y + "\",\"" + z)
    requires a.muaTm == b.muaTm && a.muaCk == b.muaCk && a.currency == b.currency
    requires a.nameEN == b.nameEN && a.ban == b.ban
    ensures a != b && ViewerLine(a, BidvColumns) == ViewerLine(b, BidvColumns)
  {
    assert |a.date| != |b.date|;
    BidvCellTexts(a);
    BidvCellTexts(b);
    CellsCollide(CellTexts(a, BidvColumns), CellTexts(b, BidvColumns), x, y, z);
  }
}
