/** The CSV text the pages build in `exportCSV`: every cell quoted with its
    inner quotes doubled (section 2, rule 7 of RFC 4180), cells joined by
    `,` and rows by CRLF. The module also holds a reader for quoted CSV,
    the partner the writer is checked against, and `Array.prototype.join`
    and `String.prototype.split("\n")`, which the viewer's export uses. */
module Csv {
  import opened Js
  import opened Records

  /* ---------------- join and split ---------------- */

  /** `parts.join(sep)`. */
  function Join(parts: seq<string>, sep: string): string
    decreases |parts|
  {
    if |parts| == 0 then ""
    else if |parts| == 1 then parts[0]
    else parts[0] + sep + Join(parts[1..], sep)
  }

  /** `s.split("\n")`: the pieces between line feeds. */
  function Lines(s: string): (ls: seq<string>)
    ensures |ls| > 0
    decreases |s|
  {
    if |s| == 0 then [""]
    else
      var rest := Lines(s[1..]);
      if s[0] == '\n' then [""] + rest
      else [[s[0]] + rest[0]] + rest[1..]
  }

  predicate NoLineFeed(s: string) {
    '\n' !in s
  }

  /** A piece without a line feed joins the first line of what follows it. */
  lemma {:induction false} LinesPrefix(p: string, t: string)
    requires NoLineFeed(p)
    ensures Lines(p + t) == [p + Lines(t)[0]] + Lines(t)[1..]
    decreases |p|
  {
    if |p| > 0 {
      assert (p + t)[1..] == p[1..] + t;
      assert p[0] in p;
      LinesPrefix(p[1..], t);
      assert [p[0]] + (p[1..] + Lines(t)[0]) == p + Lines(t)[0];
    } else {
      assert p + t == t;
      assert p + Lines(t)[0] == Lines(t)[0];
      assert Lines(t) == [Lines(t)[0]] + Lines(t)[1..];
    }
  }

  /** Splitting lines joined by `\n` gives the lines back, when none holds
      a line feed of its own. */
  lemma {:induction false} SplitJoin(parts: seq<string>)
    requires |parts| > 0
    requires forall i :: 0 <= i < |parts| ==> NoLineFeed(parts[i])
    ensures Lines(Join(parts, "\n")) == parts
    decreases |parts|
  {
    if |parts| == 1 {
      LinesPrefix(parts[0], "");
      assert parts[0] + "" == parts[0];
    } else {
      var rest := Join(parts[1..], "\n");
      SplitJoin(parts[1..]);
      assert Join(parts, "\n") == parts[0] + ("\n" + rest);
      LinesPrefix(parts[0], "\n" + rest);
      assert ("\n" + rest)[1..] == rest;
      assert Lines("\n" + rest) == [""] + parts[1..];
      assert parts[0] + "" == parts[0];
      assert parts == [parts[0]] + parts[1..];
    }
  }

  /* ---------------- writing ---------------- */

  /** `text.replace(/"/g, '""')`. */
  function Escape(c: string): (e: string)
    ensures |e| >= |c|
    decreases |c|
  {
    if |c| == 0 then ""
    else (if c[0] == '"' then "\"\"" else [c[0]]) + Escape(c[1..])
  }

  /** `'"' + escaped + '"'`. */
  function Quote(c: string): string {
    "\"" + Escape(c) + "\""
  }

  /** Each cell quoted, in order. */
  function QuoteAll(cells: seq<string>): (qs: seq<string>)
    ensures |qs| == |cells|
    decreases |cells|
  {
    if |cells| == 0 then [] else [Quote(cells[0])] + QuoteAll(cells[1..])
  }

  /** `r.map(quote).join(",")`. */
  function Line(cells: seq<string>): string {
    Join(QuoteAll(cells), ",")
  }

  /** Each row written as a line, in order. */
  function LineAll(rows: seq<seq<string>>): (ls: seq<string>)
    ensures |ls| == |rows|
    decreases |rows|
  {
    if |rows| == 0 then [] else [Line(rows[0])] + LineAll(rows[1..])
  }

  /** `rows.map(line).join("\r\n")`: no line break after the last row. */
  function Table(rows: seq<seq<string>>): string {
    Join(LineAll(rows), "\r\n")
  }

  /* ---------------- reading ---------------- */

  /** The body of a quoted field, after its opening quote: `""` stands for
      one quote and a lone `"` closes the field. The text and what follows
      the closing quote. */
  function ReadEscaped(s: string): (r: Option<(string, string)>)
    ensures r.Some? ==> |r.value.1| < |s|
    decreases |s|
  {
    if |s| == 0 then None
    else if s[0] == '"' then
      if |s| >= 2 && s[1] == '"' then
        match ReadEscaped(s[2..])
        case None => None
        case Some((c, rest)) => Some(("\"" + c, rest))
      else Some(("", s[1..]))
    else
      match ReadEscaped(s[1..])
      case None => None
      case Some((c, rest)) => Some(([s[0]] + c, rest))
  }

  /** A quoted field at the head of `s`. */
  function ReadQuoted(s: string): (r: Option<(string, string)>)
    ensures r.Some? ==> |r.value.1| < |s|
  {
    if |s| == 0 || s[0] != '"' then None else ReadEscaped(s[1..])
  }

  /** The quoted fields of one record, separated by commas, and what follows
      the record. */
  function ReadRow(s: string): (r: Option<(seq<string>, string)>)
    ensures r.Some? ==> |r.value.1| < |s| && |r.value.0| > 0
    decreases |s|
  {
    match ReadQuoted(s)
    case None => None
    case Some((c, rest)) =>
      if |rest| > 0 && rest[0] == ',' then
        match ReadRow(rest[1..])
        case None => None
        case Some((cs, tail)) => Some(([c] + cs, tail))
      else Some(([c], rest))
  }

  /** Records separated by CRLF, up to the end of the text. */
  function ReadTable(s: string): (r: Option<seq<seq<string>>>)
    decreases |s|
  {
    match ReadRow(s)
    case None => None
    case Some((cells, rest)) =>
      if rest == "" then Some([cells])
      else if |rest| >= 2 && rest[..2] == "\r\n" then
        match ReadTable(rest[2..])
        case None => None
        case Some(more) => Some([cells] + more)
      else None
  }

  /* ---------------- round trips ---------------- */

  /** What may follow a field: the end, or a character other than a quote. */
  predicate Boundary(t: string) {
    |t| == 0 || t[0] != '"'
  }

  lemma {:induction false} ReadEscapedEscape(c: string, t: string)
    requires Boundary(t)
    ensures ReadEscaped(Escape(c) + "\"" + t) == Some((c, t))
    decreases |c|
  {
    if |c| == 0 {
      var s := Escape(c) + "\"" + t;
      assert s == "\"" + t;
      assert s[1..] == t;
    } else {
      ReadEscapedEscape(c[1..], t);
      ReadEscapedStep(c, t);
    }
  }

  /** One character further: a doubled quote reads as one quote, any other
      character as itself. */
  lemma ReadEscapedStep(c: string, t: string)
    requires |c| > 0
    requires ReadEscaped(Escape(c[1..]) + "\"" + t) == Some((c[1..], t))
    ensures ReadEscaped(Escape(c) + "\"" + t) == Some((c, t))
  {
    var s := Escape(c) + "\"" + t;
    var tail := Escape(c[1..]) + "\"" + t;
    if c[0] == '"' {
      assert Escape(c) == "\"\"" + Escape(c[1..]);
      assert s == "\"\"" + tail;
      assert s[2..] == tail;
      assert "\"" + c[1..] == c;
    } else {
      assert Escape(c) == [c[0]] + Escape(c[1..]);
      assert s == [c[0]] + tail;
      assert s[1..] == tail;
      assert [c[0]] + c[1..] == c;
    }
  }

  /** Unquoting a written cell gives back the cell's text: the quoting of
      section 2, rule 7 of RFC 4180 loses nothing. */
  lemma ReadQuotedQuote(c: string, t: string)
    requires Boundary(t)
    ensures ReadQuoted(Quote(c) + t) == Some((c, t))
  {
    ReadEscapedEscape(c, t);
    var s := Quote(c) + t;
    assert s == "\"" + (Escape(c) + "\"" + t);
    assert s[1..] == Escape(c) + "\"" + t;
  }

  /** What may follow a record: the end, or a character that neither
      continues it nor opens a field. */
  predicate RowEnd(t: string) {
    |t| == 0 || (t[0] != '"' && t[0] != ',')
  }

  /** Reading a written line gives back its cells. */
  lemma {:induction false} ReadRowLine(cells: seq<string>, t: string)
    requires |cells| > 0 && RowEnd(t)
    ensures ReadRow(Line(cells) + t) == Some((cells, t))
    decreases |cells|
  {
    var qs := QuoteAll(cells);
    assert qs == [Quote(cells[0])] + QuoteAll(cells[1..]);
    if |cells| == 1 {
      assert QuoteAll(cells[1..]) == [];
      assert Line(cells) + t == Quote(cells[0]) + t;
      ReadQuotedQuote(cells[0], t);
      assert [cells[0]] == cells;
    } else {
      var rest := Line(cells[1..]) + t;
      assert qs[1..] == QuoteAll(cells[1..]);
      assert Line(cells) + t == Quote(cells[0]) + ("," + rest);
      ReadQuotedQuote(cells[0], "," + rest);
      assert ("," + rest)[1..] == rest;
      ReadRowLine(cells[1..], t);
      assert [cells[0]] + cells[1..] == cells;
    }
  }

  /** Reading a written table gives back its rows, when every row has a
      cell: the header row and one row per record. */
  lemma {:induction false} ReadTableTable(rows: seq<seq<string>>)
    requires |rows| > 0
    requires forall i :: 0 <= i < |rows| ==> |rows[i]| > 0
    ensures ReadTable(Table(rows)) == Some(rows)
    decreases |rows|
  {
    var ls := LineAll(rows);
    assert ls == [Line(rows[0])] + LineAll(rows[1..]);
    if |rows| == 1 {
      assert LineAll(rows[1..]) == [];
      assert Table(rows) == Line(rows[0]) + "";
      ReadRowLine(rows[0], "");
      assert [rows[0]] == rows;
    } else {
      var rest := Table(rows[1..]);
      assert ls[1..] == LineAll(rows[1..]);
      assert Table(rows) == Line(rows[0]) + ("\r\n" + rest);
      ReadRowLine(rows[0], "\r\n" + rest);
      assert ("\r\n" + rest)[..2] == "\r\n";
      assert ("\r\n" + rest)[2..] == rest;
      ReadTableTable(rows[1..]);
      assert [rows[0]] + rows[1..] == rows;
    }
  }

  /* ---------------- the pages' exports ---------------- */

  /** The values of `keys` in record `r`, in order. */
  function Values(r: Rate, keys: seq<string>): (vs: seq<Value>)
    ensures |vs| == |keys|
    ensures forall i :: 0 <= i < |keys| ==> vs[i] == Field(r, keys[i])
    decreases |keys|
  {
    if |keys| == 0 then [] else [Field(r, keys[0])] + Values(r, keys[1..])
  }

  /** Each value through `text`, in order. */
  function Texts(vs: seq<Value>, text: Value -> string): (ts: seq<string>)
    ensures |ts| == |vs|
    ensures forall i :: 0 <= i < |vs| ==> ts[i] == text(vs[i])
    decreases |vs|
  {
    if |vs| == 0 then [] else [text(vs[0])] + Texts(vs[1..], text)
  }

  /** The header values as the cells the writer sees. */
  function Labels(names: seq<string>): (vs: seq<Value>)
    ensures |vs| == |names|
    ensures forall i :: 0 <= i < |names| ==> vs[i] == Str(names[i])
    decreases |names|
  {
    if |names| == 0 then [] else [Str(names[0])] + Labels(names[1..])
  }

  /** The cell texts of `exportCSV`: the header, then one row per record
      with the columns `keys`, each value through `text`. */
  function ExportRows(header: seq<string>, keys: seq<string>, text: Value -> string, data: seq<Rate>): (rows: seq<seq<string>>)
    ensures |rows| == |data| + 1
    ensures rows[0] == Texts(Labels(header), text)
    ensures forall i :: 0 <= i < |data| ==> rows[i + 1] == Texts(Values(data[i], keys), text)
    decreases |data|
  {
    if |data| == 0 then [Texts(Labels(header), text)]
    else
      var rest := ExportRows(header, keys, text, data[1..]);
      [rest[0]] + [Texts(Values(data[0], keys), text)] + rest[1..]
  }

  /** The BIDV page's columns and the record keys they show. */
  const BidvHeader: seq<string> := ["Date", "nameVI", "muaTm", "muaCk", "currency", "nameEN", "ban"]
  const BidvKeys: seq<string> := ["date", "nameVI", "muaTm", "muaCk", "currency", "nameEN", "ban"]

  /** The Techcombank page's columns and the record keys they show. */
  const TcbHeader: seq<string> :=
    ["Date", "label", "askRate", "bidRateCK", "bidRateTM", "askRateTM", "sourceCurrency", "targetCurrency"]
  const TcbKeys: seq<string> :=
    ["date", "label", "askRate", "bidRateCK", "bidRateTM", "askRateTM", "sourceCurrency", "targetCurrency"]

  /** A BIDV cell: `String(cell)`, so a missing value is written `undefined`. */
  function BidvText(v: Value): string {
    ToText(v)
  }

  /** A Techcombank cell: `String(cell || "")`. */
  function TcbText(v: Value): (t: string)
    ensures !Truthy(v) ==> t == ""
    ensures Truthy(v) ==> t == ToText(v)
  {
    ToText(Or(v, Str("")))
  }

  /** `exportCSV(data)` of the BIDV page. */
  function BidvCsv(data: seq<Rate>): string {
    Table(ExportRows(BidvHeader, BidvKeys, BidvText, data))
  }

  /** `exportCSV(data)` of the Techcombank page. */
  function TcbCsv(data: seq<Rate>): string {
    Table(ExportRows(TcbHeader, TcbKeys, TcbText, data))
  }

  /** A CSV reader recovers the header and, row by row, the text of every
      field of every record, in column order. */
  lemma ExportReadsBack(header: seq<string>, keys: seq<string>, text: Value -> string, data: seq<Rate>)
    requires |header| > 0 && |keys| > 0
    ensures var t := ReadTable(Table(ExportRows(header, keys, text, data)));
      && t.Some? && |t.value| == |data| + 1
      && t.value[0] == Texts(Labels(header), text)
      && forall i :: 0 <= i < |data| ==> t.value[i + 1] == Texts(Values(data[i], keys), text)
  {
    var rows := ExportRows(header, keys, text, data);
    assert forall i :: 0 <= i < |rows| ==> |rows[i]| > 0 by {
      forall i | 0 <= i < |rows|
        ensures |rows[i]| > 0
      {
        if i > 0 {
          assert rows[(i - 1) + 1] == Texts(Values(data[i - 1], keys), text);
        }
      }
    }
    ReadTableTable(rows);
  }

  /** Header names pass through a cell text unchanged when `text` keeps
      every name. */
  lemma {:induction false} LabelsKept(names: seq<string>, text: Value -> string)
    requires forall i :: 0 <= i < |names| ==> text(Str(names[i])) == names[i]
    ensures Texts(Labels(names), text) == names
  {
  }

  lemma TcbHeaderKept()
    ensures forall i :: 0 <= i < |TcbHeader| ==> TcbText(Str(TcbHeader[i])) == TcbHeader[i]
  {
    forall i | 0 <= i < |TcbHeader|
      ensures TcbText(Str(TcbHeader[i])) == TcbHeader[i]
    {
      assert |TcbHeader[i]| > 0;
    }
  }

  /** The BIDV file reads back as the 7 header names and, per record, the
      `String` of its 7 fields. */
  lemma BidvCsvReadsBack(data: seq<Rate>)
    ensures var t := ReadTable(BidvCsv(data));
      && t.Some? && |t.value| == |data| + 1
      && t.value[0] == BidvHeader
      && forall i :: 0 <= i < |data| ==> (|t.value[i + 1]| == 7
        && forall j :: 0 <= j < 7 ==> t.value[i + 1][j] == ToText(Field(data[i], BidvKeys[j])))
  {
    ExportReadsBack(BidvHeader, BidvKeys, BidvText, data);
    LabelsKept(BidvHeader, BidvText);
  }

  /** The Techcombank file reads back as the 8 header names and, per
      record, its 8 fields with every falsy one as the empty text. */
  lemma TcbCsvReadsBack(data: seq<Rate>)
    ensures var t := ReadTable(TcbCsv(data));
      && t.Some? && |t.value| == |data| + 1
      && t.value[0] == TcbHeader
      && forall i :: 0 <= i < |data| ==> (|t.value[i + 1]| == 8
        && forall j :: 0 <= j < 8 ==> t.value[i + 1][j] == TcbText(Field(data[i], TcbKeys[j])))
  {
    ExportReadsBack(TcbHeader, TcbKeys, TcbText, data);
    TcbHeaderKept();
    LabelsKept(TcbHeader, TcbText);
  }
}
