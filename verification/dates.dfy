/** The date texts the code produces and reads (date-fns `yyyy-MM-dd` and
    `dd/MM/yyyy`, the pages' hand-written `DD/MM/YYYY` and `YYYY-MM-DD`),
    parsing of `yyyy-MM-dd` request strings, and the inclusive day range. */
module Dates {
  import opened Js
  import opened Calendar

  /* ---------------- fixed-width decimal fields ---------------- */

  function Pow10(w: nat): (p: nat)
    ensures p >= 1
  {
    if w == 0 then 1 else 10 * Pow10(w - 1)
  }

  /** `n` zero-padded to at least `width` digits. */
  function Padded(n: nat, width: nat): string {
    PadStart(Digits(n), width)
  }

  lemma {:induction false} DigitsLength(n: nat, w: nat)
    requires 1 <= w
    ensures n < Pow10(w) ==> |Digits(n)| <= w
    ensures Pow10(w - 1) <= n ==> |Digits(n)| >= w
  {
    if n >= 10 && w >= 2 {
      DigitsLength(n / 10, w - 1);
    }
  }

  lemma PaddedWidth(n: nat, w: nat)
    requires 1 <= w && n < Pow10(w)
    ensures |Padded(n, w)| == w && AllDigits(Padded(n, w)) && DecimalValue(Padded(n, w)) == n
  {
    DigitsLength(n, w);
    PaddedValue(n, w);
  }

  /** Two digit strings of one width with one value are the same string. */
  lemma {:induction false} DecimalInjective(t: string, u: string)
    requires AllDigits(t) && AllDigits(u) && |t| == |u|
    requires DecimalValue(t) == DecimalValue(u)
    ensures t == u
  {
    if |t| > 0 {
      var k := |t| - 1;
      DecimalInjective(t[..k], u[..k]);
      assert t == t[..k] + [t[k]] && u == u[..k] + [u[k]];
    }
  }

  lemma {:induction false} DecimalBound(t: string)
    requires AllDigits(t)
    ensures DecimalValue(t) < Pow10(|t|)
  {
    if |t| > 0 {
      DecimalBound(t[..|t| - 1]);
    }
  }

  /** On digit strings of one width, text order is numeric order. */
  lemma {:induction false} DecimalOrder(t: string, u: string)
    requires AllDigits(t) && AllDigits(u) && |t| == |u|
    ensures StrLess(t, u) <==> DecimalValue(t) < DecimalValue(u)
  {
    if |t| == 0 {
      assert !StrLess(t, u);
    } else {
      var k := |t| - 1;
      var t', u' := t[..k], u[..k];
      assert t == t' + [t[k]] && u == u' + [u[k]];
      StrLessConcat(t', [t[k]], u', [u[k]]);
      DecimalOrder(t', u');
      if DecimalValue(t') == DecimalValue(u') {
        DecimalInjective(t', u');
      }
      if t' == u' {
        assert DecimalValue(t') == DecimalValue(u');
      }
      assert StrLess([t[k]], [u[k]]) <==> t[k] < u[k] by {
        assert [t[k]][1..] == [] && [u[k]][1..] == [];
      }
    }
  }

  /* ---------------- the date texts ---------------- */

  /** The year date-fns prints for token `yyyy`: years before 1 count backwards from 1. */
  function ShownYear(y: int): nat {
    if y > 0 then y else 1 - y
  }

  /** date-fns `format(d, "yyyy-MM-dd")`: the cache key and the TCB query date. */
  function IsoDate(n: Day): string {
    var c := FromDay(n);
    IsoText(c.year, c.month, c.day)
  }

  function IsoText(y: int, m: nat, d: nat): string {
    Padded(ShownYear(y), 4) + "-" + Padded(m, 2) + "-" + Padded(d, 2)
  }

  /** date-fns `format(d, "dd/MM/yyyy")`: the BIDV query date and record date. */
  function BankDate(n: Day): string {
    var c := FromDay(n);
    BankText(c.year, c.month, c.day)
  }

  function BankText(y: int, m: nat, d: nat): string {
    Padded(d, 2) + "/" + Padded(m, 2) + "/" + Padded(ShownYear(y), 4)
  }

  /** The pages' `formatDate`: day and month padded to two digits, the year as `${year}`. */
  function PageDate(n: Day): string {
    var c := FromDay(n);
    PageText(c.year, c.month, c.day)
  }

  function PageText(y: int, m: nat, d: nat): string {
    Padded(d, 2) + "/" + Padded(m, 2) + "/" + IntToString(y)
  }

  /** The TCB page's query date: `${yyyy}-${mm}-${dd}` with an unpadded year. */
  function PageIsoDate(n: Day): string {
    var c := FromDay(n);
    PageIsoText(c.year, c.month, c.day)
  }

  function PageIsoText(y: int, m: nat, d: nat): string {
    IntToString(y) + "-" + Padded(m, 2) + "-" + Padded(d, 2)
  }

  /** Years 1000 to 9999: where the pages' hand-written texts are four-digit years too. */
  predicate FourDigitYear(n: Day) {
    1000 <= FromDay(n).year <= 9999
  }

  lemma PageTextsAgree(y: int, m: nat, d: nat)
    requires 1000 <= y <= 9999 && m < 100 && d < 100
    ensures PageText(y, m, d) == BankText(y, m, d) && PageIsoText(y, m, d) == IsoText(y, m, d)
    ensures |PageText(y, m, d)| == 10 && PageText(y, m, d)[2] == '/' && PageText(y, m, d)[5] == '/'
  {
    FourDigits(y);
    var ys, ms, ds := IntToString(y), Padded(m, 2), Padded(d, 2);
    PaddedLength(d, 2);
    PaddedLength(m, 2);
    assert PageText(y, m, d) == ds + "/" + ms + "/" + ys;
    SlashLayout(ds, ms, ys);
  }

  lemma SlashLayout(d: string, m: string, y: string)
    requires |d| == 2 && |m| == 2 && |y| == 4
    ensures var s := d + "/" + m + "/" + y; |s| == 10 && s[2] == '/' && s[5] == '/'
  {
  }

  /** A four-digit year needs no padding: `${year}` and `yyyy` agree. */
  lemma FourDigits(y: int)
    requires 1000 <= y <= 9999
    ensures IntToString(y) == Padded(y, 4) == Padded(ShownYear(y), 4) && |Padded(y, 4)| == 4
  {
    DigitsLength(y, 4);
  }

  /** For four-digit years the pages' texts coincide with the date-fns ones. */
  lemma PageFormatsAgree(n: Day)
    requires FourDigitYear(n)
    ensures PageDate(n) == BankDate(n)
    ensures PageIsoDate(n) == IsoDate(n)
    ensures |PageDate(n)| == 10 && PageDate(n)[2] == '/' && PageDate(n)[5] == '/'
  {
    var c := FromDay(n);
    PageTextsAgree(c.year, c.month, c.day);
  }

  /** The fields of a valid `yyyy-MM-dd` text, or `None`. */
  function ParseIsoCivil(s: string): Option<Civil> {
    if |s| == 10 && s[4] == '-' && s[7] == '-'
       && AllDigits(s[..4]) && AllDigits(s[5..7]) && AllDigits(s[8..])
    then
      var c := Civil(DecimalValue(s[..4]), DecimalValue(s[5..7]), DecimalValue(s[8..]));
      if 1 <= c.year && ValidCivil(c) then Some(c) else None
    else None
  }

  /** `new Date(s)` for a date-only ISO text; `None` is an Invalid Date. */
  function ParseIso(s: string): Option<Day> {
    match ParseIsoCivil(s)
    case Some(c) => Some(ToDay(c))
    case None => None
  }

  lemma PaddedLength(n: nat, w: nat)
    requires 1 <= w && n < Pow10(w)
    ensures |Padded(n, w)| == w
  {
    PaddedWidth(n, w);
  }

  /** Where the three fields of a `yyyy?MM?dd` text sit. */
  lemma SplitDateText(y: string, m: string, d: string, sep: string)
    requires |y| == 4 && |m| == 2 && |d| == 2 && |sep| == 1
    ensures var s := y + sep + m + sep + d;
      |s| == 10 && s[4] == sep[0] && s[7] == sep[0] && s[..4] == y && s[5..7] == m && s[8..] == d
  {
    var s := y + sep + m + sep + d;
    assert s[..4] == y;
    assert s[5..7] == m;
    assert s[8..] == d;
  }

  /** The pieces of `IsoText` for a year of at most four digits. */
  lemma IsoPieces(y: int, m: nat, d: nat)
    requires 1 <= y <= 9999 && m < 100 && d < 100
    ensures var s := IsoText(y, m, d);
      && |s| == 10 && s[4] == '-' && s[7] == '-'
      && s[..4] == Padded(y, 4) && s[5..7] == Padded(m, 2) && s[8..] == Padded(d, 2)
      && AllDigits(s[..4]) && AllDigits(s[5..7]) && AllDigits(s[8..])
      && DecimalValue(s[..4]) == y && DecimalValue(s[5..7]) == m && DecimalValue(s[8..]) == d
  {
    PaddedLength(y, 4);
    PaddedLength(m, 2);
    PaddedLength(d, 2);
    SplitDateText(Padded(y, 4), Padded(m, 2), Padded(d, 2), "-");
    PaddedWidth(y, 4);
    PaddedWidth(m, 2);
    PaddedWidth(d, 2);
  }

  /** Parsing the key of an era day gives the day back. */
  lemma IsoRoundTrip(n: Day)
    requires InEra(n)
    ensures ParseIso(IsoDate(n)) == Some(n)
  {
    var c := FromDay(n);
    IsoPieces(c.year, c.month, c.day);
    assert ParseIsoCivil(IsoText(c.year, c.month, c.day)) == Some(c);
  }

  /** A text that parses is exactly the key of the day it parses to. */
  lemma ParseIsoRoundTrip(s: string)
    requires ParseIso(s).Some?
    ensures InEra(ParseIso(s).value) && IsoDate(ParseIso(s).value) == s
  {
    var c := ParseIsoCivil(s).value;
    CivilRoundTrip(c);
    DecimalBound(s[..4]);
    TextOfFields(s, c.year, c.month, c.day);
  }

  /** A well-formed `yyyy-MM-dd` text is the text of its own fields. */
  lemma TextOfFields(s: string, y: int, m: nat, d: nat)
    requires |s| == 10 && s[4] == '-' && s[7] == '-'
    requires AllDigits(s[..4]) && AllDigits(s[5..7]) && AllDigits(s[8..])
    requires y == DecimalValue(s[..4]) && m == DecimalValue(s[5..7]) && d == DecimalValue(s[8..])
    requires 1 <= y <= 9999
    ensures IsoText(y, m, d) == s
  {
    DecimalBound(s[5..7]);
    DecimalBound(s[8..]);
    IsoPieces(y, m, d);
    var t := IsoText(y, m, d);
    DecimalInjective(t[..4], s[..4]);
    DecimalInjective(t[5..7], s[5..7]);
    DecimalInjective(t[8..], s[8..]);
    SamePieces(t, s);
  }

  lemma SamePieces(t: string, s: string)
    requires |t| == 10 && |s| == 10 && t[4] == s[4] && t[7] == s[7]
    requires t[..4] == s[..4] && t[5..7] == s[5..7] && t[8..] == s[8..]
    ensures t == s
  {
    assert forall i :: 0 <= i < 4 ==> t[i] == t[..4][i] == s[..4][i] == s[i];
    assert forall i :: 5 <= i < 7 ==> t[i] == t[5..7][i - 5] == s[5..7][i - 5] == s[i];
    assert forall i :: 8 <= i < 10 ==> t[i] == t[8..][i - 8] == s[8..][i - 8] == s[i];
  }

  /** Distinct era days have distinct keys. */
  lemma IsoInjective(a: Day, b: Day)
    requires InEra(a) && InEra(b) && IsoDate(a) == IsoDate(b)
    ensures a == b
  {
    IsoRoundTrip(a);
    IsoRoundTrip(b);
  }

  lemma IsoTextOrder(ya: int, ma: nat, da: nat, yb: int, mb: nat, db: nat)
    requires 1 <= ya <= 9999 && ma < 100 && da < 100
    requires 1 <= yb <= 9999 && mb < 100 && db < 100
    ensures StrLess(IsoText(ya, ma, da), IsoText(yb, mb, db))
        <==> CivilBefore(Civil(ya, ma, da), Civil(yb, mb, db))
  {
    var sa, sb := IsoText(ya, ma, da), IsoText(yb, mb, db);
    IsoPieces(ya, ma, da);
    IsoPieces(yb, mb, db);
    PiecewiseOrder(sa, sb);
    FieldOrder(sa[..4], sb[..4]);
    FieldOrder(sa[5..7], sb[5..7]);
    DecimalOrder(sa[8..], sb[8..]);
  }

  /** On equal-width digit fields, text order and text equality are numeric. */
  lemma FieldOrder(t: string, u: string)
    requires AllDigits(t) && AllDigits(u) && |t| == |u|
    ensures StrLess(t, u) <==> DecimalValue(t) < DecimalValue(u)
    ensures t == u <==> DecimalValue(t) == DecimalValue(u)
  {
    DecimalOrder(t, u);
    if DecimalValue(t) == DecimalValue(u) {
      DecimalInjective(t, u);
    }
  }

  /** Two ten-character texts with the same separators at 4 and 7 compare
      field by field. */
  lemma PiecewiseOrder(sa: string, sb: string)
    requires |sa| == 10 && |sb| == 10 && sa[4] == sb[4] && sa[7] == sb[7]
    ensures StrLess(sa, sb) <==>
      || StrLess(sa[..4], sb[..4])
      || (sa[..4] == sb[..4] && StrLess(sa[5..7], sb[5..7]))
      || (sa[..4] == sb[..4] && sa[5..7] == sb[5..7] && StrLess(sa[8..], sb[8..]))
  {
    var a0, a1, a2, a3, a4 := sa[..4], sa[4..5], sa[5..7], sa[7..8], sa[8..];
    var b0, b1, b2, b3, b4 := sb[..4], sb[4..5], sb[5..7], sb[7..8], sb[8..];
    var r3, q3 := a3 + a4, b3 + b4;
    var r2, q2 := a2 + r3, b2 + q3;
    var r1, q1 := a1 + r2, b1 + q2;
    assert sa == a0 + r1;
    assert sb == b0 + q1;
    assert a1 == b1 && a3 == b3;
    StrLessIrreflexive(a1);
    StrLessIrreflexive(a3);
    StrLessConcat(a3, a4, b3, b4);
    assert StrLess(r3, q3) <==> StrLess(a4, b4);
    StrLessConcat(a2, r3, b2, q3);
    StrLessConcat(a1, r2, b1, q2);
    assert StrLess(r1, q1) <==> StrLess(r2, q2);
    StrLessConcat(a0, r1, b0, q1);
  }

  /** Comparing two era keys as strings, as `startDate > endDate` does,
      compares the days. */
  lemma IsoOrder(a: Day, b: Day)
    requires InEra(a) && InEra(b)
    ensures StrLess(IsoDate(a), IsoDate(b)) <==> a < b
  {
    CivilIsoOrder(FromDay(a), FromDay(b));
    DayOrder(a, b);
  }

  lemma CivilIsoOrder(ca: Civil, cb: Civil)
    requires ValidCivil(ca) && ValidCivil(cb)
    requires 1 <= ca.year <= 9999 && 1 <= cb.year <= 9999
    ensures StrLess(IsoText(ca.year, ca.month, ca.day), IsoText(cb.year, cb.month, cb.day))
        <==> CivilBefore(ca, cb)
  {
    IsoTextOrder(ca.year, ca.month, ca.day, cb.year, cb.month, cb.day);
  }

  /** `new Date(v)` for a request field; only date-only ISO texts are read. */
  function ParseDate(v: Value): Option<Day> {
    if v.Str? then ParseIso(v.s) else None
  }

  /* ---------------- getDateRange ---------------- */

  /** `getDateRange(start, end)`: every day from `start` to `end`, both included. */
  function DateRange(start: Day, end: Day): (days: seq<Day>)
    ensures |days| == if start <= end then end - start + 1 else 0
    ensures forall i :: 0 <= i < |days| ==> days[i] == start + i
    decreases end - start
  {
    if start > end then [] else [start] + DateRange(start + 1, end)
  }
}
