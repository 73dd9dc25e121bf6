/** Calendar days as integer ordinals of the proleptic Gregorian calendar,
    with day 0 = 0000-01-01, and the conversion to and from (year, month, day).
    The JavaScript code walks dates with `setDate(getDate() + 1)`; on ordinals
    that is `+ 1`, and this module proves the civil view agrees with it. */
module Calendar {

  type Day = int

  predicate IsLeap(y: int) {
    y % 4 == 0 && (y % 100 != 0 || y % 400 == 0)
  }

  function YearLength(y: int): int {
    if IsLeap(y) then 366 else 365
  }

  /** Days from 0000-01-01 to January 1st of year `y` (negative before year 0). */
  function DaysBeforeYear(y: int): int {
    365 * y + (y + 3) / 4 - (y + 99) / 100 + (y + 399) / 400
  }

  lemma YearStep(y: int)
    ensures DaysBeforeYear(y + 1) == DaysBeforeYear(y) + YearLength(y)
  {
    CountStep(y, 4);
    CountStep(y, 100);
    CountStep(y, 400);
    Multiples(y);
    var four := (y + 4) / 4 - (y + 3) / 4;
    var hundred := (y + 100) / 100 - (y + 99) / 100;
    var cycle := (y + 400) / 400 - (y + 399) / 400;
    assert DaysBeforeYear(y + 1) == DaysBeforeYear(y) + 365 + four - hundred + cycle;
  }

  /** A multiple of 400 is one of 100, and a multiple of 100 one of 4. */
  lemma Multiples(y: int)
    ensures y % 400 == 0 ==> y % 100 == 0
    ensures y % 100 == 0 ==> y % 4 == 0
  {
    if y % 400 == 0 {
      var q := y / 400;
      assert y == 100 * (4 * q);
    }
    if y % 100 == 0 {
      var q := y / 100;
      assert y == 4 * (25 * q);
    }
  }

  /** Among `y + 1` and `y`, the count of multiples of `k` below grows by one exactly at multiples. */
  lemma CountStep(y: int, k: int)
    requires k == 4 || k == 100 || k == 400
    ensures (y + k) / k - (y + k - 1) / k == if y % k == 0 then 1 else 0
  {
    var q, r := y / k, y % k;
    assert y == k * q + r && 0 <= r < k;
    assert (y + k) / k == q + 1;
    if r == 0 {
      assert (y + k - 1) / k == q;
    } else {
      assert (y + k - 1) / k == q + 1;
    }
  }

  lemma CycleStart(q: int)
    ensures DaysBeforeYear(400 * q) == 146097 * q
  {
    var y := 400 * q;
    assert (y + 3) / 4 == 100 * q;
    assert (y + 99) / 100 == 4 * q;
    assert (y + 399) / 400 == q;
  }

  lemma {:induction false} YearsMonotone(a: int, b: int)
    requires a <= b
    ensures DaysBeforeYear(a) + 365 * (b - a) <= DaysBeforeYear(b)
    decreases b - a
  {
    if a < b {
      YearsMonotone(a, b - 1);
      YearStep(b - 1);
    }
  }

  function DaysInMonth(y: int, m: int): int
    requires 1 <= m <= 12
  {
    if m == 2 then (if IsLeap(y) then 29 else 28)
    else if m == 4 || m == 6 || m == 9 || m == 11 then 30
    else 31
  }

  /** Days of year `y` before the first of month `m`; month 13 closes the year. */
  function DaysBeforeMonth(y: int, m: int): int
    requires 1 <= m <= 13
  {
    var leap := if IsLeap(y) then 1 else 0;
    if m == 1 then 0
    else if m == 2 then 31
    else [59, 90, 120, 151, 181, 212, 243, 273, 304, 334, 365][m - 3] + leap
  }

  lemma MonthStep(y: int, m: int)
    requires 1 <= m <= 12
    ensures DaysBeforeMonth(y, m + 1) == DaysBeforeMonth(y, m) + DaysInMonth(y, m)
    ensures DaysBeforeMonth(y, 13) == YearLength(y)
  {
  }

  lemma {:induction false} MonthsMonotone(y: int, a: int, b: int)
    requires 1 <= a <= b <= 13
    ensures DaysBeforeMonth(y, a) + 28 * (b - a) <= DaysBeforeMonth(y, b)
    decreases b - a
  {
    if a < b {
      MonthsMonotone(y, a, b - 1);
      MonthStep(y, b - 1);
    }
  }

  datatype Civil = Civil(year: int, month: int, day: int)

  predicate ValidCivil(c: Civil) {
    1 <= c.month <= 12 && 1 <= c.day <= DaysInMonth(c.year, c.month)
  }

  /** Strict lexicographic order on (year, month, day). */
  predicate CivilBefore(a: Civil, b: Civil) {
    a.year < b.year
    || (a.year == b.year && a.month < b.month)
    || (a.year == b.year && a.month == b.month && a.day < b.day)
  }

  function ToDay(c: Civil): (n: Day)
    requires ValidCivil(c)
    ensures DaysBeforeYear(c.year) <= n < DaysBeforeYear(c.year + 1)
  {
    MonthStep(c.year, c.month);
    MonthsMonotone(c.year, c.month + 1, 13);
    YearStep(c.year);
    DaysBeforeYear(c.year) + DaysBeforeMonth(c.year, c.month) + c.day - 1
  }

  /** The year containing day `n`, searched upwards from `y`. */
  function FindYear(n: Day, y: int): (r: int)
    requires DaysBeforeYear(y) <= n
    ensures y <= r && DaysBeforeYear(r) <= n < DaysBeforeYear(r + 1)
    decreases n - DaysBeforeYear(y)
  {
    YearStep(y);
    if n < DaysBeforeYear(y + 1) then y else FindYear(n, y + 1)
  }

  /** The month containing day-of-year `r`, searched upwards from `m`. */
  function FindMonth(y: int, r: int, m: int): (k: int)
    requires 1 <= m <= 12
    requires DaysBeforeMonth(y, m) <= r < DaysBeforeMonth(y, 13)
    ensures m <= k <= 12
    ensures DaysBeforeMonth(y, k) <= r < DaysBeforeMonth(y, k + 1)
    decreases 12 - m
  {
    if r < DaysBeforeMonth(y, m + 1) then m else FindMonth(y, r, m + 1)
  }

  /** The civil date of day `n`; it is valid and converts back to `n`. */
  function FromDay(n: Day): (c: Civil)
    ensures ValidCivil(c) && ToDay(c) == n
  {
    var q := n / 146097;
    CycleStart(q);
    var y := FindYear(n, 400 * q);
    var r := n - DaysBeforeYear(y);
    YearStep(y);
    MonthStep(y, 12);
    var m := FindMonth(y, r, 1);
    MonthStep(y, m);
    Civil(y, m, r - DaysBeforeMonth(y, m) + 1)
  }

  lemma YearUnique(n: Day, a: int, b: int)
    requires DaysBeforeYear(a) <= n < DaysBeforeYear(a + 1)
    requires DaysBeforeYear(b) <= n < DaysBeforeYear(b + 1)
    ensures a == b
  {
    if a < b {
      YearsMonotone(a + 1, b);
    } else if b < a {
      YearsMonotone(b + 1, a);
    }
  }

  lemma MonthUnique(y: int, r: int, a: int, b: int)
    requires 1 <= a <= 12 && 1 <= b <= 12
    requires DaysBeforeMonth(y, a) <= r < DaysBeforeMonth(y, a + 1)
    requires DaysBeforeMonth(y, b) <= r < DaysBeforeMonth(y, b + 1)
    ensures a == b
  {
    if a < b {
      MonthsMonotone(y, a + 1, b);
    } else if b < a {
      MonthsMonotone(y, b + 1, a);
    }
  }

  /** Every valid civil date is the civil date of its ordinal. */
  lemma CivilRoundTrip(c: Civil)
    requires ValidCivil(c)
    ensures FromDay(ToDay(c)) == c
  {
    ToDayInjective(FromDay(ToDay(c)), c);
  }

  /** Distinct valid dates have distinct ordinals. */
  lemma ToDayInjective(a: Civil, b: Civil)
    requires ValidCivil(a) && ValidCivil(b) && ToDay(a) == ToDay(b)
    ensures a == b
  {
    ToDayOrder(a, b);
    ToDayOrder(b, a);
  }

  /** Ordinal order on days is the calendar's (year, month, day) order. */
  lemma ToDayOrder(a: Civil, b: Civil)
    requires ValidCivil(a) && ValidCivil(b)
    ensures CivilBefore(a, b) ==> ToDay(a) < ToDay(b)
  {
    if a.year < b.year {
      YearsMonotone(a.year + 1, b.year);
    } else if a.year == b.year && a.month < b.month {
      MonthStep(a.year, a.month);
      MonthsMonotone(a.year, a.month + 1, b.month);
    }
  }

  lemma DayOrder(a: Day, b: Day)
    ensures a < b <==> CivilBefore(FromDay(a), FromDay(b))
  {
    var ca, cb := FromDay(a), FromDay(b);
    ToDayOrder(ca, cb);
    ToDayOrder(cb, ca);
  }

  /** The next ordinal is the next calendar day: the day of month advances,
      or the month rolls over, or the year does. */
  lemma NextDay(n: Day)
    ensures FromDay(n + 1) == NextCivil(FromDay(n))
  {
    var c := FromDay(n);
    NextCivilStep(c);
    CivilRoundTrip(NextCivil(c));
  }

  lemma NextCivilStep(c: Civil)
    requires ValidCivil(c)
    ensures ToDay(NextCivil(c)) == ToDay(c) + 1
  {
    MonthStep(c.year, c.month);
    if c.day == DaysInMonth(c.year, c.month) && c.month == 12 {
      YearStep(c.year);
    }
  }

  /** The civil date following a valid one. */
  function NextCivil(c: Civil): (r: Civil)
    requires ValidCivil(c)
    ensures ValidCivil(r)
  {
    if c.day < DaysInMonth(c.year, c.month) then Civil(c.year, c.month, c.day + 1)
    else if c.month < 12 then Civil(c.year, c.month + 1, 1)
    else Civil(c.year + 1, 1, 1)
  }

  /** Days whose year has exactly four digits, the range in which the
      bank formats are fixed-width and unambiguous. */
  predicate InEra(n: Day) {
    1 <= FromDay(n).year <= 9999
  }

  lemma EraBetween(lo: Day, n: Day, hi: Day)
    requires InEra(lo) && InEra(hi) && lo <= n <= hi
    ensures InEra(n)
  {
    YearOrder(lo, n);
    YearOrder(n, hi);
  }

  lemma YearOrder(a: Day, b: Day)
    requires a <= b
    ensures FromDay(a).year <= FromDay(b).year
  {
    var ca, cb := FromDay(a), FromDay(b);
    if cb.year < ca.year {
      ToDayOrder(cb, ca);
    }
  }
}
