/**
The proleptic Gregorian calendar at a fixed offset from UTC, as far as cron matching needs it.
Day 0 is Monday 1 January of year 1.
*/
module Calendar {
  predicate IsLeap(y: int) {
    y % 4 == 0 && (y % 100 != 0 || y % 400 == 0)
  }

  function YearLength(y: int): int { if IsLeap(y) then 366 else 365 }

  /** The day number of 1 January. */
  function YearStart(y: int): int {
    365 * (y - 1) + (y - 1) / 4 - (y - 1) / 100 + (y - 1) / 400
  }

  function MonthLength(y: int, m: int): int
    requires 1 <= m <= 12
  {
    if m == 2 then (if IsLeap(y) then 29 else 28)
    else if m == 4 || m == 6 || m == 9 || m == 11 then 30
    else 31
  }

  /** The days of the year before month `m`; month 13 stands for the end of the year. */
  function MonthStart(y: int, m: int): int
    requires 1 <= m <= 13
    decreases m
  {
    if m == 1 then 0 else MonthStart(y, m - 1) + MonthLength(y, m - 1)
  }

  datatype Date = Date(year: int, month: int, day: int)

  predicate ValidDate(d: Date) {
    1 <= d.month <= 12 && 1 <= d.day <= MonthLength(d.year, d.month)
  }

  function DayNumber(d: Date): int
    requires 1 <= d.month <= 12
  {
    YearStart(d.year) + MonthStart(d.year, d.month) + d.day - 1
  }

  /** The year containing a day: the mean year length puts it at one of two candidates. */
  function YearOf(n: int): int {
    var guess := 400 * n / 146097 + 1;
    if YearStart(guess + 1) <= n then guess + 1 else guess
  }

  /** The month containing day `r` of the year, searched from month `m`. */
  function MonthFrom(y: int, r: int, m: int): int
    requires 1 <= m <= 12
    decreases 12 - m
  {
    if m < 12 && MonthStart(y, m + 1) <= r then MonthFrom(y, r, m + 1) else m
  }

  function DateOf(n: int): Date {
    var y := YearOf(n);
    var r := n - YearStart(y);
    var m := MonthFrom(y, r, 1);
    Date(y, m, if 1 <= m <= 12 then r - MonthStart(y, m) + 1 else 1)
  }

  /** Sunday is 0. */
  function Weekday(n: int): int { (n + 1) % 7 }

  // ---------------------------------------------------------------- the calendar is right

  lemma QuotientStep(y: int, k: int)
    requires k == 4 || k == 100 || k == 400
    ensures y / k == (y - 1) / k + (if y % k == 0 then 1 else 0)
  {
    if k == 4 { assert y == 4 * (y / 4) + y % 4; }
    else if k == 100 { assert y == 100 * (y / 100) + y % 100; }
    else { assert y == 400 * (y / 400) + y % 400; }
  }

  lemma HundredFold(k: int)
    ensures 100 * k % 100 == 0
  {
  }

  lemma FourFold(k: int)
    ensures 4 * k % 4 == 0
  {
  }

  lemma Centuries(y: int)
    ensures y % 400 == 0 ==> y % 100 == 0
    ensures y % 100 == 0 ==> y % 4 == 0
  {
    if y % 400 == 0 { HundredFold(4 * (y / 400)); }
    if y % 100 == 0 { FourFold(25 * (y / 100)); }
  }

  lemma YearStep(y: int)
    ensures YearStart(y + 1) == YearStart(y) + YearLength(y)
  {
    QuotientStep(y, 4);
    QuotientStep(y, 100);
    QuotientStep(y, 400);
    Centuries(y);
  }

  lemma {:induction false} YearStartMonotone(y0: int, y1: int)
    requires y0 < y1
    ensures YearStart(y0) + 365 <= YearStart(y1)
    decreases y1 - y0
  {
    YearStep(y1 - 1);
    if y0 < y1 - 1 { YearStartMonotone(y0, y1 - 1); }
  }

  /** How far the start of a year is from its mean position. */
  lemma YearDrift(n: int)
    ensures 146097 * n - 699 <= 400 * YearStart(n + 1) <= 146097 * n + 396
  {
    assert n == 4 * (n / 4) + n % 4;
    assert n == 100 * (n / 100) + n % 100;
    assert n == 400 * (n / 400) + n % 400;
  }

  lemma YearOfBrackets(n: int)
    ensures YearStart(YearOf(n)) <= n < YearStart(YearOf(n) + 1)
  {
    var g := 400 * n / 146097;
    YearDrift(g);
    YearDrift(g + 1);
    YearDrift(g + 2);
  }

  lemma MonthsFillYear(y: int)
    ensures MonthStart(y, 13) == YearLength(y)
  {
    assert MonthStart(y, 4) == 90 + YearLength(y) - 365;
    assert MonthStart(y, 7) == 181 + YearLength(y) - 365;
    assert MonthStart(y, 10) == 273 + YearLength(y) - 365;
  }

  lemma {:induction false} MonthFromBrackets(y: int, r: int, m: int)
    requires 1 <= m <= 12 && MonthStart(y, m) <= r < YearLength(y)
    ensures m <= MonthFrom(y, r, m) <= 12
    ensures MonthStart(y, MonthFrom(y, r, m)) <= r < MonthStart(y, MonthFrom(y, r, m) + 1)
    decreases 12 - m
  {
    MonthsFillYear(y);
    if m < 12 && MonthStart(y, m + 1) <= r { MonthFromBrackets(y, r, m + 1); }
  }

  /** Every day has a valid date, and the date gives the day back. */
  lemma DateOfDay(n: int)
    ensures ValidDate(DateOf(n)) && DayNumber(DateOf(n)) == n
  {
    YearOfBrackets(n);
    YearStep(YearOf(n));
    MonthFromBrackets(YearOf(n), n - YearStart(YearOf(n)), 1);
  }

  lemma {:induction false} MonthStartMonotone(y: int, m0: int, m1: int)
    requires 1 <= m0 < m1 <= 13
    ensures MonthStart(y, m0) + 28 <= MonthStart(y, m1)
    decreases m1 - m0
  {
    if m0 < m1 - 1 { MonthStartMonotone(y, m0, m1 - 1); }
  }

  /** A valid date lies within its year. */
  lemma DayInYear(d: Date)
    requires ValidDate(d)
    ensures YearStart(d.year) <= DayNumber(d) < YearStart(d.year + 1)
  {
    MonthsFillYear(d.year);
    YearStep(d.year);
    if d.month < 12 { MonthStartMonotone(d.year, d.month + 1, 13); }
    if 1 < d.month { MonthStartMonotone(d.year, 1, d.month); }
  }

  lemma YearsApart(y0: int, y1: int)
    requires y0 < y1
    ensures YearStart(y0 + 1) <= YearStart(y1)
  {
    if y0 + 1 < y1 { YearStartMonotone(y0 + 1, y1); }
  }

  lemma MonthsApart(y: int, m0: int, m1: int)
    requires 1 <= m0 < m1 <= 12
    ensures MonthStart(y, m0) + MonthLength(y, m0) <= MonthStart(y, m1)
  {
    if m0 + 1 < m1 { MonthStartMonotone(y, m0 + 1, m1); }
  }

  lemma SameYear(d: Date, e: Date)
    requires ValidDate(d) && ValidDate(e) && DayNumber(d) == DayNumber(e)
    ensures d.year == e.year
  {
    DayInYear(d);
    DayInYear(e);
    if d.year < e.year { YearsApart(d.year, e.year); }
    if e.year < d.year { YearsApart(e.year, d.year); }
  }

  /** Different valid dates are different days. */
  lemma DatesDiffer(d: Date, e: Date)
    requires ValidDate(d) && ValidDate(e) && DayNumber(d) == DayNumber(e)
    ensures d == e
  {
    SameYear(d, e);
    if d.month < e.month { MonthsApart(d.year, d.month, e.month); }
    if e.month < d.month { MonthsApart(d.year, e.month, d.month); }
  }

  /** So `DateOf` inverts `DayNumber`. */
  lemma DayOfDate(d: Date, n: int)
    requires ValidDate(d) && DayNumber(d) == n
    ensures DateOf(n) == d
  {
    DateOfDay(n);
    DatesDiffer(d, DateOf(n));
  }

  function Tomorrow(d: Date): Date
    requires ValidDate(d)
  {
    if d.day < MonthLength(d.year, d.month) then d.(day := d.day + 1)
    else if d.month < 12 then Date(d.year, d.month + 1, 1)
    else Date(d.year + 1, 1, 1)
  }

  lemma TomorrowIsValid(d: Date)
    requires ValidDate(d)
    ensures ValidDate(Tomorrow(d)) && DayNumber(Tomorrow(d)) == DayNumber(d) + 1
  {
    if d.month == 12 {
      MonthsFillYear(d.year);
      YearStep(d.year);
    }
  }

  /** Consecutive days have consecutive dates. */
  lemma TomorrowIsNextDay(n: int)
    ensures ValidDate(DateOf(n)) && DateOf(n + 1) == Tomorrow(DateOf(n))
  {
    DateOfDay(n);
    TomorrowIsValid(DateOf(n));
    DayOfDate(Tomorrow(DateOf(n)), n + 1);
  }

  /** Two known days fix the origin of the day count and of the week. */
  lemma KnownDays()
    ensures DayNumber(Date(1970, 1, 1)) == 719162 && Weekday(719162) == 4
    ensures DayNumber(Date(2000, 2, 29)) == 730178 && Weekday(730178) == 2
  {
    assert MonthStart(1970, 1) == 0 && MonthStart(2000, 2) == 31;
  }
}
