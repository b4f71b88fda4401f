/** Matching a cron expression against the clock, and the minute-stepping search for the next match. */
module CronSearch {
  import opened Wrappers
  import opened Calendar

  /** The values each field admits, as lists in the order they were written. */
  datatype CronExpr = CronExpr(minute: seq<int>, hour: seq<int>, dom: seq<int>, month: seq<int>, dow: seq<int>)

  const MINUTE := 60_000_000_000   // nanoseconds
  const DAY_MINUTES := 1440
  const SEARCH_MINUTES := 366 * 24 * 60

  predicate IntIn(list: seq<int>, v: int) { v in list }

  /** Whether the whole minute `q`, counted from the start of day 0, matches. The two day fields
      are alternatives, always. */
  predicate MatchesMinute(e: CronExpr, q: int) {
    var date := DateOf(q / DAY_MINUTES);
    IntIn(e.minute, q % 60) && IntIn(e.hour, q / 60 % 24) && IntIn(e.month, date.month) &&
    (IntIn(e.dom, date.day) || IntIn(e.dow, Weekday(q / DAY_MINUTES)))
  }

  /** `t` is local time in nanoseconds. */
  predicate Matches(e: CronExpr, t: int) { MatchesMinute(e, t / MINUTE) }

  function Later(t: int, k: int): int { t + k * MINUTE }

  ghost predicate Admits(field: seq<int>, lo: int, hi: int) {
    exists v :: lo <= v <= hi && v in field
  }

  /** Every field admits something that can occur. */
  ghost predicate Satisfiable(e: CronExpr) {
    Admits(e.minute, 0, 59) && Admits(e.hour, 0, 23) && Admits(e.dom, 1, 31) &&
    Admits(e.month, 1, 12) && Admits(e.dow, 0, 6)
  }

  /** None of the first `k` steps after `t` matches. */
  ghost predicate Misses(e: CronExpr, t: int, k: nat) {
    forall j :: 1 <= j <= k ==> !Matches(e, Later(t, j))
  }

  /** `u` is the first match among t + 1 minute, t + 2 minutes and so on. */
  ghost predicate IsNext(e: CronExpr, t: int, u: int) {
    exists k: nat :: 1 <= k <= SEARCH_MINUTES && u == Later(t, k) && Matches(e, u) && Misses(e, t, k - 1)
  }

  /** Steps minute by minute for 366 days; the seconds of `t` are kept. */
  method NextAfter(e: CronExpr, t: int) returns (r: Option<int>)
    ensures r.Some? ==> IsNext(e, t, r.value)
    ensures r.None? ==> Misses(e, t, SEARCH_MINUTES)
    ensures Satisfiable(e) ==> r.Some?
  {
    var u, k := t, 0;
    while k < SEARCH_MINUTES
      invariant 0 <= k <= SEARCH_MINUTES && u == Later(t, k)
      invariant Misses(e, t, k)
    {
      u := u + MINUTE;
      var match' := Matches(e, u);
      if match' {
        assert u == Later(t, k + 1);
        return Some(u);
      }
      k := k + 1;
    }
    r := None;
    if Satisfiable(e) {
      var j := MatchWithinYear(e, t);
    }
  }

  // ---------------------------------------------------------------- every expression fires

  function MonthOf(n: int): int { DateOf(n).month }

  /** Seven consecutive days of one month include every weekday. */
  lemma WeekInMonth(y: int, m: int, day: int, w: int) returns (x: int)
    requires 1 <= m <= 12 && 1 <= day <= 22 && 0 <= w <= 6
    ensures MonthOf(x) == m && Weekday(x) == w
    ensures DayNumber(Date(y, m, day)) <= x <= DayNumber(Date(y, m, day)) + 6
  {
    var first := DayNumber(Date(y, m, day));
    var j := NextWeekday(first, w);
    x := first + j;
    InMonth(y, m, day + j, x);
  }

  lemma NextWeekday(first: int, w: int) returns (j: int)
    requires 0 <= w <= 6
    ensures 0 <= j <= 6 && Weekday(first + j) == w
  {
    j := (w - Weekday(first)) % 7;
  }

  lemma InMonth(y: int, m: int, day: int, x: int)
    requires ValidDate(Date(y, m, day)) && x == DayNumber(Date(y, m, day))
    ensures MonthOf(x) == m
  {
    DayOfDate(Date(y, m, day), x);
  }

  /** A year's drift moves the start of a month by at most one day. */
  lemma {:induction false} MonthStartsAgree(y: int, z: int, m: int)
    requires 1 <= m <= 13
    ensures MonthStart(z, m) <= MonthStart(y, m) + 1
    ensures m <= 2 ==> MonthStart(z, m) == MonthStart(y, m)
    decreases m
  {
    if 1 < m { MonthStartsAgree(y, z, m - 1); }
  }

  lemma LaterThisYear(d: Date, m: int)
    requires ValidDate(d) && d.month < m <= 12
    ensures DayNumber(d) < DayNumber(Date(d.year, m, 1)) <= DayNumber(d) + 338
  {
    MonthsFillYear(d.year);
    MonthsApart(d.year, d.month, m);
    MonthStartMonotone(d.year, m, 13);
    if 1 < d.month { MonthStartMonotone(d.year, 1, d.month); }
  }

  /** How far the first of a month of the next year is ahead. */
  lemma NextYearGap(d: Date, m: int)
    requires ValidDate(d) && 1 <= m <= 12
    ensures DayNumber(Date(d.year + 1, m, 1)) - DayNumber(d)
         == YearLength(d.year) + MonthStart(d.year + 1, m) - MonthStart(d.year, d.month) - d.day + 1
  {
    YearStep(d.year);
  }

  /** What is left of a year after a day. */
  lemma RestOfYear(d: Date)
    requires ValidDate(d)
    ensures 0 <= YearLength(d.year) - MonthStart(d.year, d.month) - d.day
  {
    MonthsFillYear(d.year);
    MonthStartMonotone(d.year, d.month, 13);
    if d.month < 12 { MonthStartMonotone(d.year, d.month + 1, 13); }
  }

  /** A month starts at most one day later in the next year than in this one. */
  lemma NextStart(y: int, m: int, month: int)
    requires 1 <= m <= month <= 12
    ensures 0 <= MonthStart(y + 1, m) <= MonthStart(y, month) + 1 - if m < month then 28 else 0
  {
    if 1 < m { MonthStartMonotone(y + 1, 1, m); }
    MonthStartsAgree(y, y + 1, m);
    if m < month { MonthStartMonotone(y, m, month); }
  }

  lemma GapBounds(d: Date, m: int)
    requires ValidDate(d) && 1 <= m <= d.month && (m == d.month ==> 22 <= d.day)
    ensures 1 <= YearLength(d.year) + MonthStart(d.year + 1, m) - MonthStart(d.year, d.month) - d.day + 1 <= 346
  {
    RestOfYear(d);
    NextStart(d.year, m, d.month);
  }

  lemma EarlyNextYear(d: Date, m: int)
    requires ValidDate(d) && 1 <= m <= d.month && (m == d.month ==> 22 <= d.day)
    ensures DayNumber(d) < DayNumber(Date(d.year + 1, m, 1)) <= DayNumber(d) + 346
  {
    NextYearGap(d, m);
    GapBounds(d, m);
  }

  /** Any month and weekday meet within the 365 days after any day. */
  lemma DayWithinYear(n: int, m: int, w: int) returns (x: int)
    requires 1 <= m <= 12 && 0 <= w <= 6
    ensures n < x <= n + 365 && MonthOf(x) == m && Weekday(x) == w
  {
    DateOfDay(n);
    var d := DateOf(n);
    if d.month == m && d.day <= 21 {
      x := WeekInMonth(d.year, m, d.day + 1, w);
    } else {
      // the first of the month comes round within 346 days
      var y := if d.month < m then d.year else d.year + 1;
      if d.month < m { LaterThisYear(d, m); } else { EarlyNextYear(d, m); }
      x := WeekInMonth(y, m, 1, w);
    }
  }

  /** A satisfiable expression matches within 366 days of any instant. */
  lemma MatchWithinYear(e: CronExpr, t: int) returns (k: int)
    requires Satisfiable(e)
    ensures 1 <= k <= SEARCH_MINUTES && Matches(e, Later(t, k))
  {
    var minute :| 0 <= minute <= 59 && minute in e.minute;
    var hour :| 0 <= hour <= 23 && hour in e.hour;
    var month :| 1 <= month <= 12 && month in e.month;
    var dow :| 0 <= dow <= 6 && dow in e.dow;
    var q := t / MINUTE;
    var x := DayWithinYear(q / DAY_MINUTES, month, dow);
    var q' := x * DAY_MINUTES + hour * 60 + minute;
    MinuteOfDay(x, hour, minute);
    k := q' - q;
    assert (t + k * MINUTE) / MINUTE == q' by { assert t == q * MINUTE + t % MINUTE; }
  }

  lemma MinuteOfDay(x: int, hour: int, minute: int)
    requires 0 <= hour <= 23 && 0 <= minute <= 59
    ensures var q := x * DAY_MINUTES + hour * 60 + minute;
      q % 60 == minute && q / 60 % 24 == hour && q / DAY_MINUTES == x
  {
    var q := x * DAY_MINUTES + hour * 60 + minute;
    assert q / 60 == x * 24 + hour;
  }
}
