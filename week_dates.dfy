/**
  * Week helpers of the dashboard (src/app/page.tsx): getWeekStart, getWeekDays,
  * getWeekNumber and getYearOptions, over day numbers.
  */
module WeekDates {
  import opened Calendar

  /**
    * getWeekStart: back to the Monday of the week, a Sunday counting as the last day of
    * its week; the source moves the date with setDate (WeekStartIsSetDate).
    */
  function GetWeekStart(n: int): (ws: int)
    ensures WeekDay(ws) == 1 && ws <= n < ws + 7
  {
    var day := WeekDay(n);
    MondayBack(n);
    n - day + (if day == 0 then -6 else 1)
  }

  /** getWeekStart moves the date with setDate, within or across the month. */
  lemma WeekStartIsSetDate(n: int)
    ensures var day := WeekDay(n);
      GetWeekStart(n) == SetDate(n, DateOfMonth(n) - day + (if day == 0 then -6 else 1))
  {}

  /** Going back WeekDay(n) - 1 days, or 6 days from a Sunday, lands on a Monday. */
  lemma MondayBack(n: int)
    ensures var day := WeekDay(n);
      var ws := n - day + (if day == 0 then -6 else 1);
      WeekDay(ws) == 1 && ws <= n < ws + 7
  {}

  /** Two Mondays less than a week apart are the same day. */
  lemma MondayUnique(a: int, b: int)
    requires WeekDay(a) == 1 && WeekDay(b) == 1
    requires a <= b < a + 7
    ensures a == b
  {}

  /** The Monday of the 7-day window ending on day n is n - (n + 3) % 7. */
  lemma MondayOfWindow(n: int, ws: int)
    requires WeekDay(ws) == 1 && ws <= n < ws + 7
    ensures ws == n - (n + 3) % 7
  {
    var m := n - (n + 3) % 7;
    var q := (n + 3) / 7;
    assert m + 4 == 7 * q + 1;
    if ws <= m {
      MondayUnique(ws, m);
    } else {
      MondayUnique(m, ws);
    }
  }

  /** Mondays are the days congruent to 4 modulo 7 (1970-01-05 was a Monday). */
  lemma WeekStartClosedForm(n: int)
    ensures GetWeekStart(n) == n - (n + 3) % 7
  {
    MondayOfWindow(n, GetWeekStart(n));
  }

  /** Each of the seven days from a week start has that same week start. */
  lemma WeekStartStable(n: int, i: int)
    requires 0 <= i < 7
    ensures GetWeekStart(GetWeekStart(n) + i) == GetWeekStart(n)
  {
    var ws := GetWeekStart(n);
    var w2 := GetWeekStart(ws + i);
    if ws <= w2 {
      MondayUnique(ws, w2);
    } else {
      MondayUnique(w2, ws);
    }
  }

  /** Two days share a week start exactly when they lie in the same Monday-to-Sunday week. */
  lemma SameWeekIff(a: int, b: int)
    ensures GetWeekStart(a) == GetWeekStart(b) <==> (a + 3) / 7 == (b + 3) / 7
  {
    WeekStartClosedForm(a);
    WeekStartClosedForm(b);
  }

  /** The seven days of the week that starts on day ws. */
  function WeekOf(ws: int): seq<int> {
    seq(7, i => ws + i)
  }

  /** getWeekDays: the loop of seven `setDate(weekStart.getDate() + i)` calls. */
  method GetWeekDays(weekStart: int) returns (days: seq<int>)
    ensures days == WeekOf(weekStart)
    ensures |days| == 7 && forall i :: 0 <= i < 7 ==> days[i] == weekStart + i
  {
    days := [];
    for i := 0 to 7
      invariant |days| == i
      invariant forall j :: 0 <= j < i ==> days[j] == weekStart + j
    {
      var day := AddDays(weekStart, i);
      days := days + [day];
    }
  }

  /** The displayed week of a day: every day of it maps back to its week start, and it holds the day. */
  lemma WeekOfWeekStart(n: int)
    ensures n in WeekOf(GetWeekStart(n))
    ensures forall d :: d in WeekOf(GetWeekStart(n)) ==> GetWeekStart(d) == GetWeekStart(n)
  {
    var ws := GetWeekStart(n);
    assert WeekOf(ws)[n - ws] == n;
    forall d | d in WeekOf(ws)
      ensures GetWeekStart(d) == ws
    {
      WeekStartStable(n, d - ws);
    }
  }

  /**
    * getWeekNumber: `Math.ceil((date - startOfYear) / oneWeek)` with startOfYear
    * `new Date(date.getFullYear(), 0, 1)`: the ceiling of the day offset divided by 7.
    */
  function GetWeekNumber(n: int): (w: int)
    ensures 7 * (w - 1) < n - NewDate(FullYear(n), 0, 1) <= 7 * w
  {
    (n - NewDate(FullYear(n), 0, 1) + 6) / 7
  }

  /**
    * Outside years 0 to 99 (which `new Date(y, 0, 1)` reads as 1900 to 1999) the week
    * number runs from 0, on 1 January only, to at most 53.
    */
  lemma WeekNumberRange(n: int)
    requires !(0 <= FullYear(n) <= 99)
    ensures 0 <= GetWeekNumber(n) <= 53
    ensures GetWeekNumber(n) == 0 <==> MonthIndex(n) == 0 && DateOfMonth(n) == 1
  {
    var c := ToCivil(n);
    ToCivilCorrect(n);
    assert NewDate(c.year, 0, 1) == YearStart(c.year);
    YearStep(c.year);
    MonthTable(c.year, c.month);
    if c.month > 1 {
      DaysBeforeMonthMonotone(c.year, 1, c.month);
    }
  }

  /** getYearOptions: the years from startYear up to the current year, ascending. */
  method GetYearOptions(startYear: int, currentYear: int) returns (years: seq<int>)
    ensures |years| == if startYear <= currentYear then currentYear - startYear + 1 else 0
    ensures forall i :: 0 <= i < |years| ==> years[i] == startYear + i
  {
    years := [];
    var year := startYear;
    while year <= currentYear
      invariant currentYear < startYear ==> years == []
      invariant year == startYear + |years|
      invariant forall i :: 0 <= i < |years| ==> years[i] == startYear + i
      invariant startYear <= currentYear ==> year <= currentYear + 1
      decreases currentYear - year
    {
      years := years + [year];
      year := year + 1;
    }
  }
}
