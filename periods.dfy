/**
  * The period resolver of the dashboard (getPeriodDates in src/app/page.tsx): the
  * ascending run of days a statistics period covers, never going past today.
  */
module Periods {
  import opened Wrappers
  import opened Calendar
  import opened WeekDates

  datatype Period = Week | Month | Year | All | Custom

  /**
    * The arguments of getPeriodDates. selectedMonth is 0-based; the custom bounds are
    * the days the custom date fields name; firstLogDate is the earliest logged day.
    */
  datatype PeriodQuery = PeriodQuery(
    period: Period,
    selectedMonth: int,
    selectedYear: int,
    customStart: Option<int>,
    customEnd: Option<int>,
    firstLogDate: Option<int>)

  /** The `switch (period)` of getPeriodDates: first and last day before clipping at today. */
  function PeriodBounds(q: PeriodQuery, today: int): (bounds: (int, int))
  {
    match q.period
    case Week =>
      var start := GetWeekStart(today);
      (start, AddDays(start, 6))
    case Month =>
      (NewDate(q.selectedYear, q.selectedMonth, 1), NewDate(q.selectedYear, q.selectedMonth + 1, 0))
    case Year =>
      (NewDate(q.selectedYear, 0, 1), NewDate(q.selectedYear, 11, 31))
    case Custom =>
      (q.customStart.GetOr(today), q.customEnd.GetOr(today))
    case All =>
      (q.firstLogDate.GetOr(today), today)
  }

  /** The days from start to end inclusive, ascending; empty when start is after end. */
  function DayRange(start: int, end: int): seq<int> {
    if start <= end then seq(end - start + 1, i => start + i) else []
  }

  /** The days getPeriodDates returns: from the start to the end clipped at today. */
  function PeriodDays(q: PeriodQuery, today: int): seq<int> {
    var (start, end) := PeriodBounds(q, today);
    DayRange(start, if end > today then today else end)
  }

  lemma DayRangeSnoc(start: int, end: int)
    requires start <= end
    ensures DayRange(start, end) == DayRange(start, end - 1) + [end]
  {}

  /** getPeriodDates: clip the end at today, then step one `setDate(getDate() + 1)` at a time. */
  method GetPeriodDates(q: PeriodQuery, today: int) returns (dates: seq<int>)
    ensures dates == PeriodDays(q, today)
  {
    var (start, end) := PeriodBounds(q, today);
    if end > today {
      end := today;
    }
    dates := [];
    var current := start;
    while current <= end
      invariant current == start || start < current <= end + 1
      invariant dates == DayRange(start, current - 1)
      decreases end - current
    {
      DayRangeSnoc(start, current);
      dates := dates + [current];
      current := AddDays(current, 1);
    }
  }

  /**
    * The period's days are consecutive and ascending from the period's start, none is
    * after today, and there are none exactly when the start is after the clipped end.
    */
  lemma PeriodDaysShape(q: PeriodQuery, today: int)
    ensures var days, start := PeriodDays(q, today), PeriodBounds(q, today).0;
      var end := if PeriodBounds(q, today).1 > today then today else PeriodBounds(q, today).1;
      && (days == [] <==> start > end)
      && |days| == (if start <= end then end - start + 1 else 0)
      && (forall i :: 0 <= i < |days| ==> days[i] == start + i && days[i] <= today)
  {}

  /** With no log yet, the all-time period is today alone. */
  lemma AllWithoutLogsIsToday(q: PeriodQuery, today: int)
    requires q.period == All && q.firstLogDate == None
    ensures PeriodDays(q, today) == [today]
  {}

  /** The week period runs from this week's Monday through today. */
  lemma WeekPeriodIsMondayToToday(q: PeriodQuery, today: int)
    requires q.period == Week
    ensures PeriodDays(q, today) == DayRange(GetWeekStart(today), today)
    ensures WeekDay(GetWeekStart(today)) == 1 && 1 <= |PeriodDays(q, today)| <= 7
  {}

  /** The month period is bounded by `new Date(y, m, 1)` and `new Date(y, m + 1, 0)`. */
  lemma MonthPeriodMakeDays(q: PeriodQuery, today: int)
    requires q.period == Month
    ensures var y, m := MakeFullYear(q.selectedYear), q.selectedMonth;
      PeriodBounds(q, today) == (MakeDay(y, m, 1), MakeDay(y, m + 1, 0))
  {}

  /**
    * The month period runs from the first day of the selected month (carried into the
    * year when the month index is out of range) over DaysInMonth days, or up to today;
    * MonthSpan says these are the first and the last day of that month.
    */
  lemma MonthPeriodBounds(q: PeriodQuery, today: int)
    requires q.period == Month
    ensures var y, m := MakeFullYear(q.selectedYear), q.selectedMonth;
      var first := MakeDay(y, m, 1);
      var last := first + DaysInMonth(y + m / 12, m % 12 + 1) - 1;
      && PeriodBounds(q, today) == (first, last)
      && PeriodDays(q, today) == DayRange(first, if last > today then today else last)
  {
    MonthPeriodMakeDays(q, today);
    MonthEnd(MakeFullYear(q.selectedYear), q.selectedMonth);
  }

  /** The year period is bounded by `new Date(y, 0, 1)` and `new Date(y, 11, 31)`. */
  lemma YearPeriodMakeDays(q: PeriodQuery, today: int)
    requires q.period == Year
    ensures var y := MakeFullYear(q.selectedYear);
      PeriodBounds(q, today) == (MakeDay(y, 0, 1), MakeDay(y, 11, 31))
  {}

  /**
    * The year period runs from 1 January to 31 December of the year, or up to today;
    * it spans DaysInYear days.
    */
  lemma YearPeriodBounds(q: PeriodQuery, today: int)
    requires q.period == Year
    ensures var y := MakeFullYear(q.selectedYear);
      var (first, last) := PeriodBounds(q, today);
      && ToCivil(first) == Civil(y, 1, 1) && ToCivil(last) == Civil(y, 12, 31)
      && last - first + 1 == DaysInYear(y)
      && PeriodDays(q, today) == DayRange(first, if last > today then today else last)
  {
    var y := MakeFullYear(q.selectedYear);
    YearPeriodMakeDays(q, today);
    MakeDayInRange(y, 0, 1);
    MakeDayInRange(y, 11, 31);
    YearLength(y);
  }
}
