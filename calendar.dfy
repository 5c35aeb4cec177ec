/**
  * Calendar days as integers: day 0 is 1970-01-01, day n + 1 is the day after day n.
  * This is the part of the JavaScript `Date` object that the dashboard relies on
  * (proleptic Gregorian calendar, whole days only, one time zone): the getters
  * getFullYear, getMonth, getDate and getDay, the normalising constructor
  * `new Date(y, m, d)` / `Date.UTC(y, m, d)`, and `setDate`.
  */
module Calendar {

  /** A calendar date; `month` is 1-based (January is 1). */
  datatype Civil = Civil(year: int, month: int, day: int)

  predicate IsLeap(y: int) {
    y % 4 == 0 && (y % 100 != 0 || y % 400 == 0)
  }

  function DaysInYear(y: int): int {
    if IsLeap(y) then 366 else 365
  }

  function DaysInMonth(y: int, m: int): int
    requires 1 <= m <= 12
  {
    if m == 2 then (if IsLeap(y) then 29 else 28)
    else if m == 4 || m == 6 || m == 9 || m == 11 then 30
    else 31
  }

  /** Days of year y that lie before the first of month m; m = 13 gives the whole year. */
  function DaysBeforeMonth(y: int, m: int): int
    requires 1 <= m <= 13
  {
    var common :=
      if m == 1 then 0 else if m == 2 then 31 else if m == 3 then 59
      else if m == 4 then 90 else if m == 5 then 120 else if m == 6 then 151
      else if m == 7 then 181 else if m == 8 then 212 else if m == 9 then 243
      else if m == 10 then 273 else if m == 11 then 304 else if m == 12 then 334
      else 365;
    common + (if m > 2 && IsLeap(y) then 1 else 0)
  }

  predicate ValidCivil(c: Civil) {
    1 <= c.month <= 12 && 1 <= c.day <= DaysInMonth(c.year, c.month)
  }

  lemma MonthTable(y: int, m: int)
    requires 1 <= m <= 12
    ensures DaysBeforeMonth(y, m + 1) == DaysBeforeMonth(y, m) + DaysInMonth(y, m)
    ensures DaysBeforeMonth(y, 13) == DaysInYear(y)
  {}

  lemma DaysBeforeMonthMonotone(y: int, a: int, b: int)
    requires 1 <= a < b <= 13
    ensures DaysBeforeMonth(y, a + 1) <= DaysBeforeMonth(y, b)
  {}

  /** Leap years in [0, y) for y >= 0; minus the leap years in [y, 0) for y < 0. */
  function LeapsBefore(y: int): int {
    (y + 3) / 4 - (y + 99) / 100 + (y + 399) / 400
  }

  /** The day number of 1 January of year y. */
  function YearStart(y: int): int {
    365 * (y - 1970) + LeapsBefore(y) - LeapsBefore(1970)
  }

  lemma YearStep(y: int)
    ensures YearStart(y + 1) == YearStart(y) + DaysInYear(y)
  {
    LeapCountStep(y);
  }

  /** One year further, each of the three counts in LeapsBefore grows by one exactly at its multiples. */
  lemma LeapCountStep(y: int)
    ensures LeapsBefore(y + 1) == LeapsBefore(y) + (if IsLeap(y) then 1 else 0)
  {
    QuarterStep(y);
    CenturyStep(y);
    FourCenturyStep(y);
    LeapRulesNest(y);
  }

  lemma QuarterStep(y: int)
    ensures (y + 4) / 4 == (y + 3) / 4 + (if y % 4 == 0 then 1 else 0)
  {
    var q, r := (y + 3) / 4, (y + 3) % 4;
    assert y + 3 == 4 * q + r && 0 <= r < 4;
    if r == 3 {
      assert y + 4 == 4 * (q + 1) && y == 4 * q;
    } else {
      assert y + 4 == 4 * q + (r + 1) && y == 4 * (q - 1) + (r + 1);
    }
  }

  lemma CenturyStep(y: int)
    ensures (y + 100) / 100 == (y + 99) / 100 + (if y % 100 == 0 then 1 else 0)
  {
    var q, r := (y + 99) / 100, (y + 99) % 100;
    assert y + 99 == 100 * q + r && 0 <= r < 100;
    if r == 99 {
      assert y + 100 == 100 * (q + 1) && y == 100 * q;
    } else {
      assert y + 100 == 100 * q + (r + 1) && y == 100 * (q - 1) + (r + 1);
    }
  }

  lemma FourCenturyStep(y: int)
    ensures (y + 400) / 400 == (y + 399) / 400 + (if y % 400 == 0 then 1 else 0)
  {
    var q, r := (y + 399) / 400, (y + 399) % 400;
    assert y + 399 == 400 * q + r && 0 <= r < 400;
    if r == 399 {
      assert y + 400 == 400 * (q + 1) && y == 400 * q;
    } else {
      assert y + 400 == 400 * q + (r + 1) && y == 400 * (q - 1) + (r + 1);
    }
  }

  /** A multiple of 400 is a multiple of 100, and a multiple of 100 one of 4. */
  lemma LeapRulesNest(y: int)
    ensures y % 400 == 0 ==> y % 100 == 0
    ensures y % 100 == 0 ==> y % 4 == 0
  {
    if y % 400 == 0 {
      FourCenturiesAreCenturies(y);
    }
    if y % 100 == 0 {
      CenturiesAreQuarters(y);
    }
  }

  lemma FourCenturiesAreCenturies(y: int)
    requires y % 400 == 0
    ensures y % 100 == 0
  {
    var q := y / 400;
    assert y == 400 * q;
    assert y == 100 * (4 * q) + 0;
  }

  lemma CenturiesAreQuarters(y: int)
    requires y % 100 == 0
    ensures y % 4 == 0
  {
    var q := y / 100;
    assert y == 100 * q;
    assert y == 4 * (25 * q) + 0;
  }

  /** Years start in strictly increasing order, at least a year apart. */
  lemma {:induction false} YearStartMonotone(a: int, b: int)
    requires a < b
    ensures YearStart(a) + 365 <= YearStart(a + 1) <= YearStart(b)
    decreases b - a
  {
    YearStep(a);
    if a + 1 < b {
      YearStartMonotone(a + 1, b);
    }
  }

  /** Year y contains day n. */
  predicate InYear(n: int, y: int) {
    YearStart(y) <= n < YearStart(y + 1)
  }

  lemma YearUnique(n: int, y: int, z: int)
    requires InYear(n, y) && InYear(n, z)
    ensures y == z
  {
    if y < z {
      YearStartMonotone(y, z);
    } else if z < y {
      YearStartMonotone(z, y);
    }
  }

  /** The day number of date d of month m of year y; d may lie outside the month. */
  function DayNumber(y: int, m: int, d: int): int
    requires 1 <= m <= 12
  {
    YearStart(y) + DaysBeforeMonth(y, m) + d - 1
  }

  /** The first of the month after month m of year y is DaysInMonth(y, m) days later. */
  lemma NextMonthStart(y: int, m: int)
    requires 1 <= m <= 12
    ensures m < 12 ==> DayNumber(y, m + 1, 1) == DayNumber(y, m, 1) + DaysInMonth(y, m)
    ensures m == 12 ==> DayNumber(y + 1, 1, 1) == DayNumber(y, m, 1) + DaysInMonth(y, m)
  {
    MonthTable(y, m);
    MonthTable(y, 12);
    YearStep(y);
  }

  /** The calendar date of day n, searching forward month by month from month m of year y. */
  function CivilFrom(n: int, y: int, m: int): (c: Civil)
    requires 1 <= m <= 12 && DayNumber(y, m, 1) <= n
    ensures 1 <= c.month <= 12 && 1 <= c.day <= 31
    decreases n - DayNumber(y, m, 1)
  {
    NextMonthStart(y, m);
    if n < DayNumber(y, m, 1) + DaysInMonth(y, m) then Civil(y, m, n - DayNumber(y, m, 1) + 1)
    else if m == 12 then CivilFrom(n, y + 1, 1)
    else CivilFrom(n, y, m + 1)
  }

  lemma {:induction false} CivilFromCorrect(n: int, y: int, m: int)
    requires 1 <= m <= 12 && DayNumber(y, m, 1) <= n
    ensures var c := CivilFrom(n, y, m); ValidCivil(c) && DayNumber(c.year, c.month, c.day) == n
    decreases n - DayNumber(y, m, 1)
  {
    NextMonthStart(y, m);
    if n < DayNumber(y, m, 1) + DaysInMonth(y, m) {
    } else if m == 12 {
      CivilFromCorrect(n, y + 1, 1);
    } else {
      CivilFromCorrect(n, y, m + 1);
    }
  }

  /** The calendar date of day n, searching backward month by month from month m of year y. */
  function CivilBefore(n: int, y: int, m: int): (c: Civil)
    requires 1 <= m <= 12 && n < DayNumber(y, m, 1) + DaysInMonth(y, m)
    ensures 1 <= c.month <= 12 && 1 <= c.day <= 31
    decreases DayNumber(y, m, 1) + DaysInMonth(y, m) - n
  {
    if DayNumber(y, m, 1) <= n then Civil(y, m, n - DayNumber(y, m, 1) + 1)
    else if m == 1 then
      NextMonthStart(y - 1, 12);
      CivilBefore(n, y - 1, 12)
    else
      NextMonthStart(y, m - 1);
      CivilBefore(n, y, m - 1)
  }

  lemma {:induction false} CivilBeforeCorrect(n: int, y: int, m: int)
    requires 1 <= m <= 12 && n < DayNumber(y, m, 1) + DaysInMonth(y, m)
    ensures var c := CivilBefore(n, y, m); ValidCivil(c) && DayNumber(c.year, c.month, c.day) == n
    decreases DayNumber(y, m, 1) + DaysInMonth(y, m) - n
  {
    if DayNumber(y, m, 1) <= n {
    } else if m == 1 {
      NextMonthStart(y - 1, 12);
      CivilBeforeCorrect(n, y - 1, 12);
    } else {
      NextMonthStart(y, m - 1);
      CivilBeforeCorrect(n, y, m - 1);
    }
  }

  /** The calendar date of day n (the getters of `Date` read it off this). */
  function ToCivil(n: int): (c: Civil)
    ensures 1 <= c.month <= 12 && 1 <= c.day <= 31
  {
    if n >= 0 then CivilFrom(n, 1970, 1) else CivilBefore(n, 1969, 12)
  }

  /** ToCivil names a valid date, and that date is day n. */
  lemma ToCivilCorrect(n: int)
    ensures ValidCivil(ToCivil(n))
    ensures DayNumber(ToCivil(n).year, ToCivil(n).month, ToCivil(n).day) == n
  {
    if n >= 0 {
      CivilFromCorrect(n, 1970, 1);
    } else {
      CivilBeforeCorrect(n, 1969, 12);
    }
  }

  /** A valid calendar date lies within its own year. */
  lemma CivilInYear(c: Civil)
    requires ValidCivil(c)
    ensures InYear(DayNumber(c.year, c.month, c.day), c.year)
  {
    MonthTable(c.year, c.month);
    MonthTable(c.year, 12);
    YearStep(c.year);
    if c.month < 12 {
      DaysBeforeMonthMonotone(c.year, c.month, 13);
    }
  }

  /** Different valid calendar dates are different days. */
  lemma DayNumberInjective(a: Civil, b: Civil)
    requires ValidCivil(a) && ValidCivil(b)
    requires DayNumber(a.year, a.month, a.day) == DayNumber(b.year, b.month, b.day)
    ensures a == b
  {
    var n := DayNumber(a.year, a.month, a.day);
    CivilInYear(a);
    CivilInYear(b);
    YearUnique(n, a.year, b.year);
    var y := a.year;
    MonthTable(y, a.month);
    MonthTable(y, b.month);
    if a.month < b.month {
      DaysBeforeMonthMonotone(y, a.month, b.month);
    } else if b.month < a.month {
      DaysBeforeMonthMonotone(y, b.month, a.month);
    }
  }

  /** Every valid calendar date names a different day: ToCivil inverts DayNumber. */
  lemma CivilRoundTrip(c: Civil)
    requires ValidCivil(c)
    ensures ToCivil(DayNumber(c.year, c.month, c.day)) == c
  {
    var n := DayNumber(c.year, c.month, c.day);
    ToCivilCorrect(n);
    DayNumberInjective(ToCivil(n), c);
  }

  /** getFullYear */
  function FullYear(n: int): int {
    ToCivil(n).year
  }

  /** getMonth: 0 for January up to 11 for December. */
  function MonthIndex(n: int): (m: int)
    ensures 0 <= m < 12
  {
    ToCivil(n).month - 1
  }

  /** getDate: the 1-based day of the month. */
  function DateOfMonth(n: int): (d: int)
    ensures 1 <= d <= 31
  {
    ToCivil(n).day
  }

  /** getDay: 0 for Sunday, 1 for Monday, ..., 6 for Saturday (1970-01-01 was a Thursday). */
  function WeekDay(n: int): (w: int)
    ensures 0 <= w < 7
  {
    (n + 4) % 7
  }

  /**
    * MakeDay of ECMAScript: the day of date d of month m (0-based) of year y, where
    * m and d may be out of range and carry over into neighbouring months and years.
    */
  function MakeDay(y: int, m: int, d: int): int {
    DayNumber(y + m / 12, m % 12 + 1, d)
  }

  /** `new Date(y, m, d)` and `Date.UTC(y, m, d)` read a year from 0 to 99 as 1900 to 1999. */
  function MakeFullYear(y: int): int {
    if 0 <= y <= 99 then 1900 + y else y
  }

  /** `new Date(y, m, d)` / `Date.UTC(y, m, d)`, at midnight. */
  function NewDate(y: int, m: int, d: int): int {
    MakeDay(MakeFullYear(y), m, d)
  }

  /**
    * `date.setDate(x)`: date x of the month of day n, carried into the neighbouring
    * months when x is out of range; whole days, so x - getDate() days away from day n.
    */
  function SetDate(n: int, x: int): int {
    n + (x - DateOfMonth(n))
  }

  /** setDate as ECMAScript defines it: MakeDay of the date's own year and month, and day x. */
  lemma SetDateIsMakeDay(n: int, x: int)
    ensures SetDate(n, x) == MakeDay(FullYear(n), MonthIndex(n), x)
  {
    ToCivilCorrect(n);
    var c := ToCivil(n);
    assert MonthIndex(n) / 12 == 0 && MonthIndex(n) % 12 == c.month - 1;
  }

  /** `d.setDate(d.getDate() + k)`: the day k days after day n (AddDaysIsSetDate). */
  function AddDays(n: int, k: int): int {
    n + k
  }

  /**
    * Stepping k days is `setDate(getDate() + k)`: MakeDay of the same year and month
    * with the date moved by k, carried over month and year ends.
    */
  lemma AddDaysIsSetDate(n: int, k: int)
    ensures AddDays(n, k) == SetDate(n, DateOfMonth(n) + k)
    ensures AddDays(n, k) == MakeDay(FullYear(n), MonthIndex(n), DateOfMonth(n) + k)
  {
    SetDateIsMakeDay(n, DateOfMonth(n) + k);
  }

  /** An in-range MakeDay names exactly the given calendar date. */
  lemma MakeDayInRange(y: int, m: int, d: int)
    requires 0 <= m < 12 && 1 <= d <= DaysInMonth(y, m + 1)
    ensures ToCivil(MakeDay(y, m, d)) == Civil(y, m + 1, d)
    ensures FullYear(MakeDay(y, m, d)) == y && MonthIndex(MakeDay(y, m, d)) == m
    ensures DateOfMonth(MakeDay(y, m, d)) == d
  {
    assert m / 12 == 0 && m % 12 == m;
    CivilRoundTrip(Civil(y, m + 1, d));
  }

  /**
    * Day 0 of the month after month m is the last day of month m, out-of-range months
    * carried into the year as MakeDay does: the month runs over DaysInMonth consecutive days.
    */
  lemma MonthEnd(y: int, m: int)
    ensures MakeDay(y, m + 1, 0) == MakeDay(y, m, 1) + DaysInMonth(y + m / 12, m % 12 + 1) - 1
  {
    var yy, mm := y + m / 12, m % 12 + 1;
    MonthTable(yy, mm);
    if mm == 12 {
      assert (m + 1) / 12 == m / 12 + 1 && (m + 1) % 12 == 0;
      YearStep(yy);
    } else {
      assert (m + 1) / 12 == m / 12 && (m + 1) % 12 == m % 12 + 1;
    }
  }

  /** The first of month m (normalised) is a first of the month. */
  lemma MonthStart(y: int, m: int)
    ensures DateOfMonth(MakeDay(y, m, 1)) == 1
    ensures MonthIndex(MakeDay(y, m, 1)) == m % 12 && FullYear(MakeDay(y, m, 1)) == y + m / 12
  {
    var yy, mm := y + m / 12, m % 12;
    assert MakeDay(y, m, 1) == MakeDay(yy, mm, 1) by {
      assert mm / 12 == 0 && mm % 12 == mm;
    }
    MakeDayInRange(yy, mm, 1);
  }

  /** Day 0 of the month after month m is the last day of month m (normalised). */
  lemma MonthLastDay(y: int, m: int)
    ensures MonthIndex(MakeDay(y, m + 1, 0)) == m % 12
    ensures DateOfMonth(MakeDay(y, m + 1, 0)) == DaysInMonth(y + m / 12, m % 12 + 1)
  {
    var yy, mm := y + m / 12, m % 12 + 1;
    var d := DaysInMonth(yy, mm);
    MonthEnd(y, m);
    assert MakeDay(y, m + 1, 0) == DayNumber(yy, mm, d);
    CivilRoundTrip(Civil(yy, mm, d));
  }

  /** The day after the last day of a month is a first of the month. */
  lemma FirstAfterMonth(y: int, m: int)
    ensures DateOfMonth(MakeDay(y, m + 1, 0) + 1) == 1
  {
    assert MakeDay(y, m + 1, 0) + 1 == MakeDay(y, m + 1, 1);
    MonthStart(y, m + 1);
  }

  /**
    * The month that `new Date(y, m, 1)` and `new Date(y, m + 1, 0)` bound: from its first
    * day to its last day, DaysInMonth days in all, the day after the last being a first.
    */
  lemma MonthSpan(y: int, m: int)
    ensures var first, last := MakeDay(y, m, 1), MakeDay(y, m + 1, 0);
      && DateOfMonth(first) == 1 && MonthIndex(first) == m % 12 && FullYear(first) == y + m / 12
      && last == first + DaysInMonth(y + m / 12, m % 12 + 1) - 1
      && MonthIndex(last) == m % 12 && DateOfMonth(last) == DaysInMonth(y + m / 12, m % 12 + 1)
      && DateOfMonth(last + 1) == 1
  {
    MonthStart(y, m);
    MonthEnd(y, m);
    MonthLastDay(y, m);
    FirstAfterMonth(y, m);
  }

  /** From `new Date(y, 0, 1)` to `new Date(y, 11, 31)` there are DaysInYear days. */
  lemma YearLength(y: int)
    ensures MakeDay(y, 11, 31) - MakeDay(y, 0, 1) + 1 == DaysInYear(y)
  {
    MonthTable(y, 12);
  }

  /** `new Date(y, 0, 1)` and `new Date(y, 11, 31)` are the first and the last day of year y. */
  lemma YearSpan(y: int)
    ensures MakeDay(y, 0, 1) == YearStart(y) && MakeDay(y, 11, 31) == YearStart(y + 1) - 1
    ensures ToCivil(YearStart(y)) == Civil(y, 1, 1)
    ensures ToCivil(YearStart(y + 1) - 1) == Civil(y, 12, 31)
  {
    YearStep(y);
    MonthTable(y, 12);
    assert DayNumber(y, 1, 1) == YearStart(y) && DayNumber(y, 12, 31) == YearStart(y + 1) - 1;
    CivilRoundTrip(Civil(y, 1, 1));
    CivilRoundTrip(Civil(y, 12, 31));
  }
}
