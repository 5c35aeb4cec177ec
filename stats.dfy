/**
  * The statistics of the dashboard (src/app/page.tsx): getHabitStats and
  * getTotalStats over a period, and the quick figures for today and for the
  * displayed week (getTodayCompletionRate, getTodayCount, getWeekCompletionRate,
  * getWeekCount). A joker day counts neither as done nor as due.
  */
module Stats {
  import opened Calendar
  import opened DateText
  import opened WeekDates
  import opened Periods
  import opened WeekBuckets
  import opened Logs

  /** The cells of one habit, day by day. */
  type Cells = int -> LogData

  function CellsOf(logs: LogsMap, habitId: string): Cells {
    d => CellAt(logs, habitId, d)
  }

  /** Days (or weeks) done, out of days (or weeks) due. */
  datatype Tally = Tally(completed: int, total: int) {
    function Plus(other: Tally): Tally {
      Tally(completed + other.completed, total + other.total)
    }
  }

  datatype Stats = Stats(completed: int, total: int, percentage: int)

  /** `habit.frequency === 'daily'`; every other frequency is counted week by week. */
  predicate IsDaily(h: Habit) {
    h.frequency == "daily"
  }

  /**
    * `Math.round((completed / total) * 100)`, or 0 when nothing is due: the share in
    * percent, rounded to the nearest integer, halves upwards.
    */
  function Percentage(completed: int, total: int): int {
    if total > 0 then (200 * completed + total) / (2 * total) else 0
  }

  lemma MulMonotone(d: int, p: int, q: int)
    requires d > 0 && p <= q
    ensures d * p <= d * q
  {
    assert d * q - d * p == d * (q - p);
  }

  /** The percentage is 100 * completed / total rounded half up, and 0 when nothing is due. */
  lemma PercentageRounds(completed: int, total: int)
    ensures var p := Percentage(completed, total);
      && (total <= 0 ==> p == 0)
      && (total > 0 ==> 2 * total * p <= 200 * completed + total < 2 * total * (p + 1))
  {
    if total > 0 {
      var n, d := 200 * completed + total, 2 * total;
      var p, r := n / d, n % d;
      assert n == d * p + r && 0 <= r < d;
      assert 2 * total * p == d * p;
      assert 2 * total * (p + 1) == d * p + d;
    }
  }

  /** A share of done out of due lies between 0 and 100 percent. */
  lemma PercentageRange(completed: int, total: int)
    requires 0 <= completed <= total
    ensures 0 <= Percentage(completed, total) <= 100
  {
    if total > 0 {
      var p, d := Percentage(completed, total), 2 * total;
      PercentageRounds(completed, total);
      assert d * p <= 200 * completed + total < d * (p + 1);
      if p < 0 {
        MulMonotone(d, p + 1, 0);
      }
      if p > 100 {
        MulMonotone(d, 101, p);
      }
    }
  }

  function StatsOf(t: Tally): Stats {
    Stats(t.completed, t.total, Percentage(t.completed, t.total))
  }

  /** What one day adds for a daily habit: nothing when it is after today or a joker day. */
  function DayUnit(day: int, cells: Cells, today: int): Tally {
    if day > today || cells(day).isJoker then Tally(0, 0)
    else Tally(if cells(day).completed then 1 else 0, 1)
  }

  /** The daily count: one due day per past day that is not a joker. */
  function DailyTally(days: seq<int>, cells: Cells, today: int): Tally {
    if days == [] then Tally(0, 0)
    else DailyTally(days[..|days| - 1], cells, today).Plus(DayUnit(days[|days| - 1], cells, today))
  }

  predicate AnyPast(week: seq<int>, today: int) {
    exists i :: 0 <= i < |week| && week[i] <= today
  }

  predicate AnyJoker(week: seq<int>, cells: Cells) {
    exists i :: 0 <= i < |week| && cells(week[i]).isJoker
  }

  predicate AnyCompleted(week: seq<int>, cells: Cells) {
    exists i :: 0 <= i < |week| && cells(week[i]).completed
  }

  /** A week of a weekly habit: left out when it holds a joker, done when any day of it is. */
  function WeekUnit(week: seq<int>, cells: Cells): Tally {
    if AnyJoker(week, cells) then Tally(0, 0)
    else Tally(if AnyCompleted(week, cells) then 1 else 0, 1)
  }

  /** The weekly count: weeks wholly after today are not due. */
  function WeeklyTally(weeks: seq<seq<int>>, cells: Cells, today: int): Tally {
    if weeks == [] then Tally(0, 0)
    else
      var last := weeks[|weeks| - 1];
      WeeklyTally(weeks[..|weeks| - 1], cells, today).Plus(
        if AnyPast(last, today) then WeekUnit(last, cells) else Tally(0, 0))
  }

  /** The count of one habit over the days of a period. */
  function HabitTally(habit: Habit, logs: LogsMap, dates: seq<int>, today: int): Tally {
    var cells := CellsOf(logs, habit.id);
    if IsDaily(habit) then DailyTally(dates, cells, today)
    else WeeklyTally(WeeksOf(dates), cells, today)
  }


  /** A daily habit is done on at most as many days as are due, and at most one per listed day. */
  lemma {:induction false} DailyBounds(days: seq<int>, cells: Cells, today: int)
    ensures var t := DailyTally(days, cells, today); 0 <= t.completed <= t.total <= |days|
  {
    if days != [] {
      DailyBounds(days[..|days| - 1], cells, today);
    }
  }

  /** A weekly habit is done in at most as many weeks as are due, and at most one per listed week. */
  lemma {:induction false} WeeklyBounds(weeks: seq<seq<int>>, cells: Cells, today: int)
    ensures var t := WeeklyTally(weeks, cells, today); 0 <= t.completed <= t.total <= |weeks|
  {
    if weeks != [] {
      WeeklyBounds(weeks[..|weeks| - 1], cells, today);
    }
  }

  lemma HabitBounds(habit: Habit, logs: LogsMap, dates: seq<int>, today: int)
    ensures var t := HabitTally(habit, logs, dates, today); 0 <= t.completed <= t.total <= |dates|
  {
    DailyBounds(dates, CellsOf(logs, habit.id), today);
    WeeklyBounds(WeeksOf(dates), CellsOf(logs, habit.id), today);
  }

  /** The counts of the habits, in order, added up. */
  function SumOver(habits: seq<Habit>, unit: Habit -> Tally): Tally {
    if habits == [] then Tally(0, 0)
    else SumOver(habits[..|habits| - 1], unit).Plus(unit(habits[|habits| - 1]))
  }

  /** The sums of each category's own habits, added category by category: the outer forEach. */
  function SumOverCategories(categories: seq<Category>, unit: Habit -> Tally): Tally {
    if categories == [] then Tally(0, 0)
    else SumOverCategories(categories[..|categories| - 1], unit).Plus(SumOver(categories[|categories| - 1].habits, unit))
  }

  lemma SumOverCategoriesStep(categories: seq<Category>, i: int, unit: Habit -> Tally, sum: Tally, inner: Tally)
    requires 0 <= i < |categories|
    requires sum == SumOverCategories(categories[..i], unit) && inner == SumOver(categories[i].habits, unit)
    ensures sum.Plus(inner) == SumOverCategories(categories[..i + 1], unit)
  {
    var upTo := categories[..i + 1];
    assert upTo[..|upTo| - 1] == categories[..i] && upTo[|upTo| - 1] == categories[i];
  }

  /** Summing category by category is summing over all their habits at once. */
  lemma {:induction false} SumOverCategoriesFlat(categories: seq<Category>, unit: Habit -> Tally)
    ensures SumOverCategories(categories, unit) == SumOver(AllHabits(categories), unit)
  {
    if categories != [] {
      var init := categories[..|categories| - 1];
      SumOverCategoriesFlat(init, unit);
      SumOverAppend(AllHabits(init), categories[|categories| - 1].habits, unit);
    }
  }

  lemma SumOverStep(habits: seq<Habit>, j: int, unit: Habit -> Tally)
    requires 0 <= j < |habits|
    ensures SumOver(habits[..j + 1], unit) == SumOver(habits[..j], unit).Plus(unit(habits[j]))
  {
    assert habits[..j + 1][..j] == habits[..j];
  }

  lemma {:induction false} SumOverAppend(a: seq<Habit>, b: seq<Habit>, unit: Habit -> Tally)
    ensures SumOver(a + b, unit) == SumOver(a, unit).Plus(SumOver(b, unit))
  {
    if b != [] {
      var b' := b[..|b| - 1];
      assert (a + b)[..|a + b| - 1] == a + b';
      SumOverAppend(a, b', unit);
    } else {
      assert a + b == a;
    }
  }

  lemma {:induction false} SumOverBounds(habits: seq<Habit>, unit: Habit -> Tally)
    requires forall h :: 0 <= unit(h).completed <= unit(h).total
    ensures 0 <= SumOver(habits, unit).completed <= SumOver(habits, unit).total
  {
    if habits != [] {
      SumOverBounds(habits[..|habits| - 1], unit);
    }
  }

  /** Each habit's count over the days of a period. */
  function HabitUnits(logs: LogsMap, dates: seq<int>, today: int): Habit -> Tally {
    h => HabitTally(h, logs, dates, today)
  }

  lemma HabitUnitsBounds(logs: LogsMap, dates: seq<int>, today: int)
    ensures forall h :: 0 <= HabitUnits(logs, dates, today)(h).completed <= HabitUnits(logs, dates, today)(h).total
  {
    forall h {
      HabitBounds(h, logs, dates, today);
    }
  }

  /** getHabitStats for a period query. */
  function HabitStats(habit: Habit, logs: LogsMap, q: PeriodQuery, today: int): Stats {
    StatsOf(HabitTally(habit, logs, PeriodDays(q, today), today))
  }

  /** getTotalStats: the counts of all habits added up, then one percentage of the sums. */
  function TotalStats(categories: seq<Category>, logs: LogsMap, q: PeriodQuery, today: int): Stats {
    StatsOf(SumOverCategories(categories, HabitUnits(logs, PeriodDays(q, today), today)))
  }

  /**
    * The forEach over the days of a daily habit, shared by getHabitStats and the week
    * figure; `cells(date)` is the habit's log of that day, `logs[`${habit.id}_${dateStr}`]`.
    */
  method CountDays(days: seq<int>, cells: Cells, today: int) returns (completed: int, total: int)
    ensures Tally(completed, total) == DailyTally(days, cells, today)
  {
    completed, total := 0, 0;
    for i := 0 to |days|
      invariant Tally(completed, total) == DailyTally(days[..i], cells, today)
    {
      assert days[..i + 1][..i] == days[..i];
      var date := days[i];
      if date <= today {
        var logData := cells(date);
        if !logData.isJoker {
          total := total + 1;
          if logData.completed {
            completed := completed + 1;
          }
        }
      }
    }
    assert days[..|days|] == days;
  }

  /** The forEach over the weeks of a weekly habit in getHabitStats. */
  method CountWeeks(weeks: seq<seq<int>>, cells: Cells, today: int) returns (completed: int, total: int)
    ensures Tally(completed, total) == WeeklyTally(weeks, cells, today)
  {
    completed, total := 0, 0;
    for i := 0 to |weeks|
      invariant Tally(completed, total) == WeeklyTally(weeks[..i], cells, today)
    {
      assert weeks[..i + 1][..i] == weeks[..i];
      var weekDays := weeks[i];
      var hasCompletedDay := AnyPast(weekDays, today);
      if hasCompletedDay {
        var hasJoker := AnyJoker(weekDays, cells);
        if !hasJoker {
          total := total + 1;
          var completedThisWeek := AnyCompleted(weekDays, cells);
          if completedThisWeek {
            completed := completed + 1;
          }
        }
      }
    }
    assert weeks[..|weeks|] == weeks;
  }

  /** The body of getHabitStats once the dates of the period are known. */
  method CountHabit(habit: Habit, logs: LogsMap, dates: seq<int>, today: int) returns (s: Stats)
    ensures s == StatsOf(HabitTally(habit, logs, dates, today))
    ensures 0 <= s.completed <= s.total <= |dates| && 0 <= s.percentage <= 100
  {
    var completed, total;
    if habit.frequency == "daily" {
      completed, total := CountDays(dates, CellsOf(logs, habit.id), today);
    } else {
      var weeks := GetWeeksInPeriod(dates);
      completed, total := CountWeeks(weeks, CellsOf(logs, habit.id), today);
    }
    HabitBounds(habit, logs, dates, today);
    PercentageRange(completed, total);
    s := Stats(completed, total, Percentage(completed, total));
  }

  /** getHabitStats: the days of the period, counted by day or by week. */
  method GetHabitStats(habit: Habit, logs: LogsMap, q: PeriodQuery, today: int) returns (s: Stats)
    ensures s == HabitStats(habit, logs, q, today)
    ensures 0 <= s.completed <= s.total && 0 <= s.percentage <= 100
  {
    var dates := GetPeriodDates(q, today);
    s := CountHabit(habit, logs, dates, today);
  }

  /** The inner forEach of getTotalStats: getHabitStats of each habit of one category, summed. */
  method SumHabitStats(habits: seq<Habit>, logs: LogsMap, q: PeriodQuery, today: int) returns (completed: int, total: int)
    ensures Tally(completed, total) == SumOver(habits, HabitUnits(logs, PeriodDays(q, today), today))
  {
    completed, total := 0, 0;
    for j := 0 to |habits|
      invariant Tally(completed, total) == SumOver(habits[..j], HabitUnits(logs, PeriodDays(q, today), today))
    {
      var stats := GetHabitStats(habits[j], logs, q, today);
      SumOverStep(habits, j, HabitUnits(logs, PeriodDays(q, today), today));
      completed := completed + stats.completed;
      total := total + stats.total;
    }
    assert habits[..|habits|] == habits;
  }

  /** getTotalStats: the counts of every habit of every category summed, then one percentage. */
  method GetTotalStats(categories: seq<Category>, logs: LogsMap, q: PeriodQuery, today: int) returns (s: Stats)
    ensures s == TotalStats(categories, logs, q, today)
    ensures 0 <= s.completed <= s.total && 0 <= s.percentage <= 100
  {
    var totalCompleted, totalCount := 0, 0;
    for i := 0 to |categories|
      invariant Tally(totalCompleted, totalCount) == SumOverCategories(categories[..i], HabitUnits(logs, PeriodDays(q, today), today))
    {
      var cat := categories[i];
      var c, t := SumHabitStats(cat.habits, logs, q, today);
      SumOverCategoriesStep(categories, i, HabitUnits(logs, PeriodDays(q, today), today), Tally(totalCompleted, totalCount), Tally(c, t));
      totalCompleted, totalCount := totalCompleted + c, totalCount + t;
    }
    assert categories[..|categories|] == categories;
    TotalBounds(categories, logs, PeriodDays(q, today), today);
    PercentageRange(totalCompleted, totalCount);
    s := Stats(totalCompleted, totalCount, Percentage(totalCompleted, totalCount));
  }

  /** The summed counts of every category keep completed between zero and the total. */
  lemma TotalBounds(categories: seq<Category>, logs: LogsMap, dates: seq<int>, today: int)
    ensures var t := SumOverCategories(categories, HabitUnits(logs, dates, today)); 0 <= t.completed <= t.total
  {
    SumOverCategoriesFlat(categories, HabitUnits(logs, dates, today));
    HabitUnitsBounds(logs, dates, today);
    SumOverBounds(AllHabits(categories), HabitUnits(logs, dates, today));
  }

  /** Counting two runs of days one after the other adds their counts. */
  lemma {:induction false} DailyAppend(a: seq<int>, b: seq<int>, cells: Cells, today: int)
    ensures DailyTally(a + b, cells, today) == DailyTally(a, cells, today).Plus(DailyTally(b, cells, today))
  {
    if b != [] {
      var b' := b[..|b| - 1];
      assert (a + b)[..|a + b| - 1] == a + b';
      DailyAppend(a, b', cells, today);
    } else {
      assert a + b == a;
    }
  }

  /** The daily count reads the cells of the listed days only. */
  lemma {:induction false} DailyCellsAgree(days: seq<int>, c1: Cells, c2: Cells, today: int)
    requires forall i :: 0 <= i < |days| ==> c1(days[i]) == c2(days[i])
    ensures DailyTally(days, c1, today) == DailyTally(days, c2, today)
  {
    if days != [] {
      DailyCellsAgree(days[..|days| - 1], c1, c2, today);
    }
  }

  /** Counting two runs of weeks one after the other adds their counts. */
  lemma {:induction false} WeeklyAppend(a: seq<seq<int>>, b: seq<seq<int>>, cells: Cells, today: int)
    ensures WeeklyTally(a + b, cells, today) == WeeklyTally(a, cells, today).Plus(WeeklyTally(b, cells, today))
  {
    if b != [] {
      var b' := b[..|b| - 1];
      assert (a + b)[..|a + b| - 1] == a + b';
      WeeklyAppend(a, b', cells, today);
    } else {
      assert a + b == a;
    }
  }

  /** A week holding a joker is left out of the weekly count, even when it is also done. */
  lemma JokerWeekExcluded(weeks: seq<seq<int>>, week: seq<int>, cells: Cells, today: int)
    requires AnyJoker(week, cells)
    ensures WeeklyTally(weeks + [week], cells, today) == WeeklyTally(weeks, cells, today)
  {
    assert (weeks + [week])[..|weeks|] == weeks;
  }

  /** The total over two groups of categories adds the sums of the two groups. */
  lemma TotalOfTwoGroups(c1: seq<Category>, c2: seq<Category>, logs: LogsMap, q: PeriodQuery, today: int)
    ensures var t1, t2, t := TotalStats(c1, logs, q, today), TotalStats(c2, logs, q, today), TotalStats(c1 + c2, logs, q, today);
      t.completed == t1.completed + t2.completed && t.total == t1.total + t2.total
  {
    var units := HabitUnits(logs, PeriodDays(q, today), today);
    SumOverCategoriesFlat(c1, units);
    SumOverCategoriesFlat(c2, units);
    SumOverCategoriesFlat(c1 + c2, units);
    AllHabitsAppend(c1, c2);
    SumOverAppend(AllHabits(c1), AllHabits(c2), units);
  }

  lemma {:induction false} AllHabitsAppend(c1: seq<Category>, c2: seq<Category>)
    ensures AllHabits(c1 + c2) == AllHabits(c1) + AllHabits(c2)
  {
    if c2 != [] {
      var c2' := c2[..|c2| - 1];
      assert (c1 + c2)[..|c1 + c2| - 1] == c1 + c2';
      AllHabitsAppend(c1, c2');
    } else {
      assert c1 + c2 == c1;
    }
  }

  /** The `${completed}/${total}` text of the quick figures. */
  function CountText(t: Tally): string
    requires 0 <= t.completed && 0 <= t.total
  {
    NatString(t.completed) + "/" + NatString(t.total)
  }

  /** The text tells the count it was made from. */
  lemma CountTextInjective(a: Tally, b: Tally)
    requires 0 <= a.completed && 0 <= a.total && 0 <= b.completed && 0 <= b.total
    ensures CountText(a) == CountText(b) <==> a == b
  {
    if CountText(a) == CountText(b) {
      assert '/' !in NatString(a.total) && '/' !in NatString(b.total);
      SplitAtLastSeparator(NatString(a.completed), NatString(a.total), NatString(b.completed), NatString(b.total), '/');
      NatStringInjective(a.completed, b.completed);
      NatStringInjective(a.total, b.total);
    }
  }

  // ---- The figure for today ----

  /** What a habit adds to the figure of today: daily habits only, nothing on a joker. */
  function TodayUnit(habit: Habit, logs: LogsMap, today: int): Tally {
    if IsDaily(habit) then DayUnit(today, CellsOf(logs, habit.id), today) else Tally(0, 0)
  }

  function TodayUnits(logs: LogsMap, today: int): Habit -> Tally {
    h => TodayUnit(h, logs, today)
  }

  /** The count behind getTodayCompletionRate and getTodayCount. */
  function TodayTally(categories: seq<Category>, logs: LogsMap, today: int): Tally {
    SumOverCategories(categories, TodayUnits(logs, today))
  }

  lemma TodayBounds(categories: seq<Category>, logs: LogsMap, today: int)
    ensures 0 <= TodayTally(categories, logs, today).completed <= TodayTally(categories, logs, today).total
  {
    SumOverCategoriesFlat(categories, TodayUnits(logs, today));
    SumOverBounds(AllHabits(categories), TodayUnits(logs, today));
  }

  /** `habits.filter(h => h.frequency === 'daily')` */
  function DailyHabits(habits: seq<Habit>): seq<Habit> {
    if habits == [] then []
    else DailyHabits(habits[..|habits| - 1]) + (if IsDaily(habits[|habits| - 1]) then [habits[|habits| - 1]] else [])
  }

  /** The inner forEach of the figure of today, over the habits of one category. */
  method CountTodayIn(habits: seq<Habit>, logs: LogsMap, today: int) returns (completed: int, total: int)
    ensures Tally(completed, total) == SumOver(habits, TodayUnits(logs, today))
  {
    completed, total := 0, 0;
    for j := 0 to |habits|
      invariant Tally(completed, total) == SumOver(habits[..j], TodayUnits(logs, today))
    {
      var habit := habits[j];
      SumOverStep(habits, j, TodayUnits(logs, today));
      assert TodayUnits(logs, today)(habit) == TodayUnit(habit, logs, today);
      if habit.frequency == "daily" {
        var logData := CellAt(logs, habit.id, today);
        assert CellsOf(logs, habit.id)(today) == logData;
        if !logData.isJoker {
          total := total + 1;
          if logData.completed {
            completed := completed + 1;
          }
        }
      }
    }
    assert habits[..|habits|] == habits;
  }

  /** The loop shared by getTodayCompletionRate and getTodayCount. */
  method CountToday(categories: seq<Category>, logs: LogsMap, today: int) returns (completed: int, total: int)
    ensures Tally(completed, total) == TodayTally(categories, logs, today)
  {
    completed, total := 0, 0;
    for i := 0 to |categories|
      invariant Tally(completed, total) == SumOverCategories(categories[..i], TodayUnits(logs, today))
    {
      var cat := categories[i];
      var c, t := CountTodayIn(cat.habits, logs, today);
      SumOverCategoriesStep(categories, i, TodayUnits(logs, today), Tally(completed, total), Tally(c, t));
      completed, total := completed + c, total + t;
    }
    assert categories[..|categories|] == categories;
  }

  /** getTodayCompletionRate */
  method GetTodayCompletionRate(categories: seq<Category>, logs: LogsMap, today: int) returns (rate: int)
    ensures rate == Percentage(TodayTally(categories, logs, today).completed, TodayTally(categories, logs, today).total)
    ensures 0 <= rate <= 100
  {
    TodayBounds(categories, logs, today);
    var completed, total := CountToday(categories, logs, today);
    PercentageRange(completed, total);
    rate := Percentage(completed, total);
  }

  /** getTodayCount */
  method GetTodayCount(categories: seq<Category>, logs: LogsMap, today: int) returns (text: string)
    ensures var t := TodayTally(categories, logs, today);
      0 <= t.completed <= t.total && text == CountText(t)
  {
    TodayBounds(categories, logs, today);
    var completed, total := CountToday(categories, logs, today);
    text := NatString(completed) + "/" + NatString(total);
  }

  /** For a daily habit, today's figure is its count over the one-day period of today. */
  lemma TodayUnitIsStats(h: Habit, logs: LogsMap, today: int)
    requires IsDaily(h)
    ensures TodayUnit(h, logs, today) == HabitTally(h, logs, [today], today)
  {
    var cells, one := CellsOf(logs, h.id), [today];
    assert one[..|one| - 1] == [];
    assert DailyTally(one, cells, today) == DailyTally([], cells, today).Plus(DayUnit(today, cells, today));
  }

  /** The figure of today is the statistics of the daily habits over the one-day period of today. */
  lemma {:induction false} TodayIsStatsOfToday(habits: seq<Habit>, logs: LogsMap, today: int)
    ensures SumOver(habits, TodayUnits(logs, today)) == SumOver(DailyHabits(habits), HabitUnits(logs, [today], today))
  {
    if habits != [] {
      var front, h := habits[..|habits| - 1], habits[|habits| - 1];
      TodayIsStatsOfToday(front, logs, today);
      var hs := if IsDaily(h) then [h] else [];
      SumOverAppend(DailyHabits(front), hs, HabitUnits(logs, [today], today));
      if IsDaily(h) {
        TodayUnitIsStats(h, logs, today);
        assert |hs[..0]| == 0;
      }
    }
  }

  // ---- The figure for the displayed week ----

  /** What a habit adds to the week figure: by day for daily habits, one week otherwise. */
  function WeekFigureUnit(habit: Habit, logs: LogsMap, weekDays: seq<int>, today: int): Tally {
    var cells := CellsOf(logs, habit.id);
    if IsDaily(habit) then DailyTally(weekDays, cells, today) else WeekUnit(weekDays, cells)
  }

  function WeekFigureUnits(logs: LogsMap, weekDays: seq<int>, today: int): Habit -> Tally {
    h => WeekFigureUnit(h, logs, weekDays, today)
  }

  /** The count behind getWeekCompletionRate and getWeekCount. */
  function WeekFigureTally(categories: seq<Category>, logs: LogsMap, weekDays: seq<int>, today: int): Tally {
    SumOverCategories(categories, WeekFigureUnits(logs, weekDays, today))
  }

  lemma WeekFigureBounds(categories: seq<Category>, logs: LogsMap, weekDays: seq<int>, today: int)
    ensures 0 <= WeekFigureTally(categories, logs, weekDays, today).completed <= WeekFigureTally(categories, logs, weekDays, today).total
  {
    var units := WeekFigureUnits(logs, weekDays, today);
    forall h
      ensures 0 <= units(h).completed <= units(h).total
    {
      DailyBounds(weekDays, CellsOf(logs, h.id), today);
    }
    SumOverCategoriesFlat(categories, units);
    SumOverBounds(AllHabits(categories), units);
  }

  /** The inner forEach of the week figure, over the habits of one category. */
  method CountWeekIn(habits: seq<Habit>, logs: LogsMap, weekDays: seq<int>, today: int) returns (completed: int, total: int)
    ensures Tally(completed, total) == SumOver(habits, WeekFigureUnits(logs, weekDays, today))
  {
    completed, total := 0, 0;
    for j := 0 to |habits|
      invariant Tally(completed, total) == SumOver(habits[..j], WeekFigureUnits(logs, weekDays, today))
    {
      var habit := habits[j];
      SumOverStep(habits, j, WeekFigureUnits(logs, weekDays, today));
      assert WeekFigureUnits(logs, weekDays, today)(habit) == WeekFigureUnit(habit, logs, weekDays, today);
      var cells := CellsOf(logs, habit.id);
      if habit.frequency == "daily" {
        var c, t := CountDays(weekDays, cells, today);
        completed, total := completed + c, total + t;
      } else {
        var hasJoker := AnyJoker(weekDays, cells);
        if !hasJoker {
          total := total + 1;
          var completedThisWeek := AnyCompleted(weekDays, cells);
          if completedThisWeek {
            completed := completed + 1;
          }
        }
      }
    }
    assert habits[..|habits|] == habits;
  }

  /** The loop shared by getWeekCompletionRate and getWeekCount. */
  method CountWeek(categories: seq<Category>, logs: LogsMap, weekDays: seq<int>, today: int) returns (completed: int, total: int)
    ensures Tally(completed, total) == WeekFigureTally(categories, logs, weekDays, today)
  {
    completed, total := 0, 0;
    for i := 0 to |categories|
      invariant Tally(completed, total) == SumOverCategories(categories[..i], WeekFigureUnits(logs, weekDays, today))
    {
      var cat := categories[i];
      var c, t := CountWeekIn(cat.habits, logs, weekDays, today);
      SumOverCategoriesStep(categories, i, WeekFigureUnits(logs, weekDays, today), Tally(completed, total), Tally(c, t));
      completed, total := completed + c, total + t;
    }
    assert categories[..|categories|] == categories;
  }

  /** getWeekCompletionRate */
  method GetWeekCompletionRate(categories: seq<Category>, logs: LogsMap, weekDays: seq<int>, today: int) returns (rate: int)
    ensures rate == Percentage(WeekFigureTally(categories, logs, weekDays, today).completed, WeekFigureTally(categories, logs, weekDays, today).total)
    ensures 0 <= rate <= 100
  {
    WeekFigureBounds(categories, logs, weekDays, today);
    var completed, total := CountWeek(categories, logs, weekDays, today);
    PercentageRange(completed, total);
    rate := Percentage(completed, total);
  }

  /** getWeekCount */
  method GetWeekCount(categories: seq<Category>, logs: LogsMap, weekDays: seq<int>, today: int) returns (text: string)
    ensures var t := WeekFigureTally(categories, logs, weekDays, today);
      0 <= t.completed <= t.total && text == CountText(t)
  {
    WeekFigureBounds(categories, logs, weekDays, today);
    var completed, total := CountWeek(categories, logs, weekDays, today);
    text := NatString(completed) + "/" + NatString(total);
  }

  /** The seven days from a Monday form a single week bucket. */
  lemma OneWeekBucket(ws: int)
    requires WeekDay(ws) == 1
    ensures WeeksOf(WeekOf(ws)) == [WeekOf(ws)]
  {
    var w := WeekOf(ws);
    MondayUnique(GetWeekStart(ws), ws);
    forall j | 0 <= j < |w|
      ensures GetWeekStart(w[j]) == GetWeekStart(w[0])
    {
      WeekStartStable(ws, j);
      WeekStartStable(ws, 0);
      assert w[j] == GetWeekStart(ws) + j && w[0] == GetWeekStart(ws) + 0;
    }
    assert OneKey(w, GetWeekStart);
    SingleRun(w, GetWeekStart);
  }

  /** A single week is due when one of its days has come, and then counts as WeekUnit. */
  lemma WeeklySingle(week: seq<int>, cells: Cells, today: int)
    ensures WeeklyTally([week], cells, today) == if AnyPast(week, today) then WeekUnit(week, cells) else Tally(0, 0)
  {
    var one: seq<seq<int>> := [week];
    var unit := if AnyPast(week, today) then WeekUnit(week, cells) else Tally(0, 0);
    assert one[..|one| - 1] == [] && one[|one| - 1] == week;
    assert WeeklyTally(one, cells, today) == WeeklyTally([], cells, today).Plus(unit);
  }

  /** The week figure of a habit, once the Monday of the week has come, is its count over those seven days. */
  lemma WeekFigureUnitIsStats(h: Habit, logs: LogsMap, ws: int, today: int)
    requires WeekDay(ws) == 1 && ws <= today
    ensures WeekFigureUnit(h, logs, WeekOf(ws), today) == HabitTally(h, logs, WeekOf(ws), today)
  {
    if !IsDaily(h) {
      var w, cells := WeekOf(ws), CellsOf(logs, h.id);
      OneWeekBucket(ws);
      assert w[0] <= today;
      assert AnyPast(w, today);
      WeeklySingle(w, cells, today);
      assert HabitTally(h, logs, w, today) == WeeklyTally([w], cells, today);
    }
  }

  /**
    * Once its Monday has come, the week figure of a displayed week equals the
    * statistics of its seven days, habit by habit.
    */
  lemma {:induction false} WeekFigureIsStatsOfWeek(habits: seq<Habit>, logs: LogsMap, ws: int, today: int)
    requires WeekDay(ws) == 1 && ws <= today
    ensures SumOver(habits, WeekFigureUnits(logs, WeekOf(ws), today)) == SumOver(habits, HabitUnits(logs, WeekOf(ws), today))
  {
    if habits != [] {
      WeekFigureIsStatsOfWeek(habits[..|habits| - 1], logs, ws, today);
      WeekFigureUnitIsStats(habits[|habits| - 1], logs, ws, today);
    }
  }

  /**
    * In a displayed week wholly after today a weekly habit without a joker still counts
    * as one week due and not done, while the statistics of those days count nothing.
    */
  lemma FutureWeekCountsWeeklyHabit(h: Habit, logs: LogsMap, ws: int, today: int)
    requires !IsDaily(h) && WeekDay(ws) == 1 && today < ws
    requires !AnyJoker(WeekOf(ws), CellsOf(logs, h.id))
    ensures WeekFigureUnit(h, logs, WeekOf(ws), today).total == 1
    ensures HabitTally(h, logs, WeekOf(ws), today) == Tally(0, 0)
  {
    var w, cells := WeekOf(ws), CellsOf(logs, h.id);
    OneWeekBucket(ws);
    assert !AnyPast(w, today);
    WeeklySingle(w, cells, today);
    assert HabitTally(h, logs, w, today) == WeeklyTally([w], cells, today);
  }
}
