# Habit tracker — a Dafny model of its core

The habit tracker is a Next.js application. Each user keeps habits grouped in
categories and ticks one cell per habit and day. A cell can also hold a joker, which
excuses the day. The number of jokers per week, month or year is limited. Users can
add friends, and a settings page suggests habits for each category.

This project models the logic of that application in Dafny:

- the calendar arithmetic the pages do with JavaScript `Date`;
- the `YYYY-MM-DD` day keys;
- the dashboard statistics;
- the cell toggling with jokers;
- the API routes for habit logs, jokers and friendships;
- the checks of the sign-up form;
- the suggestion logic of the settings page.

## Conventions

- **Days.** A day is an integer: the number of days since 1970-01-01. `Calendar` turns a
  day into a year, month and day and back. It defines JavaScript's `getDay`,
  `getDate`, `getMonth` and `getFullYear`, and it models `new Date(y, m, d)` with its
  month and day overflow.
- **Today.** "Now" is a parameter, `today`.
- **Strings.** Strings are sequences of Unicode code points. `JsText` defines
  `toLowerCase`, `includes`, `trim` and `length`, with `length` counted in UTF-16 code
  units.
- **Dashboard.** The dashboard state is a class, `Dashboard.Dashboard`. Its fields are the
  log maps and the joker counters that `toggleHabit` updates.
- **Databases.** The friendship table and the habit-log table are classes too. Their
  methods model the POST, PUT and DELETE handlers. The GET handlers are functions.
- **Loops.** The statistics loops are methods with loop invariants:
  - `forEach` over categories and habits;
  - the day-by-day loop of `getPeriodDates`;
  - the week grouping of `getWeeksInPeriod`.

  Each of these methods is proved equal to a specification function. Lemmas then prove
  what that function means: its bounds, that it adds up over parts, how jokers count,
  and that the week grouping is the unique partition into runs of the same week.

The modules are:

| Module | Contents |
|---|---|
| `Wrappers` | `Option` |
| `Seqs` | `filter` and `flatMap` |
| `Calendar` | days ↔ calendar dates, `new Date(y, m, d)`, `setDate` |
| `DateText` | `formatDateKey`, `isSameDay`, parsing of `YYYY-MM-DD` |
| `WeekDates` | `getWeekStart`, `getWeekDays`, `getWeekNumber`, `getYearOptions` |
| `Periods` | `getPeriodDates` |
| `WeekBuckets` | `getWeeksInPeriod` |
| `Logs` | habits, categories, the log map and its keys |
| `Stats` | `getHabitStats`, `getTotalStats` and the quick figures for today and the week |
| `Dashboard` | `toggleHabit`, `handleClick`, `handleContextMenu` |
| `Api` | shared request helpers and messages |
| `HabitLogRoute` | `/api/habits/log` |
| `JokersRoute` | `/api/jokers` |
| `FriendsRoute` | `/api/friends` |
| `JsText` | the string operations |
| `Register` | the sign-up form |
| `Settings` | the settings page |

## Model

| member | source | states |
|---|---|---|
| Calendar.MonthTable | src/app/page.tsx:836-841 | The days before month m+1 are the days before month m plus the length of month m. The days before month 13 make the year length. |
| Calendar.DaysBeforeMonthMonotone | src/app/page.tsx:836-841 | The count of days before a month does not decrease from one month to a later one. |
| Calendar.YearStartMonotone | src/app/page.tsx:836-841 | Every year is at least 365 days long. Year starts grow with the year. |
| Calendar.YearUnique | src/app/page.tsx:836-841 | A day falls in at most one year. The year it does fall in is given by CivilInYear, applied to its calendar date. |
| Calendar.NextMonthStart | src/app/page.tsx:836-841 | The first of the next month comes one month length after the first of this month, across the year end too. |
| Calendar.CivilFrom | src/app/page.tsx:836-841 | Searching forward from a month start gives a month in 1..12 and a day in 1..31. |
| Calendar.CivilFromCorrect | src/app/page.tsx:836-841 | The forward search finds the valid calendar date whose day number is n. |
| Calendar.CivilBefore | src/app/page.tsx:836-841 | Searching backward from a month end gives a month in 1..12 and a day in 1..31. |
| Calendar.CivilBeforeCorrect | src/app/page.tsx:836-841 | The backward search finds the valid calendar date whose day number is n. |
| Calendar.ToCivil | src/app/page.tsx:836-841 | The date of any day has a month in 1..12 and a day in 1..31. |
| Calendar.ToCivilCorrect | src/app/page.tsx:836-841 | Every day number has a valid calendar date, and that date maps back to the same day. |
| Calendar.CivilInYear | src/app/page.tsx:836-841 | The day of a valid date lies in that date's year. |
| Calendar.DayNumberInjective | src/app/page.tsx:836-841 | Two valid dates with the same day number are the same date. |
| Calendar.CivilRoundTrip | src/app/page.tsx:836-841 | Converting a valid date to its day number and back gives the same date. |
| Calendar.MonthIndex | src/app/page.tsx:838 | `getMonth` lies in 0..11. |
| Calendar.DateOfMonth | src/app/page.tsx:839 | `getDate` lies in 1..31. |
| Calendar.WeekDay | src/app/page.tsx:845 | `getDay` lies in 0..6. |
| Calendar.FullYear | src/app/page.tsx:837 | Definition: `getFullYear` is the year of the day's calendar date. |
| Calendar.MakeDay | src/app/page.tsx:1117-1124 | Definition: the ECMAScript MakeDay. A month outside 0..11 carries into the year, and a day outside the month carries into the neighbouring months. |
| Calendar.NewDate | src/app/page.tsx:1118-1123 | Definition: `new Date(y, m, d)` at midnight. It is MakeDay after mapping years 0..99 to 1900..1999. |
| Calendar.SetDate | src/app/page.tsx:846-847 | Definition: `setDate(x)` moves the date by x minus its `getDate`. SetDateIsMakeDay ties it to MakeDay of the date's own year and month. |
| Calendar.AddDays | src/app/page.tsx:1141 | Definition: stepping k days. AddDaysIsSetDate ties it to `setDate(getDate() + k)`. |
| Calendar.SetDateIsMakeDay | src/app/page.tsx:846-847 | `setDate(x)` is MakeDay of the date's own full year and month with day x. Overflow carries into the next months. |
| Calendar.AddDaysIsSetDate | src/app/page.tsx:1141 | `setDate(getDate() + k)` moves a date by exactly k days. |
| Calendar.MakeDayInRange | src/app/page.tsx:1117-1124 | MakeDay(y, m, d) with an in-range month and day is that date, and its getters give back y, m and d. This is `new Date(y, m, d)` for years from 100 on, because NewDate maps years 0..99 to 1900..1999 first. |
| Calendar.MonthEnd | src/app/page.tsx:1119 | MakeDay(y, m + 1, 0) is the last day of month m: the first of month m plus the month length, minus one. Month overflow is normalised. This is `new Date(y, m + 1, 0)` for years from 100 on. |
| Calendar.MonthStart | src/app/page.tsx:1118 | MakeDay(y, m, 1) is the first of month m mod 12 of year y + m div 12. This is `new Date(y, m, 1)` for years from 100 on. |
| Calendar.MonthLastDay | src/app/page.tsx:1119 | The day given by day 0 of the next month is in month m, and its `getDate` is the month length. |
| Calendar.FirstAfterMonth | src/app/page.tsx:1119 | The day after a month's last day is a first of a month. |
| Calendar.MonthSpan | src/app/page.tsx:1117-1120 | The month period runs from the 1st to the last day of one month. |
| Calendar.YearLength | src/app/page.tsx:1121-1124 | From January 1 through December 31 there are as many days as the year has. |
| Calendar.YearSpan | src/app/page.tsx:1121-1124 | MakeDay(y, 0, 1) is the first day of year y, and MakeDay(y, 11, 31) is its last day. These are `new Date(y, 0, 1)` and `new Date(y, 11, 31)` for years from 100 on. |
| DateText.DigitChar | src/app/page.tsx:838-839 | A digit value becomes a digit character. |
| DateText.DigitValue | src/app/page.tsx:838-839 | A digit character has a value in 0..9. |
| DateText.NatString | src/app/page.tsx:837-840 | `String(n)` is a non-empty string of digits. It has one digit exactly when n < 10. It has no leading zero. |
| DateText.NatStringValue | src/app/page.tsx:837-840 | Reading back the digits of `String(n)` gives n. |
| DateText.NatStringInjective | src/app/page.tsx:837-840 | Different numbers print differently. |
| DateText.NatStringFourDigits | src/app/page.tsx:837 | Years 1000..9999 print with four digits. |
| DateText.YearString | src/app/page.tsx:837 | A year (negative ones too) prints as a non-empty string. |
| DateText.YearStringInjective | src/app/page.tsx:837 | Different years print differently. |
| DateText.Pad2Value | src/app/page.tsx:838-839 | `padStart(2, '0')` of a number below 100 is two digits whose value is that number. |
| DateText.FormatDateKey | src/app/page.tsx:836-841 | Definition: `formatDateKey` is the year, `-`, the month padded to two digits, `-` and the day padded to two digits. DateKeyShape and DateKeyInjective state its shape and that it tells days apart. |
| DateText.IsSameDay | src/app/page.tsx:877-879 | Definition: two days are the same when their keys are equal. SameDayIff proves that this is day equality. |
| DateText.LooksLikeDateKey | src/app/api/habits/log/route.ts:49 | Definition: the test `/^\d{4}-\d{2}-\d{2}$/`, ten characters of digits with dashes at positions 4 and 7. |
| DateText.ParseDateKey | src/app/api/habits/log/route.ts:51-52 | Definition: split on `-`, read the numbers and build `Date.UTC(year, month - 1, day)`. ParseFormatRoundTrip proves it inverts formatDateKey. |
| DateText.DateKeyShape | src/app/page.tsx:836-841 | `formatDateKey` is the year, then `-`, two digits of the month, `-` and two digits of the day of that date. |
| DateText.DateKeyInjective | src/app/page.tsx:836-841 | Two days with the same key are the same day. |
| DateText.SameDayIff | src/app/page.tsx:877-879 | `isSameDay` holds exactly when the two days are equal. |
| DateText.DateKeyFields | src/app/page.tsx:836-841 | For years 1000..9999 the key has the `YYYY-MM-DD` shape. Its fields read back as the year, month and day. |
| DateText.ParseFormatRoundTrip | src/app/api/habits/log/route.ts:49-52 | Parsing a key made by `formatDateKey` with `Date.UTC(y, m - 1, d)` gives the same day back. |
| WeekDates.GetWeekStart | src/app/page.tsx:843-850 | The week start of a day is a Monday, on or before it, less than seven days earlier. |
| WeekDates.WeekStartIsSetDate | src/app/page.tsx:843-850 | That Monday is the `setDate(getDate() - day + (day === 0 ? -6 : 1))` of the source. |
| WeekDates.MondayBack | src/app/page.tsx:845-847 | The source's offset formula lands on the Monday of the day's week, Sundays included. |
| WeekDates.MondayUnique | src/app/page.tsx:843-850 | Two Mondays less than seven days apart are the same day. |
| WeekDates.MondayOfWindow | src/app/page.tsx:843-850 | The only Monday within the six days before a day has a closed form. |
| WeekDates.WeekStartClosedForm | src/app/page.tsx:843-850 | The week start is n - (n + 3) mod 7. |
| WeekDates.WeekStartStable | src/app/page.tsx:843-850 | Each of the seven days from a week start has that same week start. |
| WeekDates.SameWeekIff | src/app/page.tsx:1154-1155 | Two days have the same week start exactly when they fall in the same Monday-based week. |
| WeekDates.GetWeekDays | src/app/page.tsx:852-860 | `getWeekDays` returns seven days, the i-th being the week start plus i. |
| WeekDates.WeekOfWeekStart | src/app/page.tsx:852-860 | A day is among the days of its own week, and all of them share its week start. |
| WeekDates.GetWeekNumber | src/app/page.tsx:862-867 | `getWeekNumber` is the ceiling of the days since January 1 divided by 7. |
| WeekDates.WeekNumberRange | src/app/page.tsx:862-867 | The week number lies in 0..53. It is 0 exactly on January 1. |
| WeekDates.GetYearOptions | src/app/page.tsx:1007-1014 | The year options are the consecutive years from the start year to the current year. There are none when the start year is later. |
| Periods.PeriodBounds | src/app/page.tsx:1111-1133 | Definition: the `switch (period)`: the first and last day of the week, month, year, custom range or "all" (first log to today), before clipping. |
| Periods.PeriodDays | src/app/page.tsx:1098-1145 | Definition: the days from the start through the end clipped at today. PeriodDaysShape states their shape. |
| Periods.GetPeriodDates | src/app/page.tsx:1098-1145 | The day-by-day loop returns exactly the days of the period's range, cut at today. |
| Periods.PeriodDaysShape | src/app/page.tsx:1135-1142 | The period is the run of consecutive days from its start to min(end, today). It is empty exactly when the start is later. No day is after today. |
| Periods.AllWithoutLogsIsToday | src/app/page.tsx:1129-1132 | With no logs yet, "all" is today alone. |
| Periods.WeekPeriodIsMondayToToday | src/app/page.tsx:1112-1116 | The week period runs from this week's Monday to today: one to seven days. |
| Periods.MonthPeriodMakeDays | src/app/page.tsx:1117-1120 | The month period runs from `new Date(y, m, 1)` to `new Date(y, m + 1, 0)`. |
| Periods.MonthPeriodBounds | src/app/page.tsx:1117-1120 | The month period spans the whole selected month, cut at today. |
| Periods.YearPeriodMakeDays | src/app/page.tsx:1121-1124 | The year period runs from `new Date(y, 0, 1)` to `new Date(y, 11, 31)`. |
| Periods.YearPeriodBounds | src/app/page.tsx:1121-1124 | The year period is January 1 to December 31 of the selected year: the whole year, cut at today. |
| WeekBuckets.RunsBy | src/app/page.tsx:1148-1171 | Grouping gives no empty group and no more groups than days. It gives none exactly when there are no days. |
| WeekBuckets.WeeksOf | src/app/page.tsx:1148-1171 | Definition: the grouping of the days by their week start. WeekPartitionIff characterises it. |
| WeekBuckets.GetWeeksInPeriod | src/app/page.tsx:1148-1171 | The `forEach` that opens or extends the current week returns the grouping of the days into runs of the same week start. |
| WeekBuckets.SingleRun | src/app/page.tsx:1153-1164 | Days all of one week form one group. |
| WeekBuckets.RunsFlatten | src/app/page.tsx:1148-1171 | Concatenating the groups gives back the days in order: nothing lost, nothing added. |
| WeekBuckets.RunsOneKey | src/app/page.tsx:1148-1171 | All days of a group share one week start. |
| WeekBuckets.RunsNeighbours | src/app/page.tsx:1155 | Neighbouring groups have different week starts. |
| WeekBuckets.PartitionUnique | src/app/page.tsx:1148-1171 | Any grouping with those three properties is the one the function returns. |
| WeekBuckets.WeekPartitionIff | src/app/page.tsx:1148-1171 | A list of groups is the result exactly when it partitions the days, in order, into maximal runs of the same week. |
| Logs.DateKeyHasNoUnderscore | src/app/page.tsx:183 | The day part of a log key holds no `_`. |
| Logs.LogKey | src/app/page.tsx:183 | Definition: the key `${habitId}_${formatDateKey(date)}`. LogKeyInjective proves that it names one habit on one day. |
| Logs.CellAt | src/app/page.tsx:184 | Definition: the cell of a habit on a day. A missing key reads as neither completed nor a joker. |
| Logs.LogKeyInjective | src/app/page.tsx:183 | `${habitId}_${dateKey}` names one habit on one day: equal keys mean equal habit and day. |
| Logs.CellAtUpdate | src/app/page.tsx:184 | Writing one cell of the log map changes the reading of that habit and day only. |
| Logs.GetTotalHabits | src/app/page.tsx:943-945 | `getTotalHabits` is the number of habits over all categories. |
| Stats.PercentageRounds | src/app/page.tsx:1067 | The percentage is `Math.round(completed / total * 100)`, the nearest integer with halves rounded up. It is 0 without a total. |
| Stats.PercentageRange | src/app/page.tsx:1067 | With 0 ≤ completed ≤ total, the percentage lies in 0..100. |
| Stats.Percentage | src/app/page.tsx:1067 | Definition: `Math.round(completed / total * 100)`, or 0 without a total, in exact integer arithmetic. PercentageRounds proves it is the rounded share. |
| Stats.IsDaily | src/app/page.tsx:1033 | Definition: a habit is daily when its frequency is `daily`. Any other frequency counts by the week. |
| Stats.DayUnit | src/app/page.tsx:1035-1041 | Definition: a day counts as due when it is not after today and holds no joker, and as done when it is also completed. |
| Stats.DailyTally | src/app/page.tsx:1033-1043 | Definition: the daily count is the sum of the day units over the period's days. |
| Stats.WeekUnit | src/app/page.tsx:1051-1062 | Definition: a week counts as due when no day of it holds a joker, and as done when some day of it is completed. |
| Stats.WeeklyTally | src/app/page.tsx:1046-1064 | Definition: the weekly count is the sum of the week units over the weeks with a day up to today. |
| Stats.HabitTally | src/app/page.tsx:1027-1065 | Definition: a habit's count is the daily count for a daily habit, and the weekly count of the period's week groups otherwise. |
| Stats.HabitStats | src/app/page.tsx:1017-1069 | Definition: `getHabitStats` is the habit's count over the period's days, with its percentage. |
| Stats.TotalStats | src/app/page.tsx:1072-1095 | Definition: `getTotalStats` adds up the habits' counts category by category and takes one percentage of the sums. |
| Stats.DailyBounds | src/app/page.tsx:1033-1043 | For a daily habit, 0 ≤ completed ≤ total ≤ number of days. |
| Stats.WeeklyBounds | src/app/page.tsx:1044-1064 | For a weekly habit, 0 ≤ completed ≤ total ≤ number of weeks. |
| Stats.HabitBounds | src/app/page.tsx:1017-1069 | A habit's figures satisfy 0 ≤ completed ≤ total ≤ number of days. |
| Stats.SumOverCategoriesFlat | src/app/page.tsx:1085-1091 | Summing per category and then across categories gives the sum over all habits at once. |
| Stats.SumOverAppend | src/app/page.tsx:1085-1091 | The sum over two lists of habits is the sum of their sums. |
| Stats.CountDays | src/app/page.tsx:1033-1043 | The day loop counts each day up to today that holds no joker as due, and the completed ones among them as done. |
| Stats.CountWeeks | src/app/page.tsx:1044-1064 | The week loop skips weeks with a joker and weeks with no past day. It counts each other week once, and as completed when some day of it is completed. |
| Stats.CountHabit | src/app/page.tsx:1017-1069 | A habit's stats are its daily or weekly tally and the rounded percentage, with 0 ≤ completed ≤ total ≤ days and a percentage in 0..100. |
| Stats.GetHabitStats | src/app/page.tsx:1017-1069 | `getHabitStats` is the habit's stats over the selected period. Its percentage lies in 0..100. |
| Stats.SumHabitStats | src/app/page.tsx:1086-1090 | The inner `forEach` adds up the habit stats of one category. |
| Stats.GetTotalStats | src/app/page.tsx:1072-1095 | `getTotalStats` adds up the stats of every habit of every category over the period. Its percentage lies in 0..100. |
| Stats.TotalBounds | src/app/page.tsx:1072-1095 | The total figures satisfy 0 ≤ completed ≤ total. |
| Stats.DailyAppend | src/app/page.tsx:1033-1043 | The daily count over two runs of days is the sum of their counts. |
| Stats.DailyCellsAgree | src/app/page.tsx:1035-1041 | The daily count depends only on the cells of the days counted. |
| Stats.WeeklyAppend | src/app/page.tsx:1044-1064 | The weekly count over two lists of weeks is the sum of their counts. |
| Stats.JokerWeekExcluded | src/app/page.tsx:1051-1055 | Adding a week that holds a joker changes neither count. |
| Stats.TotalOfTwoGroups | src/app/page.tsx:1072-1095 | The totals of two groups of categories add up to the totals of both together. |
| Stats.AllHabitsAppend | src/app/page.tsx:943-945 | The habits of two groups of categories are those of the first, then those of the second. |
| Stats.CountTextInjective | src/app/page.tsx:948-964 | The `completed/total` text tells its two numbers apart: equal texts mean equal counts. |
| Stats.CountText | src/app/page.tsx:963 | Definition: the text `${completed}/${total}`. |
| Stats.TodayBounds | src/app/page.tsx:886-902 | Today's figures satisfy 0 ≤ completed ≤ total. |
| Stats.TodayTally | src/app/page.tsx:886-899 | Definition: today's figures add up, over every category's daily habits, today's day unit. TodayIsStatsOfToday ties them to getHabitStats over today. |
| Stats.CountTodayIn | src/app/page.tsx:892-898 | The loop over one category's habits counts its daily habits without a joker today, and those completed today. |
| Stats.CountToday | src/app/page.tsx:886-899 | Both loops count every daily habit of every category without a joker today, and those completed today. |
| Stats.GetTodayCompletionRate | src/app/page.tsx:886-902 | Today's rate is the rounded percentage of those counts and lies in 0..100. |
| Stats.GetTodayCount | src/app/page.tsx:948-964 | Today's count text is `completed/total` of the same counts. |
| Stats.TodayUnitIsStats | src/app/page.tsx:886-902 | For a daily habit, today's figure is its stats over the one-day period of today. |
| Stats.TodayIsStatsOfToday | src/app/page.tsx:886-902 | The today figures are the stats of the daily habits over the one-day period of today. |
| Stats.WeekFigureBounds | src/app/page.tsx:904-941 | The week figures satisfy 0 ≤ completed ≤ total. |
| Stats.WeekFigureTally | src/app/page.tsx:904-938 | Definition: the week figures add up the daily count over the week for daily habits, and one week unit for the others. WeekFigureIsStatsOfWeek ties them to getHabitStats over the week. |
| Stats.CountWeekIn | src/app/page.tsx:910-936 | The loop over one category's habits counts past days of daily habits and joker-free weeks of weekly habits. |
| Stats.CountWeek | src/app/page.tsx:904-941 | Both loops give the week figures of all categories. |
| Stats.GetWeekCompletionRate | src/app/page.tsx:904-941 | The week rate is the rounded percentage of the week figures and lies in 0..100. |
| Stats.GetWeekCount | src/app/page.tsx:967-1004 | The week count text is `completed/total` of the same figures. |
| Stats.OneWeekBucket | src/app/page.tsx:1148-1171 | The seven days from a Monday form a single week group. |
| Stats.WeeklySingle | src/app/page.tsx:1044-1064 | One week counts once when it has a past day, and not at all otherwise. |
| Stats.WeekFigureUnitIsStats | src/app/page.tsx:904-941 | For a week that has begun, a habit's week figure equals its stats over that week. |
| Stats.WeekFigureIsStatsOfWeek | src/app/page.tsx:904-941 | For a week that has begun, the week figures are the habits' stats over that week. |
| Stats.FutureWeekCountsWeeklyHabit | src/app/page.tsx:922-935 | In a week entirely in the future, the quick figures still count a weekly habit once, while its stats count nothing. |
| Dashboard.ToggleStep | src/app/page.tsx:179-361 | A toggle writes a cell whose joker implies completed. The joker counter moves by at most one, and takes a joker only when one remains. |
| Dashboard.JokerCellCleared | src/app/page.tsx:189-199 | Clicking a joker cell, in either mode, clears it and gives the joker back. |
| Dashboard.JokerRefusal | src/app/page.tsx:236-243 | Joker mode refuses exactly when no joker is left or the cell is completed without a joker. The second reason applies only when a joker remains. |
| Dashboard.NormalClickFlips | src/app/page.tsx:334-338 | A normal click on a non-joker cell flips its completion. Two clicks restore it. |
| Dashboard.JokerPlacedThenRemoved | src/app/page.tsx:245-253 | Placing a joker on an open cell takes one joker. Clicking that cell again clears it and gives the joker back. |
| Dashboard.JokerCountFollowsCells | src/app/page.tsx:179-361 | The joker counter changes by the change in the number of joker cells. |
| Dashboard.Dashboard.Toggled | src/app/page.tsx:179-361 | Definition: the state change of one toggle in a given mode. Without a user, nothing happens. On a refusal, an alert or nothing and the state is kept. Otherwise the ToggleStep cell is written to both maps under its key, the counters move by its joker delta, and that cell is posted for the user. |
| Dashboard.Dashboard.constructor | src/app/page.tsx:41-55 | The dashboard starts from the given logs and joker counters. |
| Dashboard.Dashboard.ToggleHabit | src/app/page.tsx:179-361 | Without a user nothing happens. Otherwise the cell's new state is written to both maps under its key, the counters move by the same amount, and the request body carries the new state. A refusal alerts or ignores and changes nothing. Used + remaining never changes, and every joker cell stays completed. |
| Dashboard.HandleClick | src/app/page.tsx:372-375 | A click on a future day does nothing. Any other click has exactly the effect of a toggle in the current mode (Toggled), and the dashboard stays valid. |
| Dashboard.HandleContextMenu | src/app/page.tsx:364-369 | A right click on a future day, or when jokers are disabled, does nothing. Otherwise it has exactly the effect of a toggle in joker mode (Toggled). |
| HabitLogRoute.NormaliseDate | src/app/api/habits/log/route.ts:47-56 | A timestamp normalises to the UTC day that contains it. A string is accepted exactly when it has the `YYYY-MM-DD` shape. |
| HabitLogRoute.DateKeyNormalised | src/app/api/habits/log/route.ts:49-52 | The key the dashboard sends normalises to the same day. |
| HabitLogRoute.SameUtcDaySameKey | src/app/api/habits/log/route.ts:53-56 | Two instants of one UTC day normalise to the same day. |
| HabitLogRoute.UpdateKeepsUndefinedFields | src/app/api/habits/log/route.ts:70-79 | An update keeps the owner, the count and the joker flag that are not sent. It flips completion when none is sent. |
| HabitLogRoute.BareToggleTwiceRestores | src/app/api/habits/log/route.ts:75 | A request that sends no fields toggles the log. Sending it twice restores the log. |
| HabitLogRoute.CreateDefaults | src/app/api/habits/log/route.ts:80-92 | A new log belongs to the sender. It is completed when no completion is sent and not a joker when no flag is sent. It has a count exactly when a non-zero count is sent. |
| HabitLogRoute.MissingField | src/app/api/habits/log/route.ts:42 | Definition: `!userId \|\| !habitId \|\| !date`. An empty string or a zero timestamp counts as missing. |
| HabitLogRoute.UpdatedRow | src/app/api/habits/log/route.ts:70-79 | Definition: the update keeps the owner. It takes each field that is sent, flips completion when none is sent, and keeps the stored count and joker flag otherwise. |
| HabitLogRoute.CreatedRow | src/app/api/habits/log/route.ts:80-92 | Definition: the new row has completion defaulting to true, `count \|\| null` and `isJoker \|\| false`. |
| HabitLogRoute.StoredRow | src/app/api/habits/log/route.ts:59-92 | Definition: the row of that habit and day is updated when it exists and created otherwise. |
| HabitLogRoute.Selected | src/app/api/habits/log/route.ts:16-23 | Definition: the user's row, limited to the inclusive range only when both bounds are given. |
| HabitLogRoute.HabitLogTable.constructor | src/app/api/habits/log/route.ts:59-66 | The table starts with the given rows. |
| HabitLogRoute.HabitLogTable.Post | src/app/api/habits/log/route.ts:38-98 | A missing field gives 400 and a bad date 500, changing nothing. Otherwise the one row of that habit and day is created or updated, and nothing else changes. |
| HabitLogRoute.DashboardBodyStored | src/app/api/habits/log/route.ts:40-92 | A toggle body from the dashboard passes the checks and lands on its day. The stored log has the completion and joker flag the dashboard shows. |
| HabitLogRoute.GetLogs | src/app/api/habits/log/route.ts:5-30 | Without a user id the answer is 400. Otherwise only that user's rows are returned, unchanged. |
| HabitLogRoute.GetRangeInclusive | src/app/api/habits/log/route.ts:16-23 | With both bounds, a user's log is returned exactly when its day lies between them, bounds included. |
| HabitLogRoute.GetOneBoundIgnored | src/app/api/habits/log/route.ts:16-28 | With a bound missing, the range is ignored and all the user's logs are returned. |
| JokersRoute.WeekPeriodStart | src/app/api/jokers/route.ts:31-39 | A "week" period (or any unknown value) starts on the Monday on or before today, less than a week ago. |
| JokersRoute.MonthPeriodStart | src/app/api/jokers/route.ts:40-43 | A "month" period starts on the first of today's month. |
| JokersRoute.YearPeriodStart | src/app/api/jokers/route.ts:44-47 | A "year" period starts on January 1 of today's year. |
| JokersRoute.PeriodStart | src/app/api/jokers/route.ts:31-54 | Definition: the first of this month for `month`, January 1 for `year`, and this week's Monday for `week` or any other value. |
| JokersRoute.CountedJoker | src/app/api/jokers/route.ts:57-65 | Definition: a row counts as a used joker when it is the user's, holds a joker, and is on or after the period start. |
| JokersRoute.UsedKeys | src/app/api/jokers/route.ts:57-65 | Definition: the rows counted as used jokers. |
| JokersRoute.JokersUsed | src/app/api/jokers/route.ts:57-65 | The count of the user's jokers since the period start is at most the number of logs. |
| JokersRoute.UsedKeysElsewhere | src/app/api/jokers/route.ts:57-65 | Writing one log does not change which other logs count as jokers used. |
| JokersRoute.JokersUsedUpdate | src/app/api/jokers/route.ts:57-65 | Writing one log changes the joker count by that log's change alone. |
| JokersRoute.Remaining | src/app/api/jokers/route.ts:67 | `Math.max(0, count - used)` is never negative and is either 0 or count - used. |
| JokersRoute.RemainingBounds | src/app/api/jokers/route.ts:67 | The remaining jokers lie in 0..count. Remaining and used add up to the allowance exactly when the allowance is not exceeded. |
| JokersRoute.GetJokers | src/app/api/jokers/route.ts:5-79 | The answer is 400 exactly without a user id and 404 exactly for an unknown user. A known user always gets figures: the user's settings, the jokers used since the period start, and the remaining count. |
| JokersRoute.PeriodStartNotAfterToday | src/app/api/jokers/route.ts:27-54 | Every period starts on or before today. |
| JokersRoute.JokerPlacedCounts | src/app/api/jokers/route.ts:57-65 | A joker that the dashboard places in the current period raises the used count by one. |
| FriendsRoute.FirstTen | src/app/api/friends/route.ts:34 | `slice(0, 10)` keeps exactly the first ten elements, or all of them when there are at most ten. |
| FriendsRoute.FirstRelation | src/app/api/friends/route.ts:136-143 | The relation found is a row between the two users. None is found only when no row joins them. |
| FriendsRoute.Between | src/app/api/friends/route.ts:48-50 | Definition: a row joins two users in either direction. |
| FriendsRoute.Matches | src/app/api/friends/route.ts:21-33 | Definition: a search keeps the other users whose lower-cased pseudo includes the lower-cased query. |
| FriendsRoute.Annotate | src/app/api/friends/route.ts:47-57 | Definition: each hit carries `relation?.status \|\| null` and `relation?.userId === userId` of the first row joining the two users. AnnotationSpec states what they mean. |
| FriendsRoute.Search | src/app/api/friends/route.ts:17-59 | Definition: filter the users, keep the first ten, and annotate each. SearchResultsSpec states the result. |
| FriendsRoute.SearchResultsSpec | src/app/api/friends/route.ts:17-59 | The search returns exactly the first ten matching users in table order, or every match when at most ten match. A match is never the searcher, and its lower-cased pseudo includes the lower-cased search. |
| FriendsRoute.OneRowPerPair | src/app/api/friends/route.ts:136-150 | In a valid table, two rows between the same two users are the same row. |
| FriendsRoute.FilterValid | src/app/api/friends/route.ts:202-211 | Removing rows keeps the table valid. |
| FriendsRoute.AnnotationSpec | src/app/api/friends/route.ts:47-57 | A search hit has no status exactly when no row joins the users, and otherwise the joining row's status. `isRequester` holds exactly when the searcher sent it. |
| FriendsRoute.FriendsOf | src/app/api/friends/route.ts:80-96 | Definition: the other side of each accepted row of the user, in row order. FriendsOfSpec states who they are. |
| FriendsRoute.FriendsOfSpec | src/app/api/friends/route.ts:80-96 | A user's friends are exactly the other sides of their accepted rows, and never the user. |
| FriendsRoute.GetFriends | src/app/api/friends/route.ts:5-114 | The answer is 400 exactly without a user id. Type `search` with a query gives exactly Search's result. Otherwise type `pending` gives exactly the received pending requests, and any other type gives the friends with those requests. |
| FriendsRoute.Accept | src/app/api/friends/route.ts:176-181 | Accepting marks the row with that id as accepted and leaves every other row as it was. |
| FriendsRoute.AcceptValid | src/app/api/friends/route.ts:176-181 | Accepting keeps the table valid. |
| FriendsRoute.FriendshipTable.constructor | src/app/api/friends/route.ts:117-165 | The table starts empty and valid. |
| FriendsRoute.FriendshipTable.Post | src/app/api/friends/route.ts:117-165 | Missing ids give 400, a request to oneself 400 and an unknown friend 404. An existing row gives 409, "already friends" or "already sent" by its status. Otherwise one pending row is appended. The table stays valid. |
| FriendsRoute.FriendshipTable.Put | src/app/api/friends/route.ts:168-191 | A missing id or status gives 400. An unknown id gives 500. "accepted" accepts the row, and anything else deletes it. The table stays valid. |
| FriendsRoute.FriendshipTable.Delete | src/app/api/friends/route.ts:194-216 | Missing ids give 400. Otherwise every row between the two users is removed. The table stays valid. |
| FriendsRoute.AppendValid | src/app/api/friends/route.ts:152-158 | Appending a pending row for a new pair of distinct users keeps the table valid. |
| FriendsRoute.DeleteSpec | src/app/api/friends/route.ts:202-211 | After DELETE no row joins the two users and every other row remains. Nothing changes when none joined them. |
| FriendsRoute.RefuseSpec | src/app/api/friends/route.ts:182-186 | Refusing removes the row with that id and keeps every other row. |
| JsText.LowerChar | src/app/settings/page.tsx:137 | A lower-cased character is not a capital. |
| JsText.ToLower | src/app/settings/page.tsx:137 | `toLowerCase` keeps the length and lowers each character. |
| JsText.ToLowerIdempotent | src/app/api/friends/route.ts:31-33 | Lower-casing twice is lower-casing once. |
| JsText.ToLowerAppend | src/app/api/friends/route.ts:31-33 | Lower-casing works piece by piece. |
| JsText.Includes | src/app/settings/page.tsx:139-143 | Definition: `s.includes(sub)` holds when sub occurs at some position of s. The empty string occurs everywhere. |
| JsText.IsSpace | src/app/register/page.tsx:18 | Definition: the white space and line terminators that `trim` and `\s` recognise. |
| JsText.IncludesPiece | src/app/settings/page.tsx:139-143 | A string includes every piece of it. |
| JsText.TrimStartShape | src/app/register/page.tsx:18 | Trimming the start keeps a suffix that does not start with white space, and cuts only white space. |
| JsText.TrimEndShape | src/app/register/page.tsx:18 | Trimming the end keeps a prefix that does not end with white space, and cuts only white space. |
| JsText.TrimShape | src/app/register/page.tsx:18 | `trim` keeps a slice with no white space at either end and cuts only white space. |
| JsText.Trim | src/app/register/page.tsx:18 | Definition: `trim` is trimming the start and then the end. TrimShape states its result. |
| JsText.TrimIdempotent | src/app/register/page.tsx:55 | Trimming twice is trimming once. |
| JsText.TrimEmptyIff | src/app/register/page.tsx:18-21 | A string trims to nothing exactly when it is all white space. |
| JsText.Utf16Length | src/app/register/page.tsx:23-31 | `length` counts between one and two units per character. |
| JsText.Utf16LengthBasic | src/app/register/page.tsx:23-31 | Without characters above U+FFFF, `length` is the number of characters. |
| Register.SubmittedIff | src/app/register/page.tsx:18-56 | The form is sent exactly when the trimmed pseudo has 2..20 units, the password at least 4 and the confirmation matches. It sends the trimmed pseudo and the password as typed. |
| Register.FirstFailureReported | src/app/register/page.tsx:18-46 | Each message is shown exactly when its check fails and every earlier check passes. |
| Register.SurroundingSpaceIgnored | src/app/register/page.tsx:18-56 | A pseudo is judged, and sent, as its trimmed form. |
| Register.BlankPseudoMissing | src/app/register/page.tsx:18-21 | A pseudo of white space only is refused as missing. |
| Register.HandleSubmit | src/app/register/page.tsx:18-56 | Definition: the checks of `handleSubmit` in order. SubmittedIff and FirstFailureReported state what it accepts and which message it shows. |
| Seqs.Filter | src/app/api/friends/route.ts:33 | `filter` keeps only elements of the input that pass the test. |
| Seqs.FilterComplete | src/app/api/friends/route.ts:33 | Every element that passes the test is kept. |
| Seqs.FilterAppend | src/app/settings/page.tsx:877-881 | Filtering works piece by piece. |
| Seqs.FilterAll | src/app/settings/page.tsx:877-881 | A filter that every element passes changes nothing. |
| Seqs.FlatMapAppend | src/app/settings/page.tsx:234-239 | Collecting over two lists is collecting over each in turn. |
| Seqs.FlatMapSource | src/app/settings/page.tsx:234-239 | Every collected item comes from one of the inputs. |
| Seqs.FlatMapEmpty | src/app/settings/page.tsx:234-239 | Inputs that yield nothing collect nothing. |
| Settings.GetHabitSuggestions | src/app/settings/page.tsx:135-151 | Suggestions are always one of the five template lists. |
| Settings.TemplateNamesLowered | src/app/settings/page.tsx:26-38 | The template category names lower-case to the names the suggestions look for. |
| Settings.MorningTemplateSuggestions | src/app/settings/page.tsx:139 | The MATIN category gets the morning habits. |
| Settings.DayTemplateSuggestions | src/app/settings/page.tsx:140 | The JOURNÉE category gets the daytime habits. |
| Settings.EveningTemplateSuggestions | src/app/settings/page.tsx:141 | The SOIR category gets the evening habits. |
| Settings.WeeklyTemplateSuggestions | src/app/settings/page.tsx:142 | The HEBDO category gets the weekly habits. |
| Settings.AddictionTemplateSuggestions | src/app/settings/page.tsx:143 | The ADDICTION category gets the addiction habits. |
| Settings.TemplatesFor | src/app/settings/page.tsx:26-38 | Every template of a type has that type. |
| Settings.TemplatesOf | src/app/settings/page.tsx:234-239 | Definition: the templates of each selected type, in selection order. |
| Settings.CollectTemplates | src/app/settings/page.tsx:232-239 | The `forEach` collects the templates of each selected type, in selection order. |
| Settings.TemplatesOfAppend | src/app/settings/page.tsx:234-239 | Collecting works piece by piece. |
| Settings.TemplatesOfSelected | src/app/settings/page.tsx:234-239 | Only templates of selected types are collected. Unknown types collect nothing. |
| Settings.ToggleTemplate | src/app/settings/page.tsx:280-286 | Definition: `toggleTemplate` removes the type when it is selected and appends it otherwise. ToggleMembership and ToggleTwice state its effect. |
| Settings.ToggleMembership | src/app/settings/page.tsx:280-286 | Toggling flips the membership of that type and keeps every other type as it was. |
| Settings.ToggleTwice | src/app/settings/page.tsx:280-286 | Toggling twice restores membership, and restores the list itself when the type was absent. |
| Settings.FindCategory | src/app/settings/page.tsx:375 | `find` returns a category with that id, and none only when no category has it. |
| Settings.FrequencyFor | src/app/settings/page.tsx:375-376 | Definition: `weekly` when the category found has type hebdo, `daily` otherwise. |
| Settings.NewHabitCountedWeeklyIff | src/app/settings/page.tsx:375-376 | A new habit is counted weekly by the statistics exactly when its category is of type hebdo. It is counted daily when the category is not found. |
| Settings.FirstSpaceFrom | src/app/settings/page.tsx:879 | The scan stops at the first white space at or after the start position, or at the end when there is none. No character it passes is white space. |
| Settings.StripLeadingToken | src/app/settings/page.tsx:879 | `replace(/^[^\s]+\s/, '')`: when the text starts with a non-empty run of non-space characters followed by a white space, both are removed. Otherwise the text is unchanged. |
| Settings.FirstTenChars | src/app/settings/page.tsx:880 | `slice(0, 10)` is the prefix of the first ten characters, or the whole text when it is shorter. |
| Settings.SuggestionKey | src/app/settings/page.tsx:879-880 | Definition: the first ten characters of the suggestion, lower-cased, after its leading emoji. |
| Settings.Hidden | src/app/settings/page.tsx:880 | Definition: some habit's lower-cased name includes the suggestion's key. |
| Settings.VisibleSuggestions | src/app/settings/page.tsx:877-881 | Definition: the category's suggestions that are not hidden. VisibleIff states which are shown. |
| Settings.VisibleIff | src/app/settings/page.tsx:877-881 | A suggestion is shown exactly when it is suggested and no habit name includes its key. |
| Settings.EmptyCategoryShowsAll | src/app/settings/page.tsx:877-881 | A category without habits shows every suggestion. |
| Settings.AddedSuggestionHidden | src/app/settings/page.tsx:877-881 | A suggestion already added as a habit is hidden. |

Proof helpers without a row: the arithmetic steps of the leap-year count, the one-step
unfoldings of the loops' specification functions, and the set-size facts. Their
contracts serve only the lemmas above.

## Left out

- Rendering, `fetch` and the optimistic-update rollback are left out. This covers the
  React rendering and polling, and the restore of the previous cell and counters when
  the POST fails. `ToggleHabit` ends with the request body it would send.
- Clock and time zones: "now" is the parameter `today`, and days are whole local days.
  Hours, daylight-saving shifts and the offset between local and UTC days are not
  modelled. Dates compared with `<=` reduce to day comparison.
- Floating point: `Math.round(c / t * 100)` is exact round-half-up on rationals. Float
  rounding at exact halves is not modelled.
- `toLocaleDateString` (day names and short dates) is display only.
- JsText.LowerChar: lowers only A–Z and the Latin-1 capitals, the same limit as ToLower below.
- JsText.ToLower: lowers only A–Z and the Latin-1 capitals. Other scripts' case mappings
  are not modelled.
- Settings.FirstTenChars: `slice(0, 10)` counts code points here, while JavaScript counts
  UTF-16 code units. The two differ only for characters above U+FFFF in a habit name.
- Settings.CollectTemplates: template types are taken from the three known keys. A type
  name that is an inherited object property is not modelled.
- The trimming and emptiness check of the new habit name in `addHabit`, and the habit
  creation request itself, are not modelled. Only the frequency choice is.
- Prisma: the database is a map (habit logs) or a sequence (friendships).
  - `findMany` returns rows in table order.
  - Ids come from a counter.
  - Friend profiles are reduced to user ids and pseudos.
  - The `include` joins are not modelled.
  - Database failures are not modelled, except the missing row on PUT, which Prisma
    reports as an error and the route answers with 500.
- FriendsRoute.FriendshipTable.Put: does not check who accepts a request. The route
  does not check it either.
- HabitLogRoute.HabitLogTable.Post: an update keeps the existing row's owner. The route
  does not check ownership.
- HabitLogRoute.NormaliseDate: date strings other than `YYYY-MM-DD` are all treated as
  a failed parse (500). The other formats that `new Date(string)` accepts are not
  modelled.
- HabitLogRoute.GetLogs: the range bounds are days. The parsing of the query strings
  into dates is not modelled.
- JokersRoute.MonthPeriodStart: holds for years from 100 on. The same goes for
  JokersRoute.YearPeriodStart, JokersRoute.PeriodStartNotAfterToday and
  JokersRoute.JokerPlacedCounts. `new Date(y, m, 1)` maps years 0–99 to 1900–1999, so
  the month and year starts of those years differ. The model keeps that mapping.
- WeekDates.WeekNumberRange: stated for years outside 0–99, for the same reason.
- DateText.ParseFormatRoundTrip: holds for years 1000–9999, the years whose key has
  four digits. So do DateText.DateKeyFields and HabitLogRoute.DateKeyNormalised.
- The quick figures of the week (`getWeekCompletionRate`, `getWeekCount`) count a
  weekly habit in a week that lies wholly in the future. `getHabitStats` does not. The
  model keeps this behaviour as written and states it in
  Stats.FutureWeekCountsWeeklyHabit.
- Authentication, password hashing, the other API routes, the service worker and the
  layout are outside the modelled core.
