/**
  * The joker endpoint (src/app/api/jokers/route.ts): the start of the user's joker
  * period, the jokers used since then in the log table, and the jokers left.
  */
module JokersRoute {
  import opened Wrappers
  import opened Calendar
  import opened WeekDates
  import opened DateText
  import opened Api
  import opened HabitLogRoute

  /** The joker settings of a user. */
  datatype JokerSettings = JokerSettings(jokerCount: int, jokerPeriod: string)

  datatype JokerStats = JokerStats(jokerCount: int, jokerPeriod: string, jokersUsed: int, jokersRemaining: int)

  datatype JokerResponse = JokerRefused(status: int, error: string) | JokerFigures(stats: JokerStats)

  /**
    * The `switch (user.jokerPeriod)`: the first day of the current month or year, and
    * for "week" and any other value the Monday of the current week.
    */
  function PeriodStart(jokerPeriod: string, today: int): int {
    if jokerPeriod == "month" then NewDate(FullYear(today), MonthIndex(today), 1)
    else if jokerPeriod == "year" then NewDate(FullYear(today), 0, 1)
    else GetWeekStart(today)
  }

  /** Week and unknown periods start on the Monday of today's week, as getWeekStart does. */
  lemma WeekPeriodStart(jokerPeriod: string, today: int)
    requires jokerPeriod != "month" && jokerPeriod != "year"
    ensures var start := PeriodStart(jokerPeriod, today);
      WeekDay(start) == 1 && start <= today < start + 7
  {}

  /**
    * The month period starts on the first of today's month (for years from 100 on, where
    * `new Date(y, m, 1)` does not move the year into the 1900s).
    */
  lemma MonthPeriodStart(today: int)
    requires FullYear(today) >= 100
    ensures var start := PeriodStart("month", today);
      && start == today - DateOfMonth(today) + 1
      && DateOfMonth(start) == 1 && MonthIndex(start) == MonthIndex(today) && FullYear(start) == FullYear(today)
  {
    var y, m := FullYear(today), MonthIndex(today);
    assert PeriodStart("month", today) == MakeDay(y, m, 1);
    SetDateIsMakeDay(today, 1);
    MonthStart(y, m);
    assert m / 12 == 0 && m % 12 == m;
  }

  /** The year period starts on 1 January of today's year (years from 100 on). */
  lemma YearPeriodStart(today: int)
    requires FullYear(today) >= 100
    ensures var start := PeriodStart("year", today);
      && start == YearStart(FullYear(today)) && start <= today
      && ToCivil(start) == Civil(FullYear(today), 1, 1)
  {
    var y := FullYear(today);
    assert PeriodStart("year", today) == MakeDay(y, 0, 1);
    YearSpan(y);
    ToCivilCorrect(today);
    MonthTable(y, ToCivil(today).month);
  }

  /** A log row that `habitLog.count` counts: the user's, a joker, on or after the start. */
  predicate CountedJoker(row: LogRow, day: int, userId: string, start: int) {
    row.userId == userId && row.isJoker && day >= start
  }

  /** The keys of the rows counted as used jokers. */
  function UsedKeys(rows: map<RowKey, LogRow>, userId: string, start: int): set<RowKey> {
    set k | k in rows.Keys && CountedJoker(rows[k], k.1, userId, start)
  }

  /** jokersUsed: how many of the user's rows hold a joker on or after the period start. */
  function JokersUsed(rows: map<RowKey, LogRow>, userId: string, start: int): (used: nat)
    ensures used <= |rows|
  {
    CardinalityBound(rows, userId, start);
    |UsedKeys(rows, userId, start)|
  }

  lemma CardinalityBound(rows: map<RowKey, LogRow>, userId: string, start: int)
    ensures |UsedKeys(rows, userId, start)| <= |rows|
  {
    assert UsedKeys(rows, userId, start) <= rows.Keys;
    SubsetCardinality(UsedKeys(rows, userId, start), rows.Keys);
  }

  lemma SubsetCardinality<T>(a: set<T>, b: set<T>)
    requires a <= b
    ensures |a| <= |b|
  {
    assert b == a + (b - a);
  }

  /** Writing the row under key changes no other key's membership. */
  lemma UsedKeysElsewhere(rows: map<RowKey, LogRow>, key: RowKey, row: LogRow, userId: string, start: int)
    ensures UsedKeys(rows[key := row], userId, start) - {key} == UsedKeys(rows, userId, start) - {key}
  {
    var after, before := UsedKeys(rows[key := row], userId, start), UsedKeys(rows, userId, start);
    forall k | k != key
      ensures k in after <==> k in before
    {
      assert k in rows[key := row] <==> k in rows;
    }
  }

  /** A set has one element more than the set without x exactly when x belongs to it. */
  lemma SplitOff<T>(a: set<T>, x: T)
    ensures |a| == |a - {x}| + (if x in a then 1 else 0)
  {
    if x in a {
      assert a == (a - {x}) + {x};
    } else {
      assert a == a - {x};
    }
  }

  /**
    * Writing one row changes jokersUsed by exactly the change of that row's own joker
    * status: it loses one if the old row counted, gains one if the new row counts.
    */
  lemma JokersUsedUpdate(rows: map<RowKey, LogRow>, key: RowKey, row: LogRow, userId: string, start: int)
    ensures JokersUsed(rows[key := row], userId, start)
      == JokersUsed(rows, userId, start)
        - (if key in rows && CountedJoker(rows[key], key.1, userId, start) then 1 else 0)
        + (if CountedJoker(row, key.1, userId, start) then 1 else 0)
  {
    var after, before := UsedKeys(rows[key := row], userId, start), UsedKeys(rows, userId, start);
    UsedKeysElsewhere(rows, key, row, userId, start);
    SplitOff(after, key);
    SplitOff(before, key);
    assert key in after <==> CountedJoker(row, key.1, userId, start);
    assert key in before <==> key in rows && CountedJoker(rows[key], key.1, userId, start);
  }

  /** `Math.max(0, jokerCount - jokersUsed)` */
  function Remaining(jokerCount: int, jokersUsed: int): (r: int)
    ensures r >= 0 && r >= jokerCount - jokersUsed
    ensures r == 0 || r == jokerCount - jokersUsed
  {
    if jokerCount - jokersUsed > 0 then jokerCount - jokersUsed else 0
  }

  /** What is left never exceeds the allowance, and used plus left is the allowance until it runs out. */
  lemma RemainingBounds(jokerCount: int, jokersUsed: int)
    requires jokerCount >= 0 && jokersUsed >= 0
    ensures 0 <= Remaining(jokerCount, jokersUsed) <= jokerCount
    ensures jokersUsed <= jokerCount <==> Remaining(jokerCount, jokersUsed) + jokersUsed == jokerCount
  {}

  /**
    * GET: 400 without a user id, 404 for an unknown user, otherwise the user's
    * allowance, its period, the jokers used since the period start and those left.
    */
  function GetJokers(userId: Option<string>, users: map<string, JokerSettings>, rows: map<RowKey, LogRow>, today: int): (r: JokerResponse)
    ensures !Present(userId) <==> r == JokerRefused(400, MissingUserId)
    ensures Present(userId) && userId.value !in users <==> r == JokerRefused(404, UnknownUser)
    ensures Present(userId) && userId.value in users <==> r.JokerFigures?
    ensures r.JokerFigures? ==>
      var u := users[userId.value];
      var used := JokersUsed(rows, userId.value, PeriodStart(u.jokerPeriod, today));
      && r.stats.jokerCount == u.jokerCount && r.stats.jokerPeriod == u.jokerPeriod
      && r.stats.jokersUsed == used
      && r.stats.jokersRemaining == Remaining(u.jokerCount, used)
  {
    if !Present(userId) then JokerRefused(400, MissingUserId)
    else if userId.value !in users then JokerRefused(404, UnknownUser)
    else
      var u := users[userId.value];
      var used := JokersUsed(rows, userId.value, PeriodStart(u.jokerPeriod, today));
      JokerFigures(JokerStats(u.jokerCount, u.jokerPeriod, used, Remaining(u.jokerCount, used)))
  }

  /** Whatever the period, it starts on or before today (years from 100 on). */
  lemma PeriodStartNotAfterToday(jokerPeriod: string, today: int)
    requires FullYear(today) >= 100
    ensures PeriodStart(jokerPeriod, today) <= today
  {
    if jokerPeriod == "month" {
      MonthPeriodStart(today);
    } else if jokerPeriod == "year" {
      YearPeriodStart(today);
    }
  }

  /**
    * A POST placing a joker on one of the user's cells of the current period that held
    * none takes one more joker from the allowance: jokersUsed rises by exactly one.
    */
  lemma JokerPlacedCounts(rows: map<RowKey, LogRow>, userId: string, habitId: string, day: int, jokerPeriod: string, today: int)
    requires FullYear(today) >= 100 && PeriodStart(jokerPeriod, today) <= day
    requires (habitId, day) in rows ==> rows[(habitId, day)].userId == userId && !rows[(habitId, day)].isJoker
    ensures var key, start := (habitId, day), PeriodStart(jokerPeriod, today);
      var req := LogRequest(Some(userId), Some(habitId), DateString(FormatDateKey(day)), Some(true), CountAbsent, Some(true));
      JokersUsed(rows[key := StoredRow(rows, key, userId, req)], userId, start) == JokersUsed(rows, userId, start) + 1
  {
    var key := (habitId, day);
    var req := LogRequest(Some(userId), Some(habitId), DateString(FormatDateKey(day)), Some(true), CountAbsent, Some(true));
    JokersUsedUpdate(rows, key, StoredRow(rows, key, userId, req), userId, PeriodStart(jokerPeriod, today));
  }
}
