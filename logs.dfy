/**
  * The dashboard's view of habits and logs (src/app/page.tsx): habits grouped in
  * categories, and the log map keyed by `${habit.id}_${formatDateKey(date)}`.
  */
module Logs {
  import opened Calendar
  import opened DateText

  datatype Habit = Habit(id: string, name: string, frequency: string)

  datatype Category = Category(id: string, name: string, habits: seq<Habit>)

  /** The state of one cell of the grid: one habit on one day. */
  datatype LogData = LogData(completed: bool, isJoker: bool)

  type LogsMap = map<string, LogData>

  /** A cell that holds a joker also counts as completed. */
  predicate JokerImpliesCompleted(cell: LogData) {
    cell.isJoker ==> cell.completed
  }

  /** The key of the log of habit habitId on day `day`. */
  function LogKey(habitId: string, day: int): string {
    habitId + "_" + FormatDateKey(day)
  }

  /**
    * `logs[key]` read through `?.` (or `|| { completed: false, isJoker: false }`): an
    * absent log reads as neither completed nor a joker.
    */
  function CellAt(logs: LogsMap, habitId: string, day: int): LogData {
    var key := LogKey(habitId, day);
    if key in logs then logs[key] else LogData(false, false)
  }

  /** A day key is made of digits and dashes, so it holds no underscore. */
  lemma DateKeyHasNoUnderscore(n: int)
    ensures '_' !in FormatDateKey(n)
  {
    var c := ToCivil(n);
    var y, mo, d := YearString(c.year), Pad2(c.month), Pad2(c.day);
    assert '_' !in NatString(if c.year < 0 then -c.year else c.year);
    assert '_' !in y;
    assert '_' !in NatString(c.month) && '_' !in NatString(c.day);
    assert '_' !in mo && '_' !in d;
    assert FormatDateKey(n) == y + "-" + mo + "-" + d;
  }

  /** Of two splits of one string at a separator, the one with the longer right part holds the other separator. */
  lemma LongerRightHoldsSeparator(h1: string, k1: string, h2: string, k2: string, sep: char)
    requires h1 + [sep] + k1 == h2 + [sep] + k2
    requires |k1| < |k2|
    ensures sep in k2
  {
    var s := h1 + [sep] + k1;
    assert s[|h1|] == sep;
    assert s[|h1|] == k2[|h1| - |h2| - 1];
  }

  /** Two strings joined by a separator split back at its last occurrence when the right parts hold none. */
  lemma SplitAtLastSeparator(h1: string, k1: string, h2: string, k2: string, sep: char)
    requires sep !in k1 && sep !in k2
    requires h1 + [sep] + k1 == h2 + [sep] + k2
    ensures h1 == h2 && k1 == k2
  {
    var s := h1 + [sep] + k1;
    assert s == h2 + [sep] + k2;
    if |k1| < |k2| {
      LongerRightHoldsSeparator(h1, k1, h2, k2, sep);
      assert false;
    } else if |k2| < |k1| {
      LongerRightHoldsSeparator(h2, k2, h1, k1, sep);
      assert false;
    }
    assert k1 == s[|s| - |k1|..] == k2;
    assert h1 == s[..|h1|] == h2;
  }

  /** Each (habit, day) pair has its own key: the map holds one cell per habit and day. */
  lemma LogKeyInjective(h1: string, d1: int, h2: string, d2: int)
    ensures LogKey(h1, d1) == LogKey(h2, d2) <==> h1 == h2 && d1 == d2
  {
    if LogKey(h1, d1) == LogKey(h2, d2) {
      DateKeyHasNoUnderscore(d1);
      DateKeyHasNoUnderscore(d2);
      SplitAtLastSeparator(h1, FormatDateKey(d1), h2, FormatDateKey(d2), '_');
      DateKeyInjective(d1, d2);
    }
  }

  /** Writing the cell of one habit and day leaves every other cell as it was. */
  lemma CellAtUpdate(logs: LogsMap, h: string, d: int, v: LogData, h2: string, d2: int)
    ensures CellAt(logs[LogKey(h, d) := v], h2, d2) == if h2 == h && d2 == d then v else CellAt(logs, h2, d2)
  {
    LogKeyInjective(h, d, h2, d2);
  }

  /** The habits of all categories, category by category, in order. */
  function AllHabits(categories: seq<Category>): seq<Habit> {
    if categories == [] then []
    else AllHabits(categories[..|categories| - 1]) + categories[|categories| - 1].habits
  }

  /** getTotalHabits: the `reduce` adding up the number of habits of each category. */
  function GetTotalHabits(categories: seq<Category>): (n: int)
    ensures n == |AllHabits(categories)|
  {
    if categories == [] then 0
    else GetTotalHabits(categories[..|categories| - 1]) + |categories[|categories| - 1].habits|
  }
}
