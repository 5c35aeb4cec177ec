/**
  * The cell state machine of the dashboard (toggleHabit in src/app/page.tsx): a click
  * on the cell of one habit and one day, in normal or in joker mode, rewrites that
  * cell in both log maps, moves the joker counters and produces the body of the POST
  * sent to /api/habits/log.
  */
module Dashboard {
  import opened Wrappers
  import opened DateText
  import opened Logs

  /** Why a click in joker mode changes nothing. */
  datatype Refusal = NoJokerLeft | CompletedWithoutJoker

  /** The effect of a click on one cell: refused, or the new cell and the change of jokersUsed. */
  datatype Step = Refuse(reason: Refusal) | Write(cell: LogData, jokerDelta: int)

  /**
    * The decision of toggleHabit for the current cell (`logs[key] || {false, false}`),
    * the number of jokers left and the mode of the click.
    */
  function ToggleStep(current: LogData, jokersRemaining: int, useJokerMode: bool): (r: Step)
    ensures r.Write? ==> JokerImpliesCompleted(r.cell)
    ensures r.Write? ==> -1 <= r.jokerDelta <= 1 && (r.jokerDelta == 1 ==> jokersRemaining > 0)
  {
    if current.completed && current.isJoker then Write(LogData(false, false), -1)
    else if !useJokerMode then Write(LogData(!current.completed, false), 0)
    else if jokersRemaining <= 0 then Refuse(NoJokerLeft)
    else if current.completed && !current.isJoker then Refuse(CompletedWithoutJoker)
    else Write(LogData(true, true), 1)
  }

  /** Clicking a joker cell, in either mode, clears it and gives the joker back. */
  lemma JokerCellCleared(current: LogData, jokersRemaining: int, useJokerMode: bool)
    requires current.completed && current.isJoker
    ensures ToggleStep(current, jokersRemaining, useJokerMode) == Write(LogData(false, false), -1)
  {}

  /** Placing a joker is refused exactly when none is left or the cell is done without one. */
  lemma JokerRefusal(current: LogData, jokersRemaining: int)
    requires JokerImpliesCompleted(current)
    ensures ToggleStep(current, jokersRemaining, true).Refuse?
      <==> !current.isJoker && (jokersRemaining <= 0 || current.completed)
    ensures ToggleStep(current, jokersRemaining, true) == Refuse(CompletedWithoutJoker)
      <==> !current.isJoker && jokersRemaining > 0 && current.completed
  {}

  /** A normal click on a cell without a joker flips it; a second click restores it. */
  lemma NormalClickFlips(current: LogData, jokersRemaining: int)
    requires !current.isJoker
    ensures ToggleStep(current, jokersRemaining, false) == Write(LogData(!current.completed, false), 0)
    ensures ToggleStep(ToggleStep(current, jokersRemaining, false).cell, jokersRemaining, false).cell == current
  {}

  /** A joker placed and then clicked away leaves an empty cell and the counters as they were. */
  lemma JokerPlacedThenRemoved(current: LogData, jokersRemaining: int, secondMode: bool)
    requires !current.completed && jokersRemaining > 0
    ensures var s1 := ToggleStep(current, jokersRemaining, true);
      && s1 == Write(LogData(true, true), 1)
      && var s2 := ToggleStep(s1.cell, jokersRemaining - 1, secondMode);
      && s2 == Write(LogData(false, false), -1)
  {}

  /**
    * On a cell where a joker implies completion, jokersUsed moves by exactly the change
    * of the cell's joker flag: the counter follows the jokers on the grid.
    */
  lemma JokerCountFollowsCells(current: LogData, jokersRemaining: int, useJokerMode: bool)
    requires JokerImpliesCompleted(current)
    ensures var r := ToggleStep(current, jokersRemaining, useJokerMode);
      r.Write? ==> r.jokerDelta == (if r.cell.isJoker then 1 else 0) - (if current.isJoker then 1 else 0)
  {}

  /** The JSON body of the POST to /api/habits/log. */
  datatype LogBody = LogBody(userId: string, habitId: string, date: string, completed: bool, isJoker: bool)

  /** What a click leads to: nothing without a user, an alert, nothing, or a POST. */
  datatype ToggleOutcome = NotSignedIn | Alerted(message: string) | Ignored | Posted(body: LogBody)

  const NoJokerAlert := "Plus de jokers disponibles pour cette période !"

  /** Every cell holding a joker is also completed. */
  predicate AllJokersCompleted(m: LogsMap) {
    forall k :: k in m ==> JokerImpliesCompleted(m[k])
  }

  /** The state toggleHabit reads and writes. */
  class Dashboard {
    /** The signed-in user's id, when there is one. */
    var user: Option<string>
    /** The logs of the displayed week. */
    var logs: LogsMap
    /** All logs, read by the statistics. */
    var allLogs: LogsMap
    var jokersUsed: int
    var jokersRemaining: int

    predicate Valid()
      reads this
    {
      jokersRemaining >= 0 && AllJokersCompleted(logs) && AllJokersCompleted(allLogs)
    }

    constructor(user: Option<string>, logs: LogsMap, allLogs: LogsMap, jokersUsed: int, jokersRemaining: int)
      requires jokersRemaining >= 0 && AllJokersCompleted(logs) && AllJokersCompleted(allLogs)
      ensures Valid()
      ensures this.user == user && this.logs == logs && this.allLogs == allLogs
      ensures this.jokersUsed == jokersUsed && this.jokersRemaining == jokersRemaining
    {
      this.user := user;
      this.logs := logs;
      this.allLogs := allLogs;
      this.jokersUsed := jokersUsed;
      this.jokersRemaining := jokersRemaining;
    }

    /**
      * The effect of one toggle of habit habitId on day `date` in the given mode: nothing
      * without a user; on a refusal, an alert or nothing, with the state unchanged;
      * otherwise the cell ToggleStep computes written to both maps under the cell's key,
      * the counters moved by its joker delta, and that cell posted for the user.
      */
    twostate predicate Toggled(habitId: string, date: int, useJokerMode: bool, outcome: ToggleOutcome)
      reads this
    {
      if old(user).None? then outcome == NotSignedIn && unchanged(this)
      else
        var key := LogKey(habitId, date);
        match ToggleStep(CellAt(old(logs), habitId, date), old(jokersRemaining), useJokerMode)
        case Refuse(NoJokerLeft) => outcome == Alerted(NoJokerAlert) && unchanged(this)
        case Refuse(CompletedWithoutJoker) => outcome == Ignored && unchanged(this)
        case Write(cell, delta) =>
          && user == old(user)
          && logs == old(logs)[key := cell]
          && allLogs == old(allLogs)[key := cell]
          && jokersUsed == old(jokersUsed) + delta
          && jokersRemaining == old(jokersRemaining) - delta
          && outcome == Posted(LogBody(old(user).value, habitId, FormatDateKey(date), cell.completed, cell.isJoker))
    }

    /**
      * toggleHabit up to the answer of the server: the optimistic update of both maps
      * and of the counters, and the body of the POST.
      */
    method ToggleHabit(habitId: string, date: int, useJokerMode: bool) returns (outcome: ToggleOutcome)
      requires Valid()
      modifies this
      ensures Valid()
      ensures user == old(user)
      ensures jokersUsed + jokersRemaining == old(jokersUsed + jokersRemaining)
      ensures Toggled(habitId, date, useJokerMode, outcome)
    {
      if user.None? {
        return NotSignedIn;
      }
      var dateStr := FormatDateKey(date);
      var key := LogKey(habitId, date);
      var currentData := if key in logs then logs[key] else LogData(false, false);

      if useJokerMode {
        if currentData.completed && currentData.isJoker {
          var newData := LogData(false, false);
          logs := logs[key := newData];
          allLogs := allLogs[key := newData];
          jokersUsed := jokersUsed - 1;
          jokersRemaining := jokersRemaining + 1;
          return Posted(LogBody(user.value, habitId, dateStr, false, false));
        }
        if jokersRemaining <= 0 {
          return Alerted(NoJokerAlert);
        }
        if currentData.completed && !currentData.isJoker {
          return Ignored;
        }
        var newData := LogData(true, true);
        logs := logs[key := newData];
        allLogs := allLogs[key := newData];
        jokersUsed := jokersUsed + 1;
        jokersRemaining := jokersRemaining - 1;
        return Posted(LogBody(user.value, habitId, dateStr, true, true));
      }

      if currentData.completed && currentData.isJoker {
        var newData := LogData(false, false);
        logs := logs[key := newData];
        allLogs := allLogs[key := newData];
        jokersUsed := jokersUsed - 1;
        jokersRemaining := jokersRemaining + 1;
        return Posted(LogBody(user.value, habitId, dateStr, false, false));
      }

      var newCompleted := !currentData.completed;
      var newData := LogData(newCompleted, false);
      logs := logs[key := newData];
      allLogs := allLogs[key := newData];
      outcome := Posted(LogBody(user.value, habitId, dateStr, newCompleted, false));
    }
  }

  /** handleClick: a future day ignores the click; otherwise the mode decides. */
  method HandleClick(d: Dashboard, habitId: string, date: int, isFuture: bool, jokerMode: bool) returns (outcome: Option<ToggleOutcome>)
    requires d.Valid()
    modifies d
    ensures d.Valid()
    ensures isFuture ==> outcome == None && unchanged(d)
    ensures !isFuture ==> outcome.Some? && d.Toggled(habitId, date, jokerMode, outcome.value)
  {
    if isFuture {
      return None;
    }
    var o := d.ToggleHabit(habitId, date, jokerMode);
    outcome := Some(o);
  }

  /** handleContextMenu: a right click places or removes a joker when jokers are enabled. */
  method HandleContextMenu(d: Dashboard, habitId: string, date: int, isFuture: bool, jokerCount: int) returns (outcome: Option<ToggleOutcome>)
    requires d.Valid()
    modifies d
    ensures d.Valid()
    ensures (isFuture || jokerCount <= 0) ==> outcome == None && unchanged(d)
    ensures !isFuture && jokerCount > 0 ==> outcome.Some? && d.Toggled(habitId, date, true, outcome.value)
  {
    if !isFuture && jokerCount > 0 {
      var o := d.ToggleHabit(habitId, date, true);
      return Some(o);
    }
    return None;
  }
}
