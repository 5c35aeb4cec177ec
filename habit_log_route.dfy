/**
  * The habit log endpoint (src/app/api/habits/log/route.ts) over an in-memory log
  * table: POST normalises the date to a calendar day and upserts the one row of a
  * habit and a day with field-wise merge rules; GET selects a user's rows, by date
  * only when both bounds are given.
  */
module HabitLogRoute {
  import opened Wrappers
  import opened Calendar
  import opened DateText
  import opened Api
  import Dashboard

  const MillisPerDay := 86400000

  /** The JSON `date` field: absent, a string, or a timestamp in milliseconds since the epoch. */
  datatype DateInput = NoDate | DateString(text: string) | Timestamp(millis: int)

  /** The JSON `count` field: absent (undefined), null, or a number. */
  datatype CountInput = CountAbsent | CountNull | CountNumber(n: int)

  /** The body of a POST; an absent boolean is None. */
  datatype LogRequest = LogRequest(
    userId: Option<string>,
    habitId: Option<string>,
    date: DateInput,
    completed: Option<bool>,
    count: CountInput,
    isJoker: Option<bool>)

  /** One row of the habitLog table besides its key; the key is (habitId, day). */
  datatype LogRow = LogRow(userId: string, completed: bool, count: Option<int>, isJoker: bool)

  type RowKey = (string, int)

  datatype PostResponse = BadRequest(error: string) | ServerError(error: string) | Saved(log: LogRow)

  datatype GetResponse = GetRefused(error: string) | Found(logs: map<RowKey, LogRow>)

  const MissingPostFields := "userId, habitId et date requis"

  /** The date field is truthy: a non-empty string or a non-zero timestamp. */
  predicate DatePresent(d: DateInput) {
    match d
    case NoDate => false
    case DateString(text) => text != ""
    case Timestamp(millis) => millis != 0
  }

  /** `!userId || !habitId || !date` */
  predicate MissingField(req: LogRequest) {
    !Present(req.userId) || !Present(req.habitId) || !DatePresent(req.date)
  }

  /**
    * The day the POST stores: a `YYYY-MM-DD` string is read field by field with
    * Date.UTC; a timestamp is cut back to UTC midnight of its own day. Other strings
    * go through Date.parse, which is not part of this model: they yield None.
    */
  function NormaliseDate(d: DateInput): (day: Option<int>)
    ensures d.Timestamp? ==> day.Some? && day.value * MillisPerDay <= d.millis < (day.value + 1) * MillisPerDay
    ensures d.DateString? ==> (day.Some? <==> LooksLikeDateKey(d.text))
  {
    match d
    case NoDate => None
    case DateString(text) => if LooksLikeDateKey(text) then Some(ParseDateKey(text)) else None
    case Timestamp(millis) => Some(millis / MillisPerDay)
  }

  /** The key written by the client (a day of a year from 1000 to 9999) is read back as that day. */
  lemma DateKeyNormalised(n: int)
    requires 1000 <= FullYear(n) <= 9999
    ensures NormaliseDate(DateString(FormatDateKey(n))) == Some(n)
  {
    ParseFormatRoundTrip(n);
  }

  /** Two timestamps of the same UTC day are stored under the same day. */
  lemma SameUtcDaySameKey(a: int, b: int, day: int)
    requires day * MillisPerDay <= a < (day + 1) * MillisPerDay
    requires day * MillisPerDay <= b < (day + 1) * MillisPerDay
    ensures NormaliseDate(Timestamp(a)) == NormaliseDate(Timestamp(b)) == Some(day)
  {}

  /** The update of an existing row: what is left undefined keeps, or for completed flips, the stored value. */
  function UpdatedRow(existing: LogRow, req: LogRequest): LogRow {
    LogRow(
      existing.userId,
      req.completed.GetOr(!existing.completed),
      match req.count
      case CountAbsent => existing.count
      case CountNull => None
      case CountNumber(n) => Some(n),
      req.isJoker.GetOr(existing.isJoker))
  }

  /** A new row: completed defaults to true, `count || null`, `isJoker || false`. */
  function CreatedRow(userId: string, req: LogRequest): LogRow {
    LogRow(
      userId,
      req.completed.GetOr(true),
      match req.count
      case CountNumber(n) => if n != 0 then Some(n) else None
      case _ => None,
      req.isJoker.GetOr(false))
  }

  /** The row stored under key after a POST: the update of the row found there, or a new row. */
  function StoredRow(rows: map<RowKey, LogRow>, key: RowKey, userId: string, req: LogRequest): LogRow {
    if key in rows then UpdatedRow(rows[key], req) else CreatedRow(userId, req)
  }

  /** Updating: an undefined field keeps the stored value, except completed, which flips. */
  lemma UpdateKeepsUndefinedFields(existing: LogRow, req: LogRequest)
    ensures var row := UpdatedRow(existing, req);
      && row.userId == existing.userId
      && (req.completed.None? ==> row.completed == !existing.completed)
      && (req.completed.Some? ==> row.completed == req.completed.value)
      && (req.count.CountAbsent? ==> row.count == existing.count)
      && (req.isJoker.None? ==> row.isJoker == existing.isJoker)
  {}

  /** Two bare toggles (no field given) bring a row back to what it was. */
  lemma BareToggleTwiceRestores(existing: LogRow, req: LogRequest)
    requires req.completed.None? && req.count.CountAbsent? && req.isJoker.None?
    ensures UpdatedRow(existing, req) != existing
    ensures UpdatedRow(UpdatedRow(existing, req), req) == existing
  {}

  /** Creating: completed defaults to true, isJoker to false, and a zero count is dropped. */
  lemma CreateDefaults(userId: string, req: LogRequest)
    ensures var row := CreatedRow(userId, req);
      && row.userId == userId
      && (req.completed.None? ==> row.completed)
      && (req.isJoker.None? ==> !row.isJoker)
      && (row.count.Some? <==> req.count.CountNumber? && req.count.n != 0)
  {}

  /** The habit log table, one row per (habitId, day). */
  class HabitLogTable {
    var rows: map<RowKey, LogRow>

    constructor(rows: map<RowKey, LogRow>)
      ensures this.rows == rows
    {
      this.rows := rows;
    }

    /**
      * POST: refuse a request missing a field, normalise the date, then update the
      * row of (habitId, day) when there is one and create it otherwise. No other row changes.
      */
    method Post(req: LogRequest) returns (resp: PostResponse)
      modifies this
      ensures MissingField(req) ==> resp == BadRequest(MissingPostFields) && rows == old(rows)
      ensures !MissingField(req) && NormaliseDate(req.date).None? ==>
        resp == ServerError(ServerFailure) && rows == old(rows)
      ensures !MissingField(req) && NormaliseDate(req.date).Some? ==>
        var key := (req.habitId.value, NormaliseDate(req.date).value);
        var row := StoredRow(old(rows), key, req.userId.value, req);
        && rows == old(rows)[key := row]
        && resp == Saved(row)
    {
      if !Present(req.userId) || !Present(req.habitId) || !DatePresent(req.date) {
        return BadRequest(MissingPostFields);
      }
      var day: int;
      match req.date {
        case DateString(text) =>
          if !LooksLikeDateKey(text) {
            return ServerError(ServerFailure);
          }
          day := ParseDateKey(text);
        case Timestamp(millis) =>
          day := millis / MillisPerDay;
      }
      var key := (req.habitId.value, day);
      var log: LogRow;
      if key in rows {
        log := UpdatedRow(rows[key], req);
      } else {
        log := CreatedRow(req.userId.value, req);
      }
      rows := rows[key := log];
      resp := Saved(log);
    }
  }

  /** The request the dashboard sends for a click (it never sends a count). */
  function RequestOf(body: Dashboard.LogBody): LogRequest {
    LogRequest(Some(body.userId), Some(body.habitId), DateString(body.date),
      Some(body.completed), CountAbsent, Some(body.isJoker))
  }

  /**
    * A dashboard POST for day n is accepted and stored under (habitId, n) with exactly the
    * completed and joker flags of the cell the dashboard shows, whether the row existed or not.
    */
  lemma DashboardBodyStored(rows: map<RowKey, LogRow>, body: Dashboard.LogBody, n: int)
    requires body.userId != "" && body.habitId != ""
    requires body.date == FormatDateKey(n) && 1000 <= FullYear(n) <= 9999
    ensures !MissingField(RequestOf(body))
    ensures NormaliseDate(RequestOf(body).date) == Some(n)
    ensures var row := StoredRow(rows, (body.habitId, n), body.userId, RequestOf(body));
      row.completed == body.completed && row.isJoker == body.isJoker
  {
    DateKeyNormalised(n);
    assert FormatDateKey(n) != "" by {
      assert LooksLikeDateKey(FormatDateKey(n));
    }
  }

  /** Whether a row of the user at that day is selected by GET's bounds. */
  predicate Selected(row: LogRow, day: int, userId: string, startDate: Option<int>, endDate: Option<int>) {
    row.userId == userId && (startDate.Some? && endDate.Some? ==> startDate.value <= day <= endDate.value)
  }

  /**
    * GET: the user's rows, restricted to the inclusive range of days only when both
    * startDate and endDate are given (bounds that are absent or empty are None).
    */
  function GetLogs(rows: map<RowKey, LogRow>, userId: Option<string>, startDate: Option<int>, endDate: Option<int>): (r: GetResponse)
    ensures r.GetRefused? <==> !Present(userId)
    ensures r.GetRefused? ==> r.error == MissingUserId
    ensures r.Found? ==> forall k :: k in r.logs ==> k in rows && r.logs[k] == rows[k] && rows[k].userId == userId.value
  {
    if !Present(userId) then GetRefused(MissingUserId)
    else Found(map k | k in rows && Selected(rows[k], k.1, userId.value, startDate, endDate) :: rows[k])
  }

  /** Both ends of the range are included, and nothing outside it. */
  lemma GetRangeInclusive(rows: map<RowKey, LogRow>, userId: string, s: int, e: int, k: RowKey)
    requires userId != "" && k in rows && rows[k].userId == userId
    ensures k in GetLogs(rows, Some(userId), Some(s), Some(e)).logs <==> s <= k.1 <= e
  {}

  /** With a bound missing, GET returns every row of the user, whatever the other bound. */
  lemma GetOneBoundIgnored(rows: map<RowKey, LogRow>, userId: string, startDate: Option<int>, endDate: Option<int>)
    requires userId != "" && (startDate.None? || endDate.None?)
    ensures GetLogs(rows, Some(userId), startDate, endDate) == GetLogs(rows, Some(userId), None, None)
    ensures forall k :: k in rows && rows[k].userId == userId ==> k in GetLogs(rows, Some(userId), None, None).logs
  {}
}
