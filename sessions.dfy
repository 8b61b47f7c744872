/**
 * Session normalisation: every row of the physical table and of the two
 * connect tables gets a `Weekday` and an `Event Start Time` column derived
 * from its `Event Start Date` timestamp (app.py lines 26-30).
 */
module Sessions {
  import opened Wrappers

  datatype Weekday = Monday | Tuesday | Wednesday | Thursday | Friday | Saturday | Sunday

  type Hour = h: int | 0 <= h < 24
  type Minute = m: int | 0 <= m < 60
  type Second = s: int | 0 <= s < 60

  const SECONDS_PER_DAY: int := 86400

  /** A clock reading as seconds since midnight: what `.dt.time` keeps of a timestamp. */
  type TimeOfDay = t: int | 0 <= t < 86400

  /**
   * An already parsed `Event Start Date`.  The calendar date is a day number
   * counted from 1970-01-01; the clock reading is hour, minute and second.
   */
  datatype Timestamp = Timestamp(day: int, hour: Hour, minute: Minute, second: Second)

  /**
   * One row of a session sheet.  `weekday` and `startTime` are the two derived
   * columns; they are `None` until the normalisation loop has added them.
   * `governorate` is the `Governorate En` column and is read only on the
   * physical sheet.
   */
  datatype Row = Row(
    username: string,
    sessionCode: string,
    start: Timestamp,
    attendance: string,
    governorate: string,
    weekday: Option<Weekday>,
    startTime: Option<TimeOfDay>)

  /** 1970-01-01, day 0, was a Thursday. */
  function DayName(day: int): (w: Weekday)
    ensures w == Thursday <==> day % 7 == 0
  {
    [Thursday, Friday, Saturday, Sunday, Monday, Tuesday, Wednesday][day % 7]
  }

  /** The weekday that follows `w`. */
  function Next(w: Weekday): Weekday
  {
    match w
    case Monday => Tuesday
    case Tuesday => Wednesday
    case Wednesday => Thursday
    case Thursday => Friday
    case Friday => Saturday
    case Saturday => Sunday
    case Sunday => Monday
  }

  /**
   * The time of day of a timestamp; the date is discarded.  Hour, minute and
   * second can be read back from the result, so nothing but the date is lost.
   */
  function SecondsOfDay(t: Timestamp): (s: TimeOfDay)
    ensures s / 3600 == t.hour
    ensures s % 3600 / 60 == t.minute
    ensures s % 60 == t.second
  {
    t.hour * 3600 + t.minute * 60 + t.second
  }

  predicate Normalized(r: Row)
  {
    r.weekday.Some? && r.startTime.Some?
  }

  predicate AllNormalized(table: seq<Row>)
  {
    forall i :: 0 <= i < |table| ==> Normalized(table[i])
  }

  /** The two derived columns of one row, computed from its timestamp. */
  function NormalizeRow(r: Row): (n: Row)
    ensures Normalized(n)
  {
    r.(weekday := Some(DayName(r.start.day)), startTime := Some(SecondsOfDay(r.start)))
  }

  /** The table after the normalisation loop has processed it. */
  function NormalizedTable(table: seq<Row>): (n: seq<Row>)
    ensures |n| == |table| && AllNormalized(n)
  {
    seq(|table|, i requires 0 <= i < |table| => NormalizeRow(table[i]))
  }

  /** Adds the derived columns to every row of `table`, in place. */
  method NormalizeColumns(table: array<Row>)
    modifies table
    ensures table[..] == NormalizedTable(old(table[..]))
  {
    for i := 0 to table.Length
      invariant forall k :: 0 <= k < i ==> table[k] == NormalizeRow(old(table[k]))
      invariant forall k :: i <= k < table.Length ==> table[k] == old(table[k])
    {
      table[i] := NormalizeRow(table[i]);
    }
  }

  /**
   * Normalisation adds the two derived columns and leaves every other
   * column as it was; the new weekday is the name of the date and the new
   * time of day is h*3600 + m*60 + s.
   */
  lemma NormalizeKeepsColumns(r: Row)
    ensures NormalizeRow(r).username == r.username
    ensures NormalizeRow(r).sessionCode == r.sessionCode
    ensures NormalizeRow(r).start == r.start
    ensures NormalizeRow(r).attendance == r.attendance
    ensures NormalizeRow(r).governorate == r.governorate
    ensures NormalizeRow(r).weekday == Some(DayName(r.start.day))
    ensures NormalizeRow(r).startTime == Some(r.start.hour * 3600 + r.start.minute * 60 + r.start.second)
  {
  }

  /** Two timestamps get the same time of day exactly when their clock readings agree, whatever their dates. */
  lemma SameTimeOfDayIff(t1: Timestamp, t2: Timestamp)
    ensures SecondsOfDay(t1) == SecondsOfDay(t2) <==>
            t1.hour == t2.hour && t1.minute == t2.minute && t1.second == t2.second
  {
    if SecondsOfDay(t1) == SecondsOfDay(t2) {
      assert t1.hour == SecondsOfDay(t1) / 3600;
    }
  }

  /** The weekday depends on the date only, and repeats every seven days. */
  lemma {:induction false} DayNameWeekly(day: int, weeks: int)
    ensures DayName(day + 7 * weeks) == DayName(day)
  {
    assert (day + 7 * weeks) % 7 == day % 7;
  }

  /** Consecutive dates have consecutive weekdays. */
  lemma DayNameNext(day: int)
    ensures DayName(day + 1) == Next(DayName(day))
  {
    var k := day % 7;
    assert (day + 1) % 7 == if k == 6 then 0 else k + 1;
  }

  /** Running the normalisation twice gives the same table as running it once. */
  lemma NormalizeIdempotent(table: seq<Row>)
    ensures NormalizedTable(NormalizedTable(table)) == NormalizedTable(table)
  {
  }
}
