/**
 * Conflict detection between one connect table and the physical table
 * (`find_conflicts`, app.py lines 32-64).
 */
module ConflictDetection {
  import opened Wrappers
  import opened Sessions

  /** The 2.5-hour window, in seconds. */
  const WINDOW_SECONDS: int := 9000

  /** One emitted conflict; `difference` is the time difference in seconds. */
  datatype Conflict = Conflict(
    username: string,
    governorate: string,
    connectSession: string,
    physicalSession: string,
    weekday: Weekday,
    connectTime: TimeOfDay,
    physicalTime: TimeOfDay,
    difference: nat,
    connectAttendance: string,
    physicalAttendance: string)

  /** Raised when a frame is indexed by a column it does not have. */
  datatype KeyError = KeyError(column: string)

  /** The columns of `pd.DataFrame(conflicts)`: a frame built from an empty list has none. */
  function FrameColumns(conflicts: seq<Conflict>): (cols: set<string>)
    ensures conflicts == [] <==> cols == {}
  {
    if conflicts == [] then {}
    else {"Username", "Governorate", "Connect Session", "Physical Session", "Weekday",
          "Connect Time", "Physical Time", "Time Difference (hrs)", "Conflict",
          "Connect Attendance", "Physical Attendance"}
  }

  /** The rows of `physical` whose username is `username`, in table order. */
  function Matches(physical: seq<Row>, username: string): (m: seq<Row>)
    ensures |m| <= |physical|
    ensures forall r :: r in m ==> r in physical && r.username == username
  {
    if physical == [] then []
    else (if physical[0].username == username then [physical[0]] else []) + Matches(physical[1..], username)
  }

  /** `i` is the index of the first row of `physical` that belongs to `username`. */
  predicate IsFirstRow(physical: seq<Row>, username: string, i: int)
  {
    0 <= i < |physical| && physical[i].username == username &&
    forall j :: 0 <= j < i ==> physical[j].username != username
  }

  /** Absolute same-day difference of two times of day; no wrap-around at midnight. */
  function TimeDifference(a: TimeOfDay, b: TimeOfDay): (d: nat)
    ensures d < SECONDS_PER_DAY
  {
    if a >= b then a - b else b - a
  }

  /** The conflict a connect row yields against the physical table, if any. */
  function ConflictFor(c: Row, physical: seq<Row>): (r: Option<Conflict>)
    requires Normalized(c) && AllNormalized(physical)
    ensures Matches(physical, c.username) == [] ==> r.None?
    ensures r.Some? ==>
              && r.value.username == c.username
              && r.value.connectSession == c.sessionCode
              && r.value.weekday == c.weekday.value
              && r.value.connectTime == c.startTime.value
              && r.value.connectAttendance == c.attendance
              && r.value.difference < WINDOW_SECONDS
              && r.value.difference == TimeDifference(r.value.connectTime, r.value.physicalTime)
  {
    var physicalInfo := Matches(physical, c.username);
    if physicalInfo == [] then None
    else
      var p := physicalInfo[0];
      assert p in physicalInfo;
      if c.weekday.value != p.weekday.value then None
      else
        var diff := TimeDifference(c.startTime.value, p.startTime.value);
        if diff < WINDOW_SECONDS then
          Some(Conflict(c.username, p.governorate, c.sessionCode, p.sessionCode, c.weekday.value,
                        c.startTime.value, p.startTime.value, diff, c.attendance, p.attendance))
        else None
  }

  function OptionToSeq<T>(o: Option<T>): seq<T>
  {
    if o.Some? then [o.value] else []
  }

  /** The conflict list of a connect table, in connect-table order. */
  function Conflicts(connect: seq<Row>, physical: seq<Row>): (r: seq<Conflict>)
    requires AllNormalized(connect) && AllNormalized(physical)
    ensures |r| <= |connect|
  {
    if connect == [] then []
    else
      var n := |connect| - 1;
      Conflicts(connect[..n], physical) + OptionToSeq(ConflictFor(connect[n], physical))
  }

  /** `find_conflicts`: one pass over the connect rows, appending each conflict found. */
  method FindConflicts(connect: seq<Row>, physical: seq<Row>) returns (conflicts: seq<Conflict>)
    requires AllNormalized(connect) && AllNormalized(physical)
    ensures conflicts == Conflicts(connect, physical)
  {
    conflicts := [];
    for i := 0 to |connect|
      invariant conflicts == Conflicts(connect[..i], physical)
    {
      var row := connect[i];
      ConflictsStep(connect, i, physical);
      var physicalInfo := Matches(physical, row.username);
      if physicalInfo != [] {
        var physicalRow := physicalInfo[0];
        assert physicalRow in physicalInfo;
        if row.weekday.value == physicalRow.weekday.value {
          var timeDiff := TimeDifference(row.startTime.value, physicalRow.startTime.value);
          if timeDiff < WINDOW_SECONDS {
            conflicts := conflicts + [Conflict(
              row.username, physicalRow.governorate, row.sessionCode, physicalRow.sessionCode,
              row.weekday.value, row.startTime.value, physicalRow.startTime.value, timeDiff,
              row.attendance, physicalRow.attendance)];
          }
        }
      }
    }
    assert connect[..|connect|] == connect;
  }

  /** Processing connect row `i` after the rows before it. */
  lemma ConflictsStep(connect: seq<Row>, i: int, physical: seq<Row>)
    requires AllNormalized(connect) && AllNormalized(physical)
    requires 0 <= i < |connect|
    ensures AllNormalized(connect[..i]) && AllNormalized(connect[..i + 1]) && Normalized(connect[i])
    ensures Conflicts(connect[..i + 1], physical) ==
            Conflicts(connect[..i], physical) + OptionToSeq(ConflictFor(connect[i], physical))
  {
    assert connect[..i + 1][..i] == connect[..i];
  }

  /** Filtering a concatenation filters each part. */
  lemma {:induction false} MatchesAppend(p: seq<Row>, q: seq<Row>, username: string)
    ensures Matches(p + q, username) == Matches(p, username) + Matches(q, username)
  {
    if p == [] {
      assert p + q == q;
    } else {
      var head := if p[0].username == username then [p[0]] else [];
      assert (p + q)[0] == p[0];
      assert (p + q)[1..] == p[1..] + q;
      MatchesAppend(p[1..], q, username);
      calc {
        Matches(p + q, username);
        head + Matches(p[1..] + q, username);
        head + (Matches(p[1..], username) + Matches(q, username));
        (head + Matches(p[1..], username)) + Matches(q, username);
      }
    }
  }

  /**
   * `physical_info` is empty exactly when no physical row has the username,
   * and otherwise its first row is the first such row in table order.
   */
  lemma {:induction false} MatchesHead(physical: seq<Row>, username: string)
    ensures Matches(physical, username) == [] <==>
            forall j :: 0 <= j < |physical| ==> physical[j].username != username
    ensures Matches(physical, username) != [] ==>
            exists i :: IsFirstRow(physical, username, i) && Matches(physical, username)[0] == physical[i]
  {
    if physical != [] {
      MatchesHead(physical[1..], username);
      if physical[0].username == username {
        assert IsFirstRow(physical, username, 0);
      } else if Matches(physical, username) != [] {
        var i :| IsFirstRow(physical[1..], username, i) && Matches(physical[1..], username)[0] == physical[1..][i];
        assert IsFirstRow(physical, username, i + 1);
      } else {
        forall j | 0 <= j < |physical| ensures physical[j].username != username {
          if j > 0 { assert physical[j] == physical[1..][j - 1]; }
        }
      }
    }
  }

  /** The first row of a student determines everything `find_conflicts` reads on the physical side. */
  lemma FirstRowUnique(physical: seq<Row>, username: string, i: int, k: int)
    requires IsFirstRow(physical, username, i) && IsFirstRow(physical, username, k)
    ensures i == k
  {
  }

  /**
   * The conflict rule, stated against the student's first physical row `i`:
   * a conflict is emitted iff the weekdays agree and the times are strictly
   * less than 2.5 hours apart; the record copies the connect row and that
   * physical row.
   */
  lemma ConflictRule(c: Row, physical: seq<Row>, i: int)
    requires Normalized(c) && AllNormalized(physical)
    requires IsFirstRow(physical, c.username, i)
    ensures physical[i].weekday.Some? && physical[i].startTime.Some?
    ensures ConflictFor(c, physical).Some? <==>
            c.weekday == physical[i].weekday &&
            TimeDifference(c.startTime.value, physical[i].startTime.value) < WINDOW_SECONDS
    ensures ConflictFor(c, physical).Some? ==>
            var r := ConflictFor(c, physical).value;
            && r.username == c.username
            && r.governorate == physical[i].governorate
            && r.connectSession == c.sessionCode
            && r.physicalSession == physical[i].sessionCode
            && r.weekday == c.weekday.value == physical[i].weekday.value
            && r.connectTime == c.startTime.value
            && r.physicalTime == physical[i].startTime.value
            && r.difference == TimeDifference(c.startTime.value, physical[i].startTime.value) < WINDOW_SECONDS
            && r.connectAttendance == c.attendance
            && r.physicalAttendance == physical[i].attendance
  {
    assert physical[i] in physical;
    MatchesHead(physical, c.username);
    var k :| IsFirstRow(physical, c.username, k) && Matches(physical, c.username)[0] == physical[k];
    FirstRowUnique(physical, c.username, i, k);
  }

  /** A connect row whose student has no physical row yields no conflict: no error either, since the result is total. */
  lemma NoPhysicalRowNoConflict(connect: seq<Row>, c: Row, physical: seq<Row>)
    requires AllNormalized(connect) && Normalized(c) && AllNormalized(physical)
    requires forall j :: 0 <= j < |physical| ==> physical[j].username != c.username
    ensures Conflicts(connect + [c], physical) == Conflicts(connect, physical)
  {
    MatchesHead(physical, c.username);
    assert (connect + [c])[..|connect|] == connect;
  }

  /** Weekday gate: a connect row on another weekday than the student's first physical row adds nothing, whatever the times. */
  lemma WeekdayGate(connect: seq<Row>, c: Row, physical: seq<Row>, i: int)
    requires AllNormalized(connect) && Normalized(c) && AllNormalized(physical)
    requires IsFirstRow(physical, c.username, i) && physical[i].weekday != c.weekday
    ensures Conflicts(connect + [c], physical) == Conflicts(connect, physical)
  {
    ConflictRule(c, physical, i);
    assert (connect + [c])[..|connect|] == connect;
  }

  /**
   * Strict window: on a shared weekday, the connect row adds one record
   * exactly when the plain same-day difference is under 9000 seconds, and
   * adds nothing otherwise (in particular at exactly 2.5 hours).
   */
  lemma StrictWindow(connect: seq<Row>, c: Row, physical: seq<Row>, i: int)
    requires AllNormalized(connect) && Normalized(c) && AllNormalized(physical)
    requires IsFirstRow(physical, c.username, i) && physical[i].weekday == c.weekday
    ensures TimeDifference(c.startTime.value, physical[i].startTime.value) < WINDOW_SECONDS ==>
            |Conflicts(connect + [c], physical)| == |Conflicts(connect, physical)| + 1
    ensures TimeDifference(c.startTime.value, physical[i].startTime.value) >= WINDOW_SECONDS ==>
            Conflicts(connect + [c], physical) == Conflicts(connect, physical)
  {
    ConflictRule(c, physical, i);
    assert (connect + [c])[..|connect|] == connect;
  }

  /** The difference is symmetric and is computed on one reference day: 23:00 against 01:00 is 22 hours. */
  lemma TimeDifferenceFacts(a: TimeOfDay, b: TimeOfDay)
    ensures TimeDifference(a, b) == TimeDifference(b, a)
    ensures TimeDifference(a, b) == 0 <==> a == b
    ensures TimeDifference(23 * 3600, 1 * 3600) == 22 * 3600
  {
  }

  /** The test on seconds is the source's test on hours: a difference is under 2.5 hours iff it is under 9000 seconds. */
  lemma WindowInHours(a: TimeOfDay, b: TimeOfDay)
    ensures (TimeDifference(a, b) as real) / 3600.0 < 2.5 <==> TimeDifference(a, b) < WINDOW_SECONDS
  {
    var d := TimeDifference(a, b) as real;
    assert d / 3600.0 < 2.5 <==> d < 9000.0;
  }

  /** Conflicts of a concatenation of connect tables. */
  lemma {:induction false} ConflictsAppend(a: seq<Row>, b: seq<Row>, physical: seq<Row>)
    requires AllNormalized(a) && AllNormalized(b) && AllNormalized(physical)
    ensures AllNormalized(a + b)
    ensures Conflicts(a + b, physical) == Conflicts(a, physical) + Conflicts(b, physical)
  {
    if b == [] {
      assert a + b == a;
    } else {
      var n := |b| - 1;
      var ab := a + b;
      var m := |a| + n;
      var tail := OptionToSeq(ConflictFor(b[n], physical));
      assert ab[..m] == a + b[..n];
      assert ab[m] == b[n];
      assert ab[..m + 1] == ab;
      assert b[..n + 1] == b;
      ConflictsStep(ab, m, physical);
      ConflictsStep(b, n, physical);
      ConflictsAppend(a, b[..n], physical);
      calc {
        Conflicts(ab, physical);
        Conflicts(a + b[..n], physical) + tail;
        Conflicts(a, physical) + Conflicts(b[..n], physical) + tail;
        Conflicts(a, physical) + Conflicts(b, physical);
      }
    }
  }

  /** The indices of the connect rows that yield a conflict, in increasing order. */
  function Origins(connect: seq<Row>, physical: seq<Row>): seq<nat>
    requires AllNormalized(connect) && AllNormalized(physical)
  {
    if connect == [] then []
    else
      var n := |connect| - 1;
      Origins(connect[..n], physical) + (if ConflictFor(connect[n], physical).Some? then [n] else [])
  }

  /**
   * Output shape: the k-th conflict is the record of the connect row
   * `Origins[k]`, the origins increase strictly, and a connect row is an
   * origin exactly when it yields a conflict.  So the list preserves
   * connect-table order and holds one record per conflicting row.
   */
  lemma ConflictsPreserveOrder(connect: seq<Row>, physical: seq<Row>)
    requires AllNormalized(connect) && AllNormalized(physical)
    ensures |Origins(connect, physical)| == |Conflicts(connect, physical)|
    ensures forall k :: 0 <= k < |Origins(connect, physical)| ==>
              Origins(connect, physical)[k] < |connect| &&
              ConflictFor(connect[Origins(connect, physical)[k]], physical) == Some(Conflicts(connect, physical)[k])
    ensures forall k, l :: 0 <= k < l < |Origins(connect, physical)| ==>
              Origins(connect, physical)[k] < Origins(connect, physical)[l]
    ensures forall i :: 0 <= i < |connect| ==>
              (i in Origins(connect, physical) <==> ConflictFor(connect[i], physical).Some?)
  {
    OriginsRecords(connect, physical);
    OriginsIncrease(connect, physical);
    OriginsComplete(connect, physical);
  }

  lemma {:induction false} OriginsRecords(connect: seq<Row>, physical: seq<Row>)
    requires AllNormalized(connect) && AllNormalized(physical)
    ensures |Origins(connect, physical)| == |Conflicts(connect, physical)|
    ensures forall k :: 0 <= k < |Origins(connect, physical)| ==>
              Origins(connect, physical)[k] < |connect| &&
              ConflictFor(connect[Origins(connect, physical)[k]], physical) == Some(Conflicts(connect, physical)[k])
  {
    if connect != [] {
      var n := |connect| - 1;
      var prefix := connect[..n];
      OriginsRecords(prefix, physical);
      ConflictsStep(connect, n, physical);
      forall k | 0 <= k < |Origins(prefix, physical)|
        ensures connect[Origins(prefix, physical)[k]] == prefix[Origins(prefix, physical)[k]]
      {
      }
    }
  }

  lemma {:induction false} OriginsIncrease(connect: seq<Row>, physical: seq<Row>)
    requires AllNormalized(connect) && AllNormalized(physical)
    ensures forall k :: 0 <= k < |Origins(connect, physical)| ==> Origins(connect, physical)[k] < |connect|
    ensures forall k, l :: 0 <= k < l < |Origins(connect, physical)| ==>
              Origins(connect, physical)[k] < Origins(connect, physical)[l]
  {
    if connect != [] {
      OriginsIncrease(connect[..|connect| - 1], physical);
    }
  }

  lemma {:induction false} OriginsComplete(connect: seq<Row>, physical: seq<Row>)
    requires AllNormalized(connect) && AllNormalized(physical)
    ensures forall i :: 0 <= i < |connect| ==>
              (i in Origins(connect, physical) <==> ConflictFor(connect[i], physical).Some?)
  {
    if connect != [] {
      var n := |connect| - 1;
      var prefix := connect[..n];
      var before := Origins(prefix, physical);
      var tail := if ConflictFor(connect[n], physical).Some? then [n] else [];
      assert Origins(connect, physical) == before + tail;
      OriginsComplete(prefix, physical);
      OriginsIncrease(prefix, physical);
      assert n !in before;
      forall i | 0 <= i < |connect|
        ensures i in before + tail <==> ConflictFor(connect[i], physical).Some?
      {
        if i < n {
          assert connect[i] == prefix[i];
          assert i in before + tail <==> i in before;
        } else {
          assert i in before + tail <==> i in tail;
        }
      }
    }
  }

  /**
   * First match only: a physical row of a student who already has an earlier
   * physical row never changes the conflict list.
   */
  lemma LaterRowIgnored(connect: seq<Row>, p1: seq<Row>, x: Row, p2: seq<Row>)
    requires AllNormalized(connect) && AllNormalized(p1) && Normalized(x) && AllNormalized(p2)
    requires exists j :: 0 <= j < |p1| && p1[j].username == x.username
    ensures AllNormalized(p1 + [x] + p2) && AllNormalized(p1 + p2)
    ensures Conflicts(connect, p1 + [x] + p2) == Conflicts(connect, p1 + p2)
  {
    forall c | c in connect ensures ConflictFor(c, p1 + [x] + p2) == ConflictFor(c, p1 + p2) {
      LaterRowIgnoredOne(c, p1, x, p2);
    }
    ConflictsCongruent(connect, p1 + [x] + p2, p1 + p2);
  }

  lemma LaterRowIgnoredOne(c: Row, p1: seq<Row>, x: Row, p2: seq<Row>)
    requires Normalized(c) && AllNormalized(p1) && Normalized(x) && AllNormalized(p2)
    requires exists j :: 0 <= j < |p1| && p1[j].username == x.username
    ensures AllNormalized(p1 + [x] + p2) && AllNormalized(p1 + p2)
    ensures ConflictFor(c, p1 + [x] + p2) == ConflictFor(c, p1 + p2)
  {
    LaterRowSameHead(p1, x, p2, c.username);
    ConflictForSameHead(c, p1 + [x] + p2, p1 + p2);
  }

  /** Inserting a row of a student who already has one leaves every selection's emptiness and first element as they were. */
  lemma LaterRowSameHead(p1: seq<Row>, x: Row, p2: seq<Row>, u: string)
    requires exists j :: 0 <= j < |p1| && p1[j].username == x.username
    ensures Matches(p1 + [x] + p2, u) == [] <==> Matches(p1 + p2, u) == []
    ensures Matches(p1 + [x] + p2, u) != [] ==> Matches(p1 + [x] + p2, u)[0] == Matches(p1 + p2, u)[0]
  {
    MatchesAppend(p1 + [x], p2, u);
    MatchesAppend(p1, [x], u);
    MatchesAppend(p1, p2, u);
    MatchesHead(p1, x.username);
    if Matches(p1, u) == [] {
      assert u != x.username;
      assert Matches([x], u) == [] by { assert [x][1..] == []; }
    }
  }

  /** `find_conflicts` reads nothing of the physical table but the first matching row. */
  lemma ConflictForSameHead(c: Row, p: seq<Row>, q: seq<Row>)
    requires Normalized(c) && AllNormalized(p) && AllNormalized(q)
    requires Matches(p, c.username) == [] <==> Matches(q, c.username) == []
    requires Matches(p, c.username) != [] ==> Matches(p, c.username)[0] == Matches(q, c.username)[0]
    ensures ConflictFor(c, p) == ConflictFor(c, q)
  {
  }

  /** Two physical tables that yield the same conflict for every connect row yield the same list. */
  lemma {:induction false} ConflictsCongruent(connect: seq<Row>, p: seq<Row>, q: seq<Row>)
    requires AllNormalized(connect) && AllNormalized(p) && AllNormalized(q)
    requires forall c :: c in connect ==> ConflictFor(c, p) == ConflictFor(c, q)
    ensures Conflicts(connect, p) == Conflicts(connect, q)
  {
    if connect != [] {
      var n := |connect| - 1;
      assert connect[n] in connect;
      ConflictsCongruent(connect[..n], p, q);
    }
  }
}
