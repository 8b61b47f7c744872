/**
 * The script's pipeline once a workbook is uploaded (app.py lines 19-96,
 * without the rendering and the Excel I/O): normalise the three sheets in
 * place, find the conflicts of each level, aggregate them by governorate
 * and tabulate attendance.  The report uses the corrected aggregation and
 * tabulation; the script as written stops at the governorate groupby when
 * a level has no conflict, which the last ensures of `Run` records.
 */
module Analysis {
  import opened Wrappers
  import opened Sessions
  import opened ConflictDetection
  import opened Attendance
  import opened Regions

  datatype Report = Report(
    conflictsL1: seq<Conflict>,
    conflictsL2: seq<Conflict>,
    byGovernorate: map<string, RegionCounts>,
    attendanceL1: Summary,
    attendanceL2: Summary)

  method Run(physical: array<Row>, connectL1: array<Row>, connectL2: array<Row>) returns (report: Report)
    requires physical != connectL1 && physical != connectL2 && connectL1 != connectL2
    modifies physical, connectL1, connectL2
    ensures physical[..] == NormalizedTable(old(physical[..]))
    ensures connectL1[..] == NormalizedTable(old(connectL1[..]))
    ensures connectL2[..] == NormalizedTable(old(connectL2[..]))
    ensures report.conflictsL1 == Conflicts(connectL1[..], physical[..])
    ensures report.conflictsL2 == Conflicts(connectL2[..], physical[..])
    ensures report.byGovernorate == ConflictByGovernorate(report.conflictsL1, report.conflictsL2)
    ensures ConflictByGovernorateAsWritten(report.conflictsL1, report.conflictsL2) ==
            if report.conflictsL1 != [] && report.conflictsL2 != [] then Success(report.byGovernorate)
            else Failure(KeyError("Governorate"))
    ensures report.attendanceL1 == AnalyzeAttendance(report.conflictsL1)
    ensures report.attendanceL2 == AnalyzeAttendance(report.conflictsL2)
  {
    NormalizeColumns(physical);
    NormalizeColumns(connectL1);
    NormalizeColumns(connectL2);
    var conflictsL1 := FindConflicts(connectL1[..], physical[..]);
    var conflictsL2 := FindConflicts(connectL2[..], physical[..]);
    var byGovernorate := ConflictByGovernorate(conflictsL1, conflictsL2);
    report := Report(conflictsL1, conflictsL2, byGovernorate,
                     AnalyzeAttendance(conflictsL1), AnalyzeAttendance(conflictsL2));
  }

  // Worked cases.  Day 4 (1970-01-05) is a Monday, day 5 a Tuesday.

  function Session(user: string, code: string, day: int, hour: Hour, attendance: string, governorate: string): Row
  {
    NormalizeRow(Row(user, code, Timestamp(day, hour, 0, 0), attendance, governorate, None, None))
  }

  /** Monday 09:00 against Monday 10:00: one conflict, one hour apart, attended both. */
  lemma OneHourApartIsAttendedBoth()
    ensures var physical := [Session("S1", "P1", 4, 9, PRESENT, "Cairo")];
            var connect := [Session("S1", "C1", 4, 10, PRESENT, "")];
            var cs := Conflicts(connect, physical);
            && cs == [Conflict("S1", "Cairo", "C1", "P1", Monday, 36000, 32400, 3600, PRESENT, PRESENT)]
            && AnalyzeAttendance(cs) == Summary(1, 0, 0, 1)
  {
    var physical := [Session("S1", "P1", 4, 9, PRESENT, "Cairo")];
    var connect := [Session("S1", "C1", 4, 10, PRESENT, "")];
    assert DayName(4) == Monday;
    assert Matches(physical, "S1") == physical;
    assert connect[..0] == [];
    var cs := Conflicts(connect, physical);
    assert cs[..0] == [];
  }

  /** The connect-side conflict list of one connect row at `t` against S1's Monday 09:00 physical row. */
  function AgainstMondayNine(t: Timestamp): seq<Conflict>
  {
    Conflicts([NormalizeRow(Row("S1", "C1", t, PRESENT, "", None, None))],
              [Session("S1", "P1", 4, 9, PRESENT, "Cairo")])
  }

  /** Four hours apart, exactly 2.5 hours apart, or a Tuesday: no conflict; one second inside the window: one. */
  lemma WindowBoundaries(day: int)
    requires DayName(day) != Monday
    ensures AgainstMondayNine(Timestamp(4, 13, 0, 0)) == []
    ensures AgainstMondayNine(Timestamp(4, 11, 30, 0)) == []
    ensures |AgainstMondayNine(Timestamp(4, 11, 29, 59))| == 1
    ensures AgainstMondayNine(Timestamp(day, 9, 0, 0)) == []
  {
    var physical := [Session("S1", "P1", 4, 9, PRESENT, "Cairo")];
    assert Matches(physical, "S1") == physical;
    assert DayName(4) == Monday;
    var inside := [NormalizeRow(Row("S1", "C1", Timestamp(4, 11, 29, 59), PRESENT, "", None, None))];
    assert inside[..0] == [];
  }

  /** No wrap-around at midnight: Monday 23:00 against Monday 01:00 is 22 hours apart. */
  lemma NoMidnightWrap()
    ensures Conflicts([Session("S1", "C1", 4, 23, PRESENT, "")], [Session("S1", "P1", 4, 1, PRESENT, "Cairo")]) == []
  {
    var physical := [Session("S1", "P1", 4, 1, PRESENT, "Cairo")];
    assert Matches(physical, "S1") == physical;
  }

  /** A student without any physical row: no conflict, and no error. */
  lemma StudentWithoutPhysicalRow()
    ensures Conflicts([Session("S2", "C2", 4, 10, PRESENT, "")], [Session("S1", "P1", 4, 9, PRESENT, "Cairo")]) == []
  {
    var physical := [Session("S1", "P1", 4, 9, PRESENT, "Cairo")];
    assert Matches(physical, "S2") == [];
  }
}
