# Conflict & Attendance Analysis — verified model

This project models the core of a small Streamlit tool that finds timetable
conflicts between a student's *physical* sessions and *connect* (online)
sessions on two curriculum levels (L1, L2). It then tabulates attendance and
counts the conflicts per governorate. The model covers four parts:

* **Session normalisation** (`sessions.dfy`, module `Sessions`). Each row of
  the three sheets gets a `Weekday` and an `Event Start Time` column, added in
  place (`NormalizeColumns` on an `array<Row>`). A timestamp is a day number
  counted from 1970-01-01, plus hour, minute and second. The weekday depends
  only on the day number. The time of day depends only on the clock reading,
  as whole seconds in `[0, 86400)`.
* **Conflict detection** (`conflicts.dfy`, module `ConflictDetection`). This
  is `find_conflicts`. `FindConflicts` is the source's loop over the connect
  rows. It is proved equal to the function `Conflicts`. The properties are
  lemmas about `Conflicts` and the per-row rule `ConflictFor`:
  * only the student's first physical row is used;
  * the weekdays must be equal;
  * the time difference must be strictly under 9000 seconds (2.5 hours);
  * the difference is taken on one reference day, with no wrap-around at
    midnight;
  * a student with no physical row yields nothing and raises no error;
  * the output keeps the order of the connect table.
* **Attendance tabulation** (`attendance.dfy`, module `Attendance`). This is
  `analyze_attendance`: the total and three Present/Absent buckets that never
  overlap.
* **Governorate aggregation** (`regions.dfy`, module `Regions`). This is
  `groupby("Governorate").size()` for each level, followed by an outer merge
  with zero fill.

`analysis.dfy` (module `Analysis`) chains these steps in the script's order
once a workbook is uploaded. It uses the corrected aggregation and
tabulation, and its contract also records when the script as written stops
instead (see Findings). It also holds worked examples: one hour apart,
exactly 2.5 hours apart, another weekday, 23:00 against 01:00, and a student
without a physical row. `wrappers.dfy` defines `Option` and `Result`.

The code defines no error types of its own: a missing sheet or column, or a
timestamp that does not parse, raises pandas' own exception. The governorate
aggregation and the attendance tabulation fail on a level with no conflict
(see Findings).

## Model

| member | source | states |
|---|---|---|
| Sessions.DayName | app.py:28 | day 0 of the day count, 1970-01-01, and every date a multiple of seven days from it, is a Thursday |
| Sessions.SecondsOfDay | app.py:29-30 | the time of day lies in [0, 86400) and hour, minute and second can be read back from it, so only the date is dropped |
| Sessions.SameTimeOfDayIff | app.py:29-30 | two timestamps get the same time of day exactly when their hour, minute and second agree, whatever their dates |
| Sessions.DayNameWeekly | app.py:28 | the weekday is a function of the date alone and repeats every seven days |
| Sessions.DayNameNext | app.py:28 | consecutive dates have consecutive weekday names |
| Sessions.NormalizeRow | app.py:27-30 | a normalised row carries both derived columns |
| Sessions.NormalizeKeepsColumns | app.py:26-30 | normalisation leaves username, session code, timestamp, attendance and governorate unchanged, sets the weekday to the name of the date and the time to h*3600 + m*60 + s |
| Sessions.NormalizedTable | app.py:26-30 | the normalised table has the same length and every row carries both derived columns |
| Sessions.NormalizeColumns | app.py:26-30 | the array is normalised in place, each row as NormalizeRow says |
| Sessions.NormalizeIdempotent | app.py:26-30 | normalising an already normalised table changes nothing |
| ConflictDetection.FrameColumns | app.py:64 | the frame built from the conflict list has no columns exactly when the list is empty |
| ConflictDetection.Matches | app.py:39 | the rows selected for a username all come from the physical table, all have that username, and are no more than the table's rows |
| ConflictDetection.MatchesAppend | app.py:39 | selecting rows from a concatenation selects from each part, in order |
| ConflictDetection.MatchesHead | app.py:39-41 | the selection is empty iff no physical row has the username; otherwise its first element is the first such row in table order |
| ConflictDetection.TimeDifference | app.py:48-49 | the difference of two times of day is under one day |
| ConflictDetection.TimeDifferenceFacts | app.py:48-49 | the difference is symmetric, zero only for equal times, and 23:00 against 01:00 is 22 hours |
| ConflictDetection.WindowInHours | app.py:48-50 | a difference is under 2.5 hours exactly when it is under 9000 seconds, so the integer test is the source's test |
| ConflictDetection.ConflictFor | app.py:39-63 | a connect row without a physical row yields nothing; an emitted record carries the connect row's username, session code, weekday, time and attendance, and a difference under 9000 s between its two times |
| ConflictDetection.ConflictRule | app.py:39-63 | given the student's first physical row, a conflict is emitted iff the weekdays are equal and the difference is under 9000 s; the record copies username, session codes, weekday, both times, both attendances and the governorate of that physical row |
| ConflictDetection.NoPhysicalRowNoConflict | app.py:39-40 | a connect row whose username has no physical row adds nothing to the conflict list |
| ConflictDetection.WeekdayGate | app.py:47 | a connect row on another weekday than the student's first physical row adds nothing, whatever the times |
| ConflictDetection.StrictWindow | app.py:48-50 | on the same weekday, a connect row adds one record when the difference is under 9000 s and adds nothing at 9000 s or more |
| ConflictDetection.Conflicts | app.py:33-64 | there are at most as many conflicts as connect rows |
| ConflictDetection.FindConflicts | app.py:32-64 | the loop over the connect rows returns exactly the conflict list `Conflicts` |
| ConflictDetection.ConflictsAppend | app.py:34 | the conflicts of two connect tables joined are the conflicts of the first followed by those of the second |
| ConflictDetection.ConflictsPreserveOrder | app.py:34-63 | the k-th conflict is the record of a connect row at a strictly increasing index, and a connect row appears iff it yields a conflict |
| ConflictDetection.LaterRowIgnored | app.py:39-45 | a physical row of a student who already has an earlier physical row never changes the conflict list |
| Attendance.ConnectOnly | app.py:71-72 | a conflict attended on the connect side only is Present on the connect side and has different values on the two sides, so physical is not Present |
| Attendance.PhysicalOnly | app.py:73-74 | a conflict attended on the physical side only is Present on the physical side, is not attended on the connect side only, and its two attendance values differ |
| Attendance.AttendedBoth | app.py:75-76 | a conflict attended on both sides has Present on both and is in neither single-side bucket |
| Attendance.Count | app.py:71-76 | a masked count is at most the number of rows and is zero iff no row matches the mask |
| Attendance.AnalyzeAttendance | app.py:69-82 | Total Conflicts is the list length; Connect Only is 0 iff no conflict is connect Present/physical Absent, Physical Only is 0 iff none is Absent/Present, Attended Both is 0 iff none is Present/Present; the three buckets add up to at most the total |
| Attendance.BucketsExclusive | app.py:71-76 | no conflict falls into two buckets; a conflict falls into none iff it is Absent/Absent or has a value other than Present and Absent |
| Attendance.BucketsPartition | app.py:70-82 | the three bucket counts plus the unclassified count equal Total Conflicts |
| Attendance.BucketsSumIff | app.py:70-82 | the buckets add up to Total Conflicts iff every conflict is classified |
| Attendance.AnalyzeAttendanceAsWritten | app.py:69-82 | as written, the tabulation succeeds iff the conflict list is non-empty, and then returns the four counts of the corrected tabulation |
| Attendance.CountSnoc | app.py:71-76 | appending a conflict raises a masked count by one exactly when the mask selects it |
| Attendance.BucketsSnoc | app.py:71-76 | appending a conflict raises exactly the buckets that select it by one |
| Attendance.TabulationExample | app.py:69-82 | a Present/Absent, an Absent/Present and an Absent/Absent conflict tabulate as 3 total, 1 Connect Only, 1 Physical Only, 0 Both |
| Attendance.TabulationUneven | app.py:69-82 | two Present/Absent, one Absent/Present, one Present/Present and one Absent/Absent conflict tabulate as 5, 2, 1, 1 |
| Attendance.EmptyLevelAttendance | app.py:69-82 | with no conflicts the as-written tabulation raises KeyError and the corrected one reports four zeros |
| Regions.CountIn | app.py:84-85 | a governorate's count is at most the list length and is positive iff the governorate occurs in the list |
| Regions.GroupSizes | app.py:84-85 | the group sizes have exactly the governorates of the list as keys, each with a count of at least 1 |
| Regions.GroupSizesAsWritten | app.py:84-85 | as written, the groupby succeeds iff the conflict list is non-empty |
| Regions.MergeOuter | app.py:86 | the merged table's governorates are those of either side |
| Regions.ConflictByGovernorate | app.py:84-86 | exactly the governorates of either level appear, each with its number of L1 and L2 conflicts, 0 where it does not occur |
| Regions.ConflictByGovernorateAsWritten | app.py:84-86 | as written, the aggregate is produced iff both levels have at least one conflict |
| Regions.RegionOuterJoin | app.py:84-86 | no governorate appears with both counts 0, and a governorate that does not appear has no conflict in either level |
| Regions.AsWrittenAgrees | app.py:84-86 | when both levels have conflicts, the as-written and corrected aggregates agree |
| Regions.EmptyLevelRegions | app.py:84-86 | with no L1 conflicts the as-written aggregate raises KeyError, while the corrected one lists the L2 governorates with L1 count 0 |
| Regions.ColumnSums | app.py:84-86 | over the aggregate's governorates, each listed once, the L1 column sums to the number of L1 conflicts and the L2 column to the number of L2 conflicts |
| Analysis.Run | app.py:26-96 | the three sheets are normalised in place, the conflicts of each level are `Conflicts` of the normalised sheets, the corrected aggregate and summaries are computed from them, and the aggregate as written fails exactly when a level has no conflict |
| Analysis.OneHourApartIsAttendedBoth | app.py:32-82 | Monday 09:00 physical against Monday 10:00 connect, both Present: one conflict 3600 s apart, counted under Attended Both |
| Analysis.WindowBoundaries | app.py:47-50 | 4 h apart and exactly 2.5 h apart give no conflict, one second under 2.5 h gives one, and another weekday gives none |
| Analysis.NoMidnightWrap | app.py:48-50 | Monday 23:00 against Monday 01:00 gives no conflict |
| Analysis.StudentWithoutPhysicalRow | app.py:39-40 | a student with no physical row gets no conflict |

## Left out

- The Streamlit page (app.py:1-18, 88-93, 103-104, 114-119) is presentation only.
- Reading the workbook and writing the result workbook (app.py:20-24, 106-112) are I/O through pandas and xlsxwriter. The three sheets are given as sequences of rows.
- Parsing and formatting timestamps (`pd.to_datetime`, `dt.day_name`, `strftime`, `errors="coerce"`, app.py:27-30) are library calls. A row carries an already parsed timestamp whose date is a day number.
- The name-by-name layout of the attendance table (app.py:97-102) is presentation. `Analysis.Report` holds the two summaries it is built from.
- The row order of the governorate table is not modelled. pandas sorts it by governorate; the model gives a map from governorate to its counts.
- ConflictDetection.TimeDifference: the stored difference is whole seconds, not hours rounded to two decimals (app.py:49, 59), because that step is floating point. The 2.5-hour test is the same test on seconds, `< 9000`.
- `datetime.today()` is called twice, once for each operand of the subtraction (app.py:48-49). The model takes both calls to return the same date, so the date cancels out. A run in which the two calls straddle midnight is not modelled: there the two dates differ by one day and the difference is off by 86400 s. ConflictDetection.TimeDifferenceFacts and ConflictDetection.StrictWindow hold under that assumption.
- The unused `level` argument (app.py:32) and the constant `"Conflict": "True"` column (app.py:60) are not fields of a conflict record. `FrameColumns` still lists the column.
- Count column types (app.py:86): where a governorate is missing from one level, the outer merge puts NaN in that level's count column, which makes it a float column; `fillna(0)` replaces the NaN but keeps the column float. A column with no missing governorate stays integer. The model uses natural numbers for every count.
- ConflictDetection.FindConflicts: its callers must pass normalised rows. In the source, rows without the derived columns raise a KeyError when they are read; the script always normalises first.
- Connect sheets have no `Governorate En` column. A connect `Row` still has a `governorate` field, which nothing reads.
- Analysis.Run: the report holds the corrected governorate aggregate and attendance summaries. The script as written stops with a KeyError at app.py:84-85 when a level has no conflict; `Run` states that case only through `ConflictByGovernorateAsWritten` in its contract.
- Missing cells (NaN, NaT) are not modelled. Every username, governorate and timestamp has a value. In the source, a NaN username never matches (app.py:39). An empty `Event Start Date` becomes NaT (app.py:27), so its weekday is NaN and `connect_day == physical_day` (app.py:47) is false; that connect row silently yields nothing. A conflict whose physical row has an empty `Governorate En` cell is dropped by `groupby` (app.py:84-85, `dropna=True`).
- Regions.ColumnSums: the column sums equal the list lengths only because no governorate is missing. In the source, conflicts with an empty governorate cell are in no group, so a column can sum to less.
- Analysis.Run: the three sheets must be three distinct arrays, as they are three separate sheets in the source.

## Findings

| source | as written | input that shows it | evidently intended | confidence | as-written member | corrected member |
|---|---|---|---|---|---|---|
| app.py:84-85 | `find_conflicts` returns `pd.DataFrame([])` when no conflict is found. That frame has no columns, so `groupby("Governorate")` raises KeyError and the run stops. | A `Connect Sessions L1` sheet none of whose rows conflicts, for example an empty sheet (`Regions.EmptyLevelRegions`) | The level contributes a count of 0 to every governorate | not executed | Regions.ConflictByGovernorateAsWritten | Regions.ConflictByGovernorate |
| app.py:69-71 | `analyze_attendance` on the same column-less frame raises KeyError at `conflicts["Connect Attendance"]`. In the script this is hidden behind the groupby failure above. | A level with no conflicts (`Attendance.EmptyLevelAttendance`) | Four zero counts | not executed | Attendance.AnalyzeAttendanceAsWritten | Attendance.AnalyzeAttendance |
