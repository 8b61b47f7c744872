/**
 * Attendance tabulation over one level's conflict list
 * (`analyze_attendance`, app.py lines 69-82).
 */
module Attendance {
  import opened Wrappers
  import opened Sessions
  import opened ConflictDetection

  const PRESENT: string := "Present"
  const ABSENT: string := "Absent"

  /** "Attended Connect Only": connect Present, physical Absent. */
  predicate ConnectOnly(c: Conflict): (b: bool)
    ensures b ==> c.connectAttendance == PRESENT
    ensures b ==> c.connectAttendance != c.physicalAttendance
  {
    c.connectAttendance == PRESENT && c.physicalAttendance == ABSENT
  }

  /** "Attended Physical Only": connect Absent, physical Present. */
  predicate PhysicalOnly(c: Conflict): (b: bool)
    ensures b ==> c.physicalAttendance == PRESENT
    ensures b ==> !ConnectOnly(c) && c.connectAttendance != c.physicalAttendance
  {
    c.connectAttendance == ABSENT && c.physicalAttendance == PRESENT
  }

  /** "Attended Both": both Present. */
  predicate AttendedBoth(c: Conflict): (b: bool)
    ensures b ==> c.connectAttendance == c.physicalAttendance == PRESENT
    ensures b ==> !ConnectOnly(c) && !PhysicalOnly(c)
  {
    c.connectAttendance == PRESENT && c.physicalAttendance == PRESENT
  }

  /** A conflict that none of the three filters selects. */
  predicate Unclassified(c: Conflict)
  {
    !ConnectOnly(c) && !PhysicalOnly(c) && !AttendedBoth(c)
  }

  /** The number of rows a boolean mask selects (`conflicts[mask].shape[0]`). */
  function Count(cs: seq<Conflict>, keep: Conflict -> bool): (n: nat)
    ensures n <= |cs|
    ensures n == 0 <==> forall k :: 0 <= k < |cs| ==> !keep(cs[k])
  {
    if cs == [] then 0
    else Count(cs[..|cs| - 1], keep) + (if keep(cs[|cs| - 1]) then 1 else 0)
  }

  datatype Summary = Summary(total: nat, connectOnly: nat, physicalOnly: nat, both: nat)

  /**
   * The four categories of the attendance table.  Each bucket is empty
   * exactly when no conflict has its pair of values, and the three
   * buckets never overlap, so together they are at most the total.
   */
  function AnalyzeAttendance(cs: seq<Conflict>): (s: Summary)
    ensures s.total == |cs|
    ensures s.connectOnly == 0 <==>
            forall k :: 0 <= k < |cs| ==> !(cs[k].connectAttendance == PRESENT && cs[k].physicalAttendance == ABSENT)
    ensures s.physicalOnly == 0 <==>
            forall k :: 0 <= k < |cs| ==> !(cs[k].connectAttendance == ABSENT && cs[k].physicalAttendance == PRESENT)
    ensures s.both == 0 <==>
            forall k :: 0 <= k < |cs| ==> !(cs[k].connectAttendance == PRESENT && cs[k].physicalAttendance == PRESENT)
    ensures s.connectOnly + s.physicalOnly + s.both <= s.total
  {
    BucketsPartition(cs);
    Summary(|cs|, Count(cs, ConnectOnly), Count(cs, PhysicalOnly), Count(cs, AttendedBoth))
  }

  /** `analyze_attendance` as written: indexing a frame that has no columns raises. */
  function AnalyzeAttendanceAsWritten(cs: seq<Conflict>): (r: Result<Summary, KeyError>)
    ensures r.Success? <==> cs != []
    ensures r.Success? ==> r.value == AnalyzeAttendance(cs)
  {
    if "Connect Attendance" !in FrameColumns(cs) then Failure(KeyError("Connect Attendance"))
    else Success(AnalyzeAttendance(cs))
  }

  /** Each conflict falls into at most one bucket; Absent/Absent and any other value fall into none. */
  lemma BucketsExclusive(c: Conflict)
    ensures !(ConnectOnly(c) && PhysicalOnly(c))
    ensures !(ConnectOnly(c) && AttendedBoth(c))
    ensures !(PhysicalOnly(c) && AttendedBoth(c))
    ensures Unclassified(c) <==>
            (c.connectAttendance == ABSENT && c.physicalAttendance == ABSENT) ||
            c.connectAttendance !in {PRESENT, ABSENT} || c.physicalAttendance !in {PRESENT, ABSENT}
  {
  }

  /** The three buckets and the unclassified rest partition the conflict list. */
  lemma {:induction false} BucketsPartition(cs: seq<Conflict>)
    ensures Count(cs, ConnectOnly) + Count(cs, PhysicalOnly) + Count(cs, AttendedBoth) + Count(cs, Unclassified) == |cs|
  {
    if cs != [] {
      BucketsPartition(cs[..|cs| - 1]);
    }
  }

  /**
   * The buckets add up to the total exactly when every conflict is
   * classified; one Absent/Absent or non-standard row leaves the sum short.
   */
  lemma BucketsSumIff(cs: seq<Conflict>)
    ensures var s := AnalyzeAttendance(cs);
            s.connectOnly + s.physicalOnly + s.both == s.total <==>
            forall k :: 0 <= k < |cs| ==> !Unclassified(cs[k])
  {
    BucketsPartition(cs);
  }

  /** A level without conflicts: the as-written function raises, the corrected one reports zeros. */
  lemma EmptyLevelAttendance()
    ensures AnalyzeAttendanceAsWritten([]) == Failure(KeyError("Connect Attendance"))
    ensures AnalyzeAttendance([]) == Summary(0, 0, 0, 0)
  {
  }

  /** Appending one conflict adds it to the one bucket, if any, its values select. */
  lemma CountSnoc(cs: seq<Conflict>, c: Conflict, keep: Conflict -> bool)
    ensures Count(cs + [c], keep) == Count(cs, keep) + (if keep(c) then 1 else 0)
  {
    assert (cs + [c])[..|cs|] == cs;
  }

  /** CountSnoc for the three buckets at once. */
  lemma BucketsSnoc(cs: seq<Conflict>, c: Conflict)
    ensures AnalyzeAttendance(cs + [c]).connectOnly == AnalyzeAttendance(cs).connectOnly + (if ConnectOnly(c) then 1 else 0)
    ensures AnalyzeAttendance(cs + [c]).physicalOnly == AnalyzeAttendance(cs).physicalOnly + (if PhysicalOnly(c) then 1 else 0)
    ensures AnalyzeAttendance(cs + [c]).both == AnalyzeAttendance(cs).both + (if AttendedBoth(c) then 1 else 0)
  {
    CountSnoc(cs, c, ConnectOnly);
    CountSnoc(cs, c, PhysicalOnly);
    CountSnoc(cs, c, AttendedBoth);
  }

  /** A conflict of `student` with the given connect and physical attendance values. */
  function Attended(student: string, connect: string, physical: string): Conflict
  {
    Conflict(student, "Cairo", "C1", "P1", Monday, 32400, 36000, 3600, connect, physical)
  }

  /** Worked case: one conflict of each single-side pair and one Absent/Absent. */
  lemma TabulationExample()
    ensures AnalyzeAttendance([Attended("a", PRESENT, ABSENT), Attended("b", ABSENT, PRESENT),
                               Attended("c", ABSENT, ABSENT)]) == Summary(3, 1, 1, 0)
  {
    var a, b, c := Attended("a", PRESENT, ABSENT), Attended("b", ABSENT, PRESENT), Attended("c", ABSENT, ABSENT);
    BucketsSnoc([], a);
    assert [] + [a] == [a];
    BucketsSnoc([a], b);
    assert [a] + [b] == [a, b];
    BucketsSnoc([a, b], c);
    assert [a, b] + [c] == [a, b, c];
  }

  /** Worked case: an uneven mix tells the two single-side buckets apart. */
  lemma TabulationUneven()
    ensures AnalyzeAttendance([Attended("a", PRESENT, ABSENT), Attended("b", PRESENT, ABSENT),
                               Attended("c", ABSENT, PRESENT), Attended("d", PRESENT, PRESENT),
                               Attended("e", ABSENT, ABSENT)]) == Summary(5, 2, 1, 1)
  {
    var pa, pb, cp, d, e :=
      Attended("a", PRESENT, ABSENT), Attended("b", PRESENT, ABSENT), Attended("c", ABSENT, PRESENT),
      Attended("d", PRESENT, PRESENT), Attended("e", ABSENT, ABSENT);
    BucketsSnoc([], pa);
    assert [] + [pa] == [pa];
    BucketsSnoc([pa], pb);
    assert [pa] + [pb] == [pa, pb];
    BucketsSnoc([pa, pb], cp);
    assert [pa, pb] + [cp] == [pa, pb, cp];
    BucketsSnoc([pa, pb, cp], d);
    assert [pa, pb, cp] + [d] == [pa, pb, cp, d];
    BucketsSnoc([pa, pb, cp, d], e);
    assert [pa, pb, cp, d] + [e] == [pa, pb, cp, d, e];
  }
}
