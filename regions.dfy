/**
 * Conflicts per governorate: each level's conflicts grouped and counted by
 * governorate, then the two count tables outer-joined with missing counts
 * filled by 0 (app.py lines 84-86).
 */
module Regions {
  import opened Wrappers
  import opened ConflictDetection

  /** The governorates that occur in a conflict list. */
  function Governorates(cs: seq<Conflict>): set<string>
  {
    set k | 0 <= k < |cs| :: cs[k].governorate
  }

  /** The number of conflicts with governorate `g`. */
  function CountIn(cs: seq<Conflict>, g: string): (n: nat)
    ensures n <= |cs|
    ensures n > 0 <==> g in Governorates(cs)
  {
    if cs == [] then 0
    else
      var init := cs[..|cs| - 1];
      assert Governorates(cs) == Governorates(init) + {cs[|cs| - 1].governorate} by {
        forall k | 0 <= k < |init| ensures init[k] == cs[k] { }
      }
      CountIn(init, g) + (if cs[|cs| - 1].governorate == g then 1 else 0)
  }

  /** `groupby("Governorate").size()`: one entry per governorate that occurs, holding its count. */
  function GroupSizes(cs: seq<Conflict>): (m: map<string, nat>)
    ensures m.Keys == Governorates(cs)
    ensures forall g :: g in m ==> m[g] >= 1
  {
    map g | g in Governorates(cs) :: CountIn(cs, g)
  }

  /** `groupby` as written: a frame built from an empty conflict list has no `Governorate` column. */
  function GroupSizesAsWritten(cs: seq<Conflict>): (r: Result<map<string, nat>, KeyError>)
    ensures r.Success? <==> cs != []
  {
    if "Governorate" !in FrameColumns(cs) then Failure(KeyError("Governorate"))
    else Success(GroupSizes(cs))
  }

  /** One row of the `Conflict By Governorate` table. */
  datatype RegionCounts = RegionCounts(l1: nat, l2: nat)

  /** Outer merge on the governorate with `fillna(0)`. */
  function MergeOuter(a: map<string, nat>, b: map<string, nat>): (r: map<string, RegionCounts>)
    ensures r.Keys == a.Keys + b.Keys
  {
    map g | g in a.Keys + b.Keys ::
      RegionCounts(if g in a then a[g] else 0, if g in b then b[g] else 0)
  }

  /**
   * The `Conflict By Governorate` table: exactly the governorates of either
   * level, each with its count in each level, 0 where it does not occur.
   */
  function ConflictByGovernorate(l1: seq<Conflict>, l2: seq<Conflict>): (r: map<string, RegionCounts>)
    ensures r.Keys == Governorates(l1) + Governorates(l2)
    ensures forall g :: g in r ==> r[g] == RegionCounts(CountIn(l1, g), CountIn(l2, g))
  {
    var r := MergeOuter(GroupSizes(l1), GroupSizes(l2));
    assert forall g :: g in r ==> r[g] == RegionCounts(CountIn(l1, g), CountIn(l2, g)) by {
      forall g | g in r ensures r[g] == RegionCounts(CountIn(l1, g), CountIn(l2, g)) {
        if g !in Governorates(l1) { assert CountIn(l1, g) == 0; }
        if g !in Governorates(l2) { assert CountIn(l2, g) == 0; }
      }
    }
    r
  }

  /** The aggregate as written: it fails as soon as either level has no conflict. */
  function ConflictByGovernorateAsWritten(l1: seq<Conflict>, l2: seq<Conflict>): (r: Result<map<string, RegionCounts>, KeyError>)
    ensures r.Success? <==> l1 != [] && l2 != []
  {
    match GroupSizesAsWritten(l1)
    case Failure(e) => Failure(e)
    case Success(a) =>
      match GroupSizesAsWritten(l2)
      case Failure(e) => Failure(e)
      case Success(b) => Success(MergeOuter(a, b))
  }

  /**
   * Region outer join: a governorate appears exactly when it has a conflict
   * in at least one level, so no row has both counts 0.
   */
  lemma RegionOuterJoin(l1: seq<Conflict>, l2: seq<Conflict>)
    ensures forall g :: g in ConflictByGovernorate(l1, l2) ==>
              ConflictByGovernorate(l1, l2)[g].l1 > 0 || ConflictByGovernorate(l1, l2)[g].l2 > 0
    ensures forall g :: g !in ConflictByGovernorate(l1, l2) ==> CountIn(l1, g) == 0 && CountIn(l2, g) == 0
  {
  }

  /** Where the two levels both have conflicts, the as-written aggregate and the corrected one agree. */
  lemma AsWrittenAgrees(l1: seq<Conflict>, l2: seq<Conflict>)
    requires l1 != [] && l2 != []
    ensures ConflictByGovernorateAsWritten(l1, l2) == Success(ConflictByGovernorate(l1, l2))
  {
  }

  /** A level without conflicts: as written the aggregate raises; corrected, that level's column is all 0. */
  lemma EmptyLevelRegions(l2: seq<Conflict>)
    ensures ConflictByGovernorateAsWritten([], l2) == Failure(KeyError("Governorate"))
    ensures ConflictByGovernorate([], l2).Keys == Governorates(l2)
    ensures forall g :: g in ConflictByGovernorate([], l2) ==> ConflictByGovernorate([], l2)[g].l1 == 0
  {
    RegionOuterJoin([], l2);
  }

  predicate Distinct(keys: seq<string>)
  {
    forall i, j :: 0 <= i < j < |keys| ==> keys[i] != keys[j]
  }

  /** The sum of a level's column over the listed governorates. */
  function ColumnSum(agg: map<string, RegionCounts>, keys: seq<string>, level2: bool): nat
    requires forall k :: 0 <= k < |keys| ==> keys[k] in agg
  {
    if keys == [] then 0
    else (if level2 then agg[keys[0]].l2 else agg[keys[0]].l1) + ColumnSum(agg, keys[1..], level2)
  }

  /** The sum of the counts of the listed governorates. */
  function SumCounts(cs: seq<Conflict>, keys: seq<string>): nat
  {
    if keys == [] then 0 else CountIn(cs, keys[0]) + SumCounts(cs, keys[1..])
  }

  /** How often `g` occurs in `keys`. */
  function Occurrences(keys: seq<string>, g: string): nat
  {
    if keys == [] then 0 else (if keys[0] == g then 1 else 0) + Occurrences(keys[1..], g)
  }

  lemma {:induction false} OccursOnce(keys: seq<string>, g: string)
    requires Distinct(keys)
    ensures Occurrences(keys, g) == if g in keys then 1 else 0
  {
    if keys != [] {
      assert Distinct(keys[1..]) by {
        forall i, j | 0 <= i < j < |keys[1..]| ensures keys[1..][i] != keys[1..][j] {
          assert keys[1..][i] == keys[i + 1] && keys[1..][j] == keys[j + 1];
        }
      }
      OccursOnce(keys[1..], g);
      if keys[0] == g {
        assert g !in keys[1..] by {
          forall i | 0 <= i < |keys[1..]| ensures keys[1..][i] != g {
            assert keys[1..][i] == keys[i + 1];
          }
        }
      }
    }
  }

  lemma {:induction false} SumCountsSnoc(cs: seq<Conflict>, c: Conflict, keys: seq<string>)
    ensures SumCounts(cs + [c], keys) == SumCounts(cs, keys) + Occurrences(keys, c.governorate)
  {
    if keys != [] {
      assert (cs + [c])[..|cs|] == cs;
      SumCountsSnoc(cs, c, keys[1..]);
    }
  }

  /** Counting per governorate over all governorates that occur recovers the length of the list. */
  lemma {:induction false} SumCountsIsLength(cs: seq<Conflict>, keys: seq<string>)
    requires Distinct(keys)
    requires forall k :: 0 <= k < |cs| ==> cs[k].governorate in keys
    ensures SumCounts(cs, keys) == |cs|
  {
    if cs == [] {
      SumCountsZero(keys);
    } else {
      var n := |cs| - 1;
      var init, last := cs[..n], cs[n];
      assert cs == init + [last];
      SumCountsIsLength(init, keys);
      SumCountsSnoc(init, last, keys);
      OccursOnce(keys, last.governorate);
    }
  }

  lemma {:induction false} SumCountsZero(keys: seq<string>)
    ensures SumCounts([], keys) == 0
  {
    if keys != [] {
      SumCountsZero(keys[1..]);
    }
  }

  lemma {:induction false} ColumnSumIsSumCounts(l1: seq<Conflict>, l2: seq<Conflict>, keys: seq<string>)
    requires forall k :: 0 <= k < |keys| ==> keys[k] in ConflictByGovernorate(l1, l2)
    ensures ColumnSum(ConflictByGovernorate(l1, l2), keys, false) == SumCounts(l1, keys)
    ensures ColumnSum(ConflictByGovernorate(l1, l2), keys, true) == SumCounts(l2, keys)
  {
    if keys != [] {
      RegionOuterJoin(l1, l2);
      assert keys[0] in ConflictByGovernorate(l1, l2);
      ColumnSumIsSumCounts(l1, l2, keys[1..]);
    }
  }

  /**
   * Column sums: listing every governorate of the aggregate once, the L1
   * column adds up to the number of L1 conflicts and the L2 column to the
   * number of L2 conflicts.
   */
  lemma ColumnSums(l1: seq<Conflict>, l2: seq<Conflict>, keys: seq<string>)
    requires Distinct(keys)
    requires forall g :: g in ConflictByGovernorate(l1, l2) <==> g in keys
    ensures forall k :: 0 <= k < |keys| ==> keys[k] in ConflictByGovernorate(l1, l2)
    ensures ColumnSum(ConflictByGovernorate(l1, l2), keys, false) == |l1|
    ensures ColumnSum(ConflictByGovernorate(l1, l2), keys, true) == |l2|
  {
    RegionOuterJoin(l1, l2);
    assert forall k :: 0 <= k < |l1| ==> l1[k].governorate in Governorates(l1);
    assert forall k :: 0 <= k < |l2| ==> l2[k].governorate in Governorates(l2);
    ColumnSumIsSumCounts(l1, l2, keys);
    SumCountsIsLength(l1, keys);
    SumCountsIsLength(l2, keys);
  }
}
