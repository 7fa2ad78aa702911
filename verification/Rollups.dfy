/**
 * Reading a rollup instead of its base table (crates/pawrly-engine/src/local.rs,
 * crates/pawrly-semantic/src/rollup.rs): the stored partial results of fine buckets are aggregated
 * again into coarse ones. Two tests decide when that is allowed: `can_roll_up_to` on the grains
 * and `is_rollup_safe` on the aggregate. Both are compared here with what the tables mean.
 */
module Rollups {
  import opened Prelude
  import opened Grains

  datatype Agg = Sum | Count | Min | Max | Avg | CountDistinct

  predicate IsRollupSafe(agg: Agg) {
    agg in {Sum, Count, Min, Max}
  }

  /** The aggregate that combines stored partials: counts are added up. */
  function Outer(agg: Agg): Agg {
    if agg == Count then Sum else agg
  }

  /** A row of a table: an instant and a value, which may be NULL. */
  datatype Row = Row(at: int, v: Option<real>)

  // ------------------------------------------------------------------- aggregation

  /** What one value gives to an aggregate. */
  function Partial(agg: Agg, v: Option<real>): Option<real> {
    if agg == Count then Some(if v.None? then 0.0 else 1.0) else v
  }

  /** Combining two results; NULL is the result of no value. */
  function Merge(agg: Agg, x: Option<real>, y: Option<real>): Option<real> {
    if x.None? then y
    else if y.None? then x
    else
      match agg
      case Min => if x.value <= y.value then x else y
      case Max => if x.value >= y.value then x else y
      case _ => Some(x.value + y.value)
  }

  lemma MergeLaws(agg: Agg, x: Option<real>, y: Option<real>, z: Option<real>)
    ensures Merge(agg, x, y) == Merge(agg, y, x)
    ensures Merge(agg, Merge(agg, x, y), z) == Merge(agg, x, Merge(agg, y, z))
  {}

  /** An additive aggregate over the rows of one bucket. */
  function AggIn(rows: seq<Row>, g: TimeGrain, bucket: int, agg: Agg): Option<real> {
    if rows == [] then None else
      var last := rows[|rows| - 1];
      Merge(agg, AggIn(rows[..|rows| - 1], g, bucket, agg), Given(last, g, bucket, agg))
  }

  /** What one row gives to a bucket. */
  function Given(r: Row, g: TimeGrain, bucket: int, agg: Agg): Option<real> {
    if Trunc(g, r.at) == bucket then Partial(agg, r.v) else None
  }

  /** The distinct values, other than NULL, in one bucket. */
  function ValuesIn(rows: seq<Row>, g: TimeGrain, bucket: int): set<real> {
    set r | r in rows && Trunc(g, r.at) == bucket && r.v.Some? :: r.v.value
  }

  /** What `agg` yields for one bucket. */
  function Result(rows: seq<Row>, g: TimeGrain, bucket: int, agg: Agg): Option<real> {
    match agg
    case Avg =>
      var sum, count := AggIn(rows, g, bucket, Sum), AggIn(rows, g, bucket, Count);
      if sum.None? || count.None? || count.value == 0.0 then None else Some(sum.value / count.value)
    case CountDistinct => Some(|ValuesIn(rows, g, bucket)| as real)
    case _ => AggIn(rows, g, bucket, agg)
  }

  ghost predicate HasRow(rows: seq<Row>, g: TimeGrain, bucket: int) {
    exists r :: r in rows && Trunc(g, r.at) == bucket
  }

  ghost predicate HasEntry(table: seq<Row>, bucket: int) {
    exists e :: e in table && e.at == bucket
  }

  ghost predicate Covers(table: seq<Row>, rows: seq<Row>, g: TimeGrain) {
    forall r | r in rows :: HasEntry(table, Trunc(g, r.at))
  }

  ghost predicate DistinctAt(table: seq<Row>) {
    forall i, j :: 0 <= i < j < |table| ==> table[i].at != table[j].at
  }

  /** `table` is `SELECT DATE_TRUNC(g, at), agg(v) ... GROUP BY 1` over `rows`, in any order. */
  ghost predicate IsRollup(table: seq<Row>, rows: seq<Row>, g: TimeGrain, agg: Agg) {
    && DistinctAt(table) && Covers(table, rows, g)
    && forall e | e in table :: e.v == Result(rows, g, e.at, agg) && HasRow(rows, g, e.at)
  }

  /** The rows of a bucket that have a value. */
  predicate Counts(r: Row, g: TimeGrain, bucket: int) {
    Trunc(g, r.at) == bucket && r.v.Some?
  }

  ghost predicate IsLeast(rows: seq<Row>, g: TimeGrain, bucket: int, x: real) {
    && (exists r :: r in rows && Counts(r, g, bucket) && r.v.value == x)
    && forall r | r in rows && Counts(r, g, bucket) :: x <= r.v.value
  }

  ghost predicate IsGreatest(rows: seq<Row>, g: TimeGrain, bucket: int, x: real) {
    && (exists r :: r in rows && Counts(r, g, bucket) && r.v.value == x)
    && forall r | r in rows && Counts(r, g, bucket) :: x >= r.v.value
  }

  function Counted(rows: seq<Row>, g: TimeGrain, bucket: int): set<nat> {
    set i: nat | i < |rows| && Counts(rows[i], g, bucket)
  }

  /** The aggregates are what their names say. */
  lemma {:induction false} AggregatesMean(rows: seq<Row>, g: TimeGrain, bucket: int)
    ensures forall x :: AggIn(rows, g, bucket, Min) == Some(x) <==> IsLeast(rows, g, bucket, x)
    ensures forall x :: AggIn(rows, g, bucket, Max) == Some(x) <==> IsGreatest(rows, g, bucket, x)
    ensures AggIn(rows, g, bucket, Count).None? <==> !HasRow(rows, g, bucket)
    ensures HasRow(rows, g, bucket) ==>
            AggIn(rows, g, bucket, Count) == Some(|Counted(rows, g, bucket)| as real)
  {
    if rows == [] {
      assert forall x :: !IsLeast(rows, g, bucket, x) && !IsGreatest(rows, g, bucket, x);
    } else {
      var n := |rows| - 1;
      AggregatesMean(rows[..n], g, bucket);
      assert rows == rows[..n] + [rows[n]];
      LeastOneMore(rows[..n], rows[n], g, bucket);
      GreatestOneMore(rows[..n], rows[n], g, bucket);
      CountOneMore(rows[..n], rows[n], g, bucket);
    }
  }

  lemma LeastOneMore(rows: seq<Row>, last: Row, g: TimeGrain, bucket: int)
    requires forall x :: AggIn(rows, g, bucket, Min) == Some(x) <==> IsLeast(rows, g, bucket, x)
    ensures forall x :: AggIn(rows + [last], g, bucket, Min) == Some(x) <==> IsLeast(rows + [last], g, bucket, x)
  {
    hide Trunc, AggIn;
    AggOneMore(rows, last, g, bucket, Min);
    NoneCounts(rows, g, bucket);
    var all := rows + [last];
    assert forall r :: r in all <==> r in rows || r == last;
    if Counts(last, g, bucket) && AggIn(rows, g, bucket, Min).Some? {
      assert IsLeast(rows, g, bucket, AggIn(rows, g, bucket, Min).value);
    }
    forall x ensures AggIn(all, g, bucket, Min) == Some(x) <==> IsLeast(all, g, bucket, x) {}
  }

  lemma GreatestOneMore(rows: seq<Row>, last: Row, g: TimeGrain, bucket: int)
    requires forall x :: AggIn(rows, g, bucket, Max) == Some(x) <==> IsGreatest(rows, g, bucket, x)
    ensures forall x :: AggIn(rows + [last], g, bucket, Max) == Some(x) <==> IsGreatest(rows + [last], g, bucket, x)
  {
    hide Trunc, AggIn;
    AggOneMore(rows, last, g, bucket, Max);
    NoneCounts(rows, g, bucket);
    var all := rows + [last];
    assert forall r :: r in all <==> r in rows || r == last;
    if Counts(last, g, bucket) && AggIn(rows, g, bucket, Max).Some? {
      assert IsGreatest(rows, g, bucket, AggIn(rows, g, bucket, Max).value);
    }
    forall x ensures AggIn(all, g, bucket, Max) == Some(x) <==> IsGreatest(all, g, bucket, x) {}
  }

  /** Without a value in the bucket there is no least and no greatest. */
  lemma {:induction false} NoneCounts(rows: seq<Row>, g: TimeGrain, bucket: int)
    ensures AggIn(rows, g, bucket, Min).None? <==> forall r | r in rows :: !Counts(r, g, bucket)
    ensures AggIn(rows, g, bucket, Max).None? <==> forall r | r in rows :: !Counts(r, g, bucket)
  {
    hide Trunc;
    if rows != [] {
      hide AggIn;
      var n := |rows| - 1;
      NoneCounts(rows[..n], g, bucket);
      AggOneMore(rows[..n], rows[n], g, bucket, Min);
      AggOneMore(rows[..n], rows[n], g, bucket, Max);
      assert rows == rows[..n] + [rows[n]];
      assert rows[n] in rows && forall r :: r in rows <==> r in rows[..n] || r == rows[n];
    }
  }

  lemma CountedOneMore(rows: seq<Row>, last: Row, g: TimeGrain, bucket: int)
    ensures |Counted(rows + [last], g, bucket)|
            == |Counted(rows, g, bucket)| + (if Counts(last, g, bucket) then 1 else 0)
  {
    hide Counts;
    var all := rows + [last];
    forall i: nat
      ensures i in Counted(all, g, bucket) <==>
              i in Counted(rows, g, bucket) || (i == |rows| && Counts(last, g, bucket))
    {
      if i < |rows| {
        assert all[i] == rows[i];
      }
    }
    if Counts(last, g, bucket) {
      assert Counted(all, g, bucket) == Counted(rows, g, bucket) + {|rows|};
    } else {
      assert Counted(all, g, bucket) == Counted(rows, g, bucket);
    }
  }

  lemma NoRowsCounted(rows: seq<Row>, g: TimeGrain, bucket: int)
    requires !HasRow(rows, g, bucket)
    ensures |Counted(rows, g, bucket)| == 0
  {
    hide Trunc;
    assert forall i: nat | i < |rows| :: rows[i] in rows;
    assert Counted(rows, g, bucket) == {};
  }

  lemma HasRowOneMore(rows: seq<Row>, last: Row, g: TimeGrain, bucket: int)
    ensures HasRow(rows + [last], g, bucket) <==> HasRow(rows, g, bucket) || Trunc(g, last.at) == bucket
  {
    hide Trunc;
    assert forall r :: r in rows + [last] <==> r in rows || r == last;
  }

  lemma CountOneMore(rows: seq<Row>, last: Row, g: TimeGrain, bucket: int)
    requires AggIn(rows, g, bucket, Count).None? <==> !HasRow(rows, g, bucket)
    requires HasRow(rows, g, bucket) ==> AggIn(rows, g, bucket, Count) == Some(|Counted(rows, g, bucket)| as real)
    ensures var all := rows + [last];
      && (AggIn(all, g, bucket, Count).None? <==> !HasRow(all, g, bucket))
      && (HasRow(all, g, bucket) ==> AggIn(all, g, bucket, Count) == Some(|Counted(all, g, bucket)| as real))
  {
    hide Trunc, AggIn, HasRow, Counted;
    AggOneMore(rows, last, g, bucket, Count);
    HasRowOneMore(rows, last, g, bucket);
    CountedOneMore(rows, last, g, bucket);
    if !HasRow(rows, g, bucket) {
      NoRowsCounted(rows, g, bucket);
    }
  }

  // -------------------------------------------------------- aggregating once more

  /** Merging, over the entries of `table` in bucket `b`, the rows that belong to each entry. */
  function MergedEntries(table: seq<Row>, rows: seq<Row>, g: TimeGrain, c: TimeGrain, b: int, agg: Agg): Option<real> {
    if table == [] then None else
      var e := table[|table| - 1];
      Merge(agg, MergedEntries(table[..|table| - 1], rows, g, c, b, agg),
            if Trunc(c, e.at) == b then AggIn(rows, g, e.at, agg) else None)
  }

  /** One more row counts once, in the entry of its bucket. */
  lemma {:induction false} MergedOneMore(table: seq<Row>, rows: seq<Row>, r: Row, g: TimeGrain, c: TimeGrain, b: int,
                                         agg: Agg)
    requires DistinctAt(table)
    ensures MergedEntries(table, rows + [r], g, c, b, agg) ==
            Merge(agg, MergedEntries(table, rows, g, c, b, agg),
                  if Trunc(c, Trunc(g, r.at)) == b && HasEntry(table, Trunc(g, r.at)) then Partial(agg, r.v) else None)
    decreases |table|
  {
    if table != [] {
      hide Trunc, Partial, Merge;
      var n := |table| - 1;
      var shorter, e := table[..n], table[n];
      MergedOneMore(shorter, rows, r, g, c, b, agg);
      AggOneMore(rows, r, g, e.at, agg);
      EntryOfLast(table, Trunc(g, r.at));
      var m, own := MergedEntries(shorter, rows, g, c, b, agg), AggIn(rows, g, e.at, agg);
      MergeLaws(agg, m, own, Partial(agg, r.v));
      MergeLaws(agg, m, Partial(agg, r.v), own);
      MergeLaws(agg, own, Partial(agg, r.v), None);
      MergeNone(agg);
    }
  }

  lemma MergeNone(agg: Agg)
    ensures forall x :: Merge(agg, x, None) == x && Merge(agg, None, x) == x
  {}

  lemma AggOneMore(rows: seq<Row>, r: Row, g: TimeGrain, bucket: int, agg: Agg)
    ensures AggIn(rows + [r], g, bucket, agg) == Merge(agg, AggIn(rows, g, bucket, agg), Given(r, g, bucket, agg))
  {
    assert (rows + [r])[..|rows|] == rows;
  }

  /** The entry of a bucket is the last one, or among the others, but not both. */
  lemma EntryOfLast(table: seq<Row>, bucket: int)
    requires table != [] && DistinctAt(table)
    ensures HasEntry(table, bucket) <==> table[|table| - 1].at == bucket || HasEntry(table[..|table| - 1], bucket)
    ensures !(table[|table| - 1].at == bucket && HasEntry(table[..|table| - 1], bucket))
  {
    var n := |table| - 1;
    assert table[n] in table;
    assert forall e | e in table[..n] :: e in table && e.at != table[n].at;
    if e :| e in table && e.at == bucket {
      assert e == table[n] || e in table[..n];
    }
  }

  lemma {:induction false} MergedIsAll(table: seq<Row>, rows: seq<Row>, g: TimeGrain, c: TimeGrain, b: int, agg: Agg)
    requires DistinctAt(table) && Covers(table, rows, g) && CanRollUpTo(g, c)
    ensures MergedEntries(table, rows, g, c, b, agg) == AggIn(rows, c, b, agg)
    decreases |rows|
  {
    hide Trunc, MergedEntries, Merge, CanRollUpTo;
    if rows == [] {
      NothingToMerge(table, g, c, b, agg);
    } else {
      var n := |rows| - 1;
      assert rows == rows[..n] + [rows[n]];
      forall r | r in rows[..n] ensures HasEntry(table, Trunc(g, r.at)) {
        assert r in rows;
      }
      MergedIsAll(table, rows[..n], g, c, b, agg);
      MergedOneMore(table, rows[..n], rows[n], g, c, b, agg);
      Nested(g, c, rows[n].at);
      assert rows[n] in rows;
    }
  }

  lemma {:induction false} NothingToMerge(table: seq<Row>, g: TimeGrain, c: TimeGrain, b: int, agg: Agg)
    ensures MergedEntries(table, [], g, c, b, agg) == None
    decreases |table|
  {
    if table != [] {
      NothingToMerge(table[..|table| - 1], g, c, b, agg);
    }
  }

  /** Aggregating stored partials merges what they stand for. */
  lemma {:induction false} PartialsMerge(table: seq<Row>, rows: seq<Row>, g: TimeGrain, c: TimeGrain, b: int, agg: Agg)
    requires IsRollupSafe(agg) && forall e | e in table :: e.v == AggIn(rows, g, e.at, agg)
    ensures AggIn(table, c, b, Outer(agg)) == MergedEntries(table, rows, g, c, b, agg)
    decreases |table|
  {
    hide Trunc, Merge, Partial;
    if table != [] {
      var n := |table| - 1;
      PartialsMerge(table[..n], rows, g, c, b, agg);
      assert table[n] in table;
      OuterMerges(agg, table[n].v);
      assert forall x, y :: Merge(Outer(agg), x, y) == Merge(agg, x, y);
    }
  }

  lemma OuterMerges(agg: Agg, v: Option<real>)
    requires IsRollupSafe(agg)
    ensures Partial(Outer(agg), v) == v
    ensures forall x, y :: Merge(Outer(agg), x, y) == Merge(agg, x, y)
  {}

  /** An entry of the coarse table aggregates exactly the rows of its bucket. */
  lemma CoarseEntry(rows: seq<Row>, g: TimeGrain, c: TimeGrain, table: seq<Row>, b: int, agg: Agg)
    requires CanRollUpTo(g, c) && IsRollupSafe(agg) && IsRollup(table, rows, g, agg)
    ensures AggIn(table, c, b, Outer(agg)) == AggIn(rows, c, b, agg)
    ensures HasRow(table, c, b) <==> HasRow(rows, c, b)
  {
    hide Trunc, AggIn, CanRollUpTo;
    PartialsMerge(table, rows, g, c, b, agg);
    MergedIsAll(table, rows, g, c, b, agg);
    if f :| f in table && Trunc(c, f.at) == b {
      assert HasRow(rows, g, f.at);
      var r :| r in rows && Trunc(g, r.at) == f.at;
      Nested(g, c, r.at);
    }
    if r :| r in rows && Trunc(c, r.at) == b {
      assert HasEntry(table, Trunc(g, r.at));
      var f :| f in table && f.at == Trunc(g, r.at);
      Nested(g, c, r.at);
    }
  }

  lemma CoarseCovers(rows: seq<Row>, g: TimeGrain, c: TimeGrain, table: seq<Row>, coarse: seq<Row>, r: Row)
    requires CanRollUpTo(g, c) && Covers(table, rows, g) && Covers(coarse, table, c) && r in rows
    ensures HasEntry(coarse, Trunc(c, r.at))
  {
    assert HasEntry(table, Trunc(g, r.at));
    var f :| f in table && f.at == Trunc(g, r.at);
    Nested(g, c, r.at);
    assert HasEntry(coarse, Trunc(c, f.at));
  }

  /** Re-aggregating a rollup gives the rollup of the rows themselves. */
  lemma RollupOfRollup(rows: seq<Row>, g: TimeGrain, c: TimeGrain, table: seq<Row>, coarse: seq<Row>, agg: Agg)
    requires CanRollUpTo(g, c) && IsRollupSafe(agg)
    requires IsRollup(table, rows, g, agg) && IsRollup(coarse, table, c, Outer(agg))
    ensures IsRollup(coarse, rows, c, agg)
  {
    hide Trunc, AggIn, CanRollUpTo, HasRow, HasEntry;
    forall e | e in coarse ensures e.v == Result(rows, c, e.at, agg) && HasRow(rows, c, e.at) {
      CoarseEntry(rows, g, c, table, e.at, agg);
    }
    forall r | r in rows ensures HasEntry(coarse, Trunc(c, r.at)) {
      CoarseCovers(rows, g, c, table, coarse, r);
    }
  }

  // -------------------------------------------------------------- exactly which grains

  ghost predicate Agrees(rows: seq<Row>, g: TimeGrain, c: TimeGrain, table: seq<Row>, coarse: seq<Row>, agg: Agg) {
    IsRollup(table, rows, g, agg) && IsRollup(coarse, table, c, Outer(agg)) ==> IsRollup(coarse, rows, c, agg)
  }

  /** For a safe aggregate, a rollup never changes a result exactly for the grains that roll up. */
  lemma RollupsAgreeExactly(g: TimeGrain, c: TimeGrain, agg: Agg)
    requires IsRollupSafe(agg)
    ensures CanRollUpTo(g, c) <==> forall rows, table, coarse :: Agrees(rows, g, c, table, coarse, agg)
  {
    hide CanRollUpTo, IsRollup;
    if CanRollUpTo(g, c) {
      forall rows, table, coarse ensures Agrees(rows, g, c, table, coarse, agg) {
        if IsRollup(table, rows, g, agg) && IsRollup(coarse, table, c, Outer(agg)) {
          RollupOfRollup(rows, g, c, table, coarse, agg);
        }
      }
    } else {
      var rows, table, coarse := RollupsDisagree(g, c, agg);
    }
  }

  lemma RollupsDisagree(g: TimeGrain, c: TimeGrain, agg: Agg)
    returns (rows: seq<Row>, table: seq<Row>, coarse: seq<Row>)
    requires !CanRollUpTo(g, c) && IsRollupSafe(agg)
    ensures !Agrees(rows, g, c, table, coarse, agg)
  {
    hide Trunc, CanRollUpTo, Misfit;
    NotNested(g, c);
    var r := Row(Misfit(g), Some(1.0));
    var f := Row(Trunc(g, r.at), Some(1.0));
    var e := Row(Trunc(c, f.at), Some(1.0));
    OneRow(r, g, agg);
    OneRow(f, c, Outer(agg));
    rows, table, coarse := [r], [f], [e];
    assert !IsRollup(coarse, rows, c, agg) by {
      assert r in rows && !HasEntry(coarse, Trunc(c, r.at));
    }
  }

  lemma OneRow(r: Row, g: TimeGrain, agg: Agg)
    requires IsRollupSafe(agg) && r.v == Some(1.0)
    ensures IsRollup([Row(Trunc(g, r.at), r.v)], [r], g, agg)
  {
    hide Trunc;
    var e := Row(Trunc(g, r.at), r.v);
    assert [r][..0] == [];
    assert AggIn([r], g, e.at, agg) == r.v;
    assert r in [r] && e in [e];
  }

  // ---------------------------------------------------------- exactly which aggregates

  /** The same buckets with the same results. */
  ghost predicate SameTable(rows: seq<Row>, rows': seq<Row>, g: TimeGrain, agg: Agg) {
    forall b :: (HasRow(rows, g, b) <==> HasRow(rows', g, b))
                && (HasRow(rows, g, b) ==> Result(rows, g, b, agg) == Result(rows', g, b, agg))
  }

  /** The coarse results can be computed from the fine ones at all. */
  ghost predicate Determined(g: TimeGrain, c: TimeGrain, agg: Agg) {
    forall rows, rows' :: SameTable(rows, rows', g, agg) ==> SameTable(rows, rows', c, agg)
  }

  /** The test on aggregates is exact: only for those can partials stand for their rows. */
  lemma SafeExactly(agg: Agg)
    ensures IsRollupSafe(agg) <==> forall g, c :: CanRollUpTo(g, c) ==> Determined(g, c, agg)
  {
    hide SameTable, Determined;
    if IsRollupSafe(agg) {
      forall g, c | CanRollUpTo(g, c) ensures Determined(g, c, agg) {
        SafeDetermined(g, c, agg);
      }
    } else {
      assert CanRollUpTo(Day, Month);
      UnsafeUndetermined(agg);
    }
  }

  lemma SafeDetermined(g: TimeGrain, c: TimeGrain, agg: Agg)
    requires IsRollupSafe(agg) && CanRollUpTo(g, c)
    ensures Determined(g, c, agg)
  {
    hide CanRollUpTo, HasRow, AggIn, IsRollup;
    forall rows, rows' | SameTable(rows, rows', g, agg) ensures SameTable(rows, rows', c, agg) {
      var table := MakeTable(rows, g, agg);
      SameRollup(table, rows, rows', g, agg);
      forall b ensures (HasRow(rows, c, b) <==> HasRow(rows', c, b))
                       && Result(rows, c, b, agg) == Result(rows', c, b, agg)
      {
        CoarseEntry(rows, g, c, table, b, agg);
        CoarseEntry(rows', g, c, table, b, agg);
      }
    }
  }

  lemma SameRollup(table: seq<Row>, rows: seq<Row>, rows': seq<Row>, g: TimeGrain, agg: Agg)
    requires IsRollup(table, rows, g, agg) && SameTable(rows, rows', g, agg)
    ensures IsRollup(table, rows', g, agg)
  {
    hide Trunc, Result;
    forall r | r in rows' ensures HasEntry(table, Trunc(g, r.at)) {
      assert HasRow(rows', g, Trunc(g, r.at));
      var x :| x in rows && Trunc(g, x.at) == Trunc(g, r.at);
    }
  }

  /** Every list of rows has its rollup. */
  lemma {:induction false} MakeTable(rows: seq<Row>, g: TimeGrain, agg: Agg) returns (table: seq<Row>)
    ensures IsRollup(table, rows, g, agg)
  {
    hide Trunc, Result, HasRow;
    var bs := Buckets(rows, g);
    table := seq(|bs|, i requires 0 <= i < |bs| => Row(bs[i], Result(rows, g, bs[i], agg)));
    forall r | r in rows ensures HasEntry(table, Trunc(g, r.at)) {
      var i :| 0 <= i < |bs| && bs[i] == Trunc(g, r.at);
      assert table[i] in table;
    }
    forall e | e in table ensures e.v == Result(rows, g, e.at, agg) && HasRow(rows, g, e.at) {
      var i :| 0 <= i < |table| && table[i] == e;
      assert bs[i] in bs;
    }
  }

  lemma {:induction false} Buckets(rows: seq<Row>, g: TimeGrain) returns (bs: seq<int>)
    ensures Distinct(bs) && (forall r | r in rows :: Trunc(g, r.at) in bs)
    ensures forall b | b in bs :: HasRow(rows, g, b)
  {
    hide Trunc;
    bs := [];
    if rows != [] {
      var n := |rows| - 1;
      bs := Buckets(rows[..n], g);
      assert rows == rows[..n] + [rows[n]];
      forall b | b in bs ensures HasRow(rows, g, b) {
        var r :| r in rows[..n] && Trunc(g, r.at) == b;
        assert r in rows;
      }
      if Trunc(g, rows[n].at) !in bs {
        bs := bs + [Trunc(g, rows[n].at)];
      }
      assert rows[n] in rows;
    }
  }

  /** Two days whose averages, or whose distinct counts, do not tell those of the month. */
  lemma UnsafeUndetermined(agg: Agg)
    requires !IsRollupSafe(agg)
    ensures !Determined(Day, Month, agg)
  {
    hide Trunc;
    FirstDays();
    var a, b, b' := Row(0, Some(0.0)), Row(DAY, Some(1.0)), Row(DAY, Some(0.0));
    if agg == Avg {
      TwoRows(a, b, Sum);
      TwoRows(a, b, Count);
      ThreeRows(a, b, Sum);
      ThreeRows(a, b, Count);
      assert SameTable([a, b], [a, a, b], Day, Avg);
      assert HasRow([a, b], Month, 0);
    } else {
      assert ValuesIn([a, b], Day, 0) == {0.0} == ValuesIn([a, b'], Day, 0);
      assert ValuesIn([a, b], Day, DAY) == {1.0} && ValuesIn([a, b'], Day, DAY) == {0.0};
      assert ValuesIn([a, b], Month, 0) == {0.0, 1.0} && ValuesIn([a, b'], Month, 0) == {0.0};
      assert SameTable([a, b], [a, b'], Day, CountDistinct);
      assert HasRow([a, b], Month, 0);
    }
  }

  lemma FirstDays()
    ensures Trunc(Day, 0) == 0 && Trunc(Day, DAY) == DAY && Trunc(Month, 0) == 0 && Trunc(Month, DAY) == 0
  {
    hide MonthStart, Trunc;
    MonthsOf1970();
    TruncIs(Day, 0, 0);
    TruncIs(Day, 1, DAY);
    TruncIs(Month, JANUARY_1970, 0);
    TruncIs(Month, JANUARY_1970, DAY);
  }

  lemma TwoRows(a: Row, b: Row, agg: Agg)
    ensures forall g, t :: AggIn([a, b], g, t, agg) == Merge(agg, Given(a, g, t, agg), Given(b, g, t, agg))
  {
    hide Trunc;
    forall g, t ensures AggIn([a, b], g, t, agg) == Merge(agg, Given(a, g, t, agg), Given(b, g, t, agg)) {
      AggOneMore([], a, g, t, agg);
      AggOneMore([a], b, g, t, agg);
      assert [] + [a] == [a] && [a] + [b] == [a, b];
    }
  }

  lemma ThreeRows(a: Row, b: Row, agg: Agg)
    ensures forall g, t :: AggIn([a, a, b], g, t, agg)
                           == Merge(agg, Merge(agg, Given(a, g, t, agg), Given(a, g, t, agg)), Given(b, g, t, agg))
  {
    hide Trunc;
    TwoRows(a, a, agg);
    forall g, t ensures AggIn([a, a, b], g, t, agg)
                        == Merge(agg, Merge(agg, Given(a, g, t, agg), Given(a, g, t, agg)), Given(b, g, t, agg))
    {
      AggOneMore([a, a], b, g, t, agg);
      assert [a, a] + [b] == [a, a, b];
    }
  }
}
