/**
 * Record batches as far as the cache looks into them (crates/pawrly-engine/src/cache.rs): reading
 * a file back in batches, and `project_batches` with its zero-column case.
 */
module Projection {
  import opened Prelude

  type Cell = int
  type Row = seq<Cell>

  /** Columns of equal length; the row count is kept apart since there may be no column. */
  datatype Batch = Batch(columns: seq<seq<Cell>>, numRows: nat)

  predicate BatchOk(b: Batch, width: nat) {
    |b.columns| == width && forall c | c in b.columns :: |c| == b.numRows
  }

  predicate BatchesOk(bs: seq<Batch>, width: nat) {
    forall b | b in bs :: BatchOk(b, width)
  }

  function RowAt(b: Batch, i: nat): Row
    requires BatchOk(b, |b.columns|) && i < b.numRows
  {
    seq(|b.columns|, j requires 0 <= j < |b.columns| =>
      assert b.columns[j] in b.columns;
      b.columns[j][i])
  }

  function RowsOf(b: Batch): (rows: seq<Row>)
    requires BatchOk(b, |b.columns|)
    ensures |rows| == b.numRows && forall i :: 0 <= i < b.numRows ==> rows[i] == RowAt(b, i)
  {
    seq(b.numRows, i requires 0 <= i < b.numRows => RowAt(b, i))
  }

  /** The rows of a list of batches, in order. */
  function AllRows(bs: seq<Batch>, width: nat): seq<Row>
    requires BatchesOk(bs, width)
  {
    if bs == [] then [] else
      assert bs[|bs| - 1] in bs && forall b | b in bs[..|bs| - 1] :: b in bs;
      AllRows(bs[..|bs| - 1], width) + RowsOf(bs[|bs| - 1])
  }

  /** A projection names columns by index, in any order and as often as it likes. */
  predicate ProjectionOk(p: seq<nat>, width: nat) {
    forall j | j in p :: j < width
  }

  function ProjectRow(r: Row, p: seq<nat>): (q: Row)
    requires ProjectionOk(p, |r|)
    ensures |q| == |p| && forall k :: 0 <= k < |p| ==> p[k] < |r| && q[k] == r[p[k]]
  {
    assert forall k | 0 <= k < |p| :: p[k] in p;
    seq(|p|, k requires 0 <= k < |p| => r[p[k]])
  }

  predicate Wide(rows: seq<Row>, width: nat) {
    forall r | r in rows :: |r| == width
  }

  function ProjectRows(rows: seq<Row>, p: seq<nat>, width: nat): (qs: seq<Row>)
    requires Wide(rows, width) && ProjectionOk(p, width)
    ensures |qs| == |rows|
    ensures forall i :: 0 <= i < |rows| ==> |rows[i]| == width && qs[i] == ProjectRow(rows[i], p)
  {
    assert forall i | 0 <= i < |rows| :: rows[i] in rows;
    seq(|rows|, i requires 0 <= i < |rows| => ProjectRow(rows[i], p))
  }

  lemma {:induction false} AllRowsWide(bs: seq<Batch>, width: nat)
    requires BatchesOk(bs, width)
    ensures Wide(AllRows(bs, width), width)
  {
    if bs != [] {
      assert bs[|bs| - 1] in bs && forall b | b in bs[..|bs| - 1] :: b in bs;
      AllRowsWide(bs[..|bs| - 1], width);
    }
  }

  // ------------------------------------------------------------------- project_batches

  /** One batch: no column needs the row count spelled out, else the columns carry it. */
  function ProjectBatch(b: Batch, p: seq<nat>): Batch
    requires BatchOk(b, |b.columns|) && ProjectionOk(p, |b.columns|)
  {
    if p == [] then Batch([], b.numRows)
    else
      var columns := seq(|p|, k requires 0 <= k < |p| =>
        assert p[k] in p;
        b.columns[p[k]]);
      Batch(columns, |columns[0]|)
  }

  lemma ProjectBatchRows(b: Batch, p: seq<nat>, width: nat)
    requires BatchOk(b, width) && ProjectionOk(p, width)
    ensures BatchOk(ProjectBatch(b, p), |p|) && Wide(RowsOf(b), width)
    ensures RowsOf(ProjectBatch(b, p)) == ProjectRows(RowsOf(b), p, width)
  {
    var q := ProjectBatch(b, p);
    if p != [] {
      forall k | 0 <= k < |p|
        ensures p[k] < width && q.columns[k] == b.columns[p[k]] && |q.columns[k]| == b.numRows
      {
        assert p[k] in p;
        assert b.columns[p[k]] in b.columns;
      }
      assert q.numRows == b.numRows;
    }
    forall i | 0 <= i < b.numRows ensures RowAt(q, i) == ProjectRow(RowAt(b, i), p) {}
  }

  /** Field names stand for the schema. */
  type Schema = seq<string>

  function ProjectSchema(schema: Schema, p: seq<nat>): (q: Schema)
    requires ProjectionOk(p, |schema|)
    ensures |q| == |p| && forall k :: 0 <= k < |p| ==> p[k] < |schema| && q[k] == schema[p[k]]
  {
    assert forall k | 0 <= k < |p| :: p[k] in p;
    seq(|p|, k requires 0 <= k < |p| => schema[p[k]])
  }

  predicate SelectionOk(projection: Option<seq<nat>>, width: nat) {
    projection.Some? ==> ProjectionOk(projection.value, width)
  }

  function Selected(rows: seq<Row>, projection: Option<seq<nat>>, width: nat): seq<Row>
    requires Wide(rows, width) && SelectionOk(projection, width)
  {
    match projection
    case None => rows
    case Some(p) => ProjectRows(rows, p, width)
  }

  function OutWidth(projection: Option<seq<nat>>, width: nat): nat {
    match projection
    case None => width
    case Some(p) => |p|
  }

  /** Projecting batch by batch projects the rows, whatever the batching and the projection. */
  method ProjectBatches(batches: seq<Batch>, width: nat, projection: Option<seq<nat>>) returns (out: seq<Batch>)
    requires BatchesOk(batches, width) && SelectionOk(projection, width)
    ensures |out| == |batches| && BatchesOk(out, OutWidth(projection, width))
    ensures Wide(AllRows(batches, width), width)
    ensures AllRows(out, OutWidth(projection, width)) == Selected(AllRows(batches, width), projection, width)
  {
    AllRowsWide(batches, width);
    if projection == None {
      return batches;
    }
    hide ProjectRows, ProjectBatch, BatchOk, RowsOf, AllRows, Wide, ProjectionOk;
    var p := projection.value;
    out := [];
    NoBatches(p, width);
    assert batches[..0] == [];
    for i := 0 to |batches|
      invariant |out| == i && BatchesOk(out, |p|)
      invariant BatchesOk(batches[..i], width) && Wide(AllRows(batches[..i], width), width)
      invariant AllRows(out, |p|) == ProjectRows(AllRows(batches[..i], width), p, width)
    {
      assert batches[i] in batches;
      OneMoreBatch(batches[..i], batches[i], out, p, width);
      assert batches[..i + 1] == batches[..i] + [batches[i]];
      out := out + [ProjectBatch(batches[i], p)];
    }
    assert batches[..|batches|] == batches;
  }

  lemma NoBatches(p: seq<nat>, width: nat)
    requires ProjectionOk(p, width)
    ensures BatchesOk([], width) && BatchesOk([], |p|) && Wide(AllRows([], width), width)
    ensures AllRows([], |p|) == ProjectRows(AllRows([], width), p, width)
  {}

  lemma OneMoreBatch(bs: seq<Batch>, b: Batch, out: seq<Batch>, p: seq<nat>, width: nat)
    requires BatchesOk(bs, width) && BatchOk(b, width) && BatchesOk(out, |p|) && ProjectionOk(p, width)
    requires Wide(AllRows(bs, width), width)
    requires AllRows(out, |p|) == ProjectRows(AllRows(bs, width), p, width)
    ensures BatchesOk(bs + [b], width) && BatchesOk(out + [ProjectBatch(b, p)], |p|)
    ensures Wide(AllRows(bs + [b], width), width)
    ensures AllRows(out + [ProjectBatch(b, p)], |p|) == ProjectRows(AllRows(bs + [b], width), p, width)
  {
    ProjectBatchRows(b, p, width);
    var more, outMore := bs + [b], out + [ProjectBatch(b, p)];
    hide ProjectRows, ProjectBatch, BatchOk, RowsOf, Wide, ProjectionOk;
    assert more[..|bs|] == bs && outMore[..|out|] == out;
    assert AllRows(more, width) == AllRows(bs, width) + RowsOf(b);
    assert AllRows(outMore, |p|) == AllRows(out, |p|) + RowsOf(ProjectBatch(b, p));
    ProjectRowsPlus(AllRows(bs, width), RowsOf(b), p, width);
  }

  lemma ProjectRowsPlus(a: seq<Row>, b: seq<Row>, p: seq<nat>, width: nat)
    requires Wide(a, width) && Wide(b, width) && ProjectionOk(p, width)
    ensures Wide(a + b, width)
    ensures ProjectRows(a + b, p, width) == ProjectRows(a, p, width) + ProjectRows(b, p, width)
  {}

  // ----------------------------------------------------------- reading a file back

  function ColumnsOf(rows: seq<Row>, width: nat): seq<seq<Cell>>
    requires Wide(rows, width)
  {
    seq(width, j requires 0 <= j < width =>
      seq(|rows|, i requires 0 <= i < |rows| =>
        assert rows[i] in rows;
        rows[i][j]))
  }

  /** The size of the last batch of `n` rows, for a reader that would make it `sizes`' last. */
  function LastSize(n: nat, sizes: seq<nat>): (k: nat)
    requires n > 0
    ensures 0 < k <= n
  {
    if sizes == [] then n
    else
      var k := sizes[|sizes| - 1];
      if k == 0 then 1 else if k > n then n else k
  }

  function Init(sizes: seq<nat>): seq<nat> {
    if sizes == [] then [] else sizes[..|sizes| - 1]
  }

  /** A Parquet file is read back in batches of whatever sizes the reader chooses. */
  function ReadBack(rows: seq<Row>, width: nat, sizes: seq<nat>): seq<Batch>
    requires Wide(rows, width)
    decreases |rows|
  {
    if rows == [] then [] else
      var n := LastSize(|rows|, sizes);
      var last := rows[|rows| - n..];
      assert forall r | r in rows[..|rows| - n] :: r in rows;
      assert forall r | r in last :: r in rows;
      ReadBack(rows[..|rows| - n], width, Init(sizes)) + [Batch(ColumnsOf(last, width), n)]
  }

  lemma AllRowsPush(bs: seq<Batch>, b: Batch, width: nat)
    requires BatchesOk(bs, width) && BatchOk(b, width)
    ensures BatchesOk(bs + [b], width) && AllRows(bs + [b], width) == AllRows(bs, width) + RowsOf(b)
  {
    hide BatchOk, RowsOf;
    assert (bs + [b])[..|bs|] == bs;
  }

  lemma ReadBackPush(rows: seq<Row>, last: seq<Row>, width: nat, sizes: seq<nat>)
    requires Wide(rows, width) && Wide(last, width) && last != []
    requires LastSize(|rows + last|, sizes) == |last|
    ensures Wide(rows + last, width)
    ensures ReadBack(rows + last, width, sizes)
            == ReadBack(rows, width, Init(sizes)) + [Batch(ColumnsOf(last, width), |last|)]
  {
    hide LastSize, Init, ColumnsOf;
    var all := rows + last;
    assert all[..|all| - |last|] == rows && all[|all| - |last|..] == last;
  }

  /** Writing and reading back re-batches the rows and keeps them. */
  lemma {:induction false} ReadBackKeepsRows(rows: seq<Row>, width: nat, sizes: seq<nat>)
    requires Wide(rows, width)
    ensures BatchesOk(ReadBack(rows, width, sizes), width)
    ensures AllRows(ReadBack(rows, width, sizes), width) == rows
    ensures ReadBack(rows, width, sizes) == [] <==> rows == []
    decreases |rows|
  {
    if rows == [] {
      assert ReadBack(rows, width, sizes) == [];
    } else {
      hide LastSize, Init, ColumnsOf, RowsOf, BatchOk, AllRows, ReadBack;
      var n := LastSize(|rows|, sizes);
      var init, last := rows[..|rows| - n], rows[|rows| - n..];
      assert forall r | r in init :: r in rows;
      assert forall r | r in last :: r in rows;
      assert rows == init + last;
      ReadBackKeepsRows(init, width, Init(sizes));
      ColumnsRows(last, width);
      ReadBackPush(init, last, width, sizes);
      AllRowsPush(ReadBack(init, width, Init(sizes)), Batch(ColumnsOf(last, width), n), width);
    }
  }

  function SizesOf(bs: seq<Batch>): (sizes: seq<nat>)
    ensures |sizes| == |bs| && forall i :: 0 <= i < |bs| ==> sizes[i] == bs[i].numRows
  {
    seq(|bs|, i requires 0 <= i < |bs| => bs[i].numRows)
  }

  /** Every way to cut the rows into batches that are not empty is covered. */
  lemma {:induction false} AnyBatching(bs: seq<Batch>, width: nat)
    requires BatchesOk(bs, width) && forall b | b in bs :: b.numRows > 0
    ensures Wide(AllRows(bs, width), width)
    ensures ReadBack(AllRows(bs, width), width, SizesOf(bs)) == bs
  {
    if bs == [] {
      assert AllRows(bs, width) == [];
    } else {
      hide RowsOf, BatchOk, ColumnsOf, AllRows, ReadBack, Wide, LastSize, Init, SizesOf;
      var n := |bs| - 1;
      var init, b := bs[..n], bs[n];
      assert b in bs && forall x | x in init :: x in bs;
      assert bs == init + [b];
      AnyBatching(init, width);
      BatchRows(b, width);
      AllRowsPush(init, b, width);
      LastOfSizes(init, b, |AllRows(bs, width)|);
      ReadBackPush(AllRows(init, width), RowsOf(b), width, SizesOf(bs));
    }
  }

  lemma LastOfSizes(init: seq<Batch>, b: Batch, n: nat)
    requires 0 < b.numRows <= n
    ensures LastSize(n, SizesOf(init + [b])) == b.numRows && Init(SizesOf(init + [b])) == SizesOf(init)
  {
    assert SizesOf(init + [b])[..|init|] == SizesOf(init);
  }

  lemma BatchRows(b: Batch, width: nat)
    requires BatchOk(b, width)
    ensures |RowsOf(b)| == b.numRows && Wide(RowsOf(b), width) && ColumnsOf(RowsOf(b), width) == b.columns
  {
    var rows := RowsOf(b);
    forall j | 0 <= j < width ensures ColumnsOf(rows, width)[j] == b.columns[j] {
      assert b.columns[j] in b.columns;
      assert forall i | 0 <= i < b.numRows :: RowAt(b, i)[j] == b.columns[j][i];
    }
  }

  lemma ColumnsRows(rows: seq<Row>, width: nat)
    requires Wide(rows, width)
    ensures var b := Batch(ColumnsOf(rows, width), |rows|); BatchOk(b, width) && RowsOf(b) == rows
  {
    var b := Batch(ColumnsOf(rows, width), |rows|);
    forall i | 0 <= i < |rows| ensures RowAt(b, i) == rows[i] {
      assert rows[i] in rows;
    }
  }
}
