/**
 * What the cache operations do to the disk (crates/pawrly-engine/src/cache.rs), step by step: each
 * operation is the list of disk states it passes through, and a crash stops it after any of them.
 * Operations do not overlap here; `ManifestMerge` covers overlapping manifest updates.
 *
 * Renames are atomic, and a file that was synced before its rename is complete after it.
 */
module CacheDisk {
  import opened Prelude
  import opened Manifest
  import opened Projection

  /** A data file: its length and, once completely written, its rows. */
  datatype Blob = Blob(len: nat, rows: Option<seq<Row>>)

  datatype DiskState = DiskState(files: map<Path, Blob>, manifest: Option<Content>, tmps: map<nat, Content>)

  const EMPTY := DiskState(map[], None, map[])

  function Listed(d: DiskState): seq<Entry> {
    ReadFile(d.manifest)
  }

  // ------------------------------------------------------------------- single steps

  function PutFile(d: DiskState, p: Path, b: Blob): DiskState {
    d.(files := d.files[p := b])
  }

  /** A rename replaces whatever was at the destination; without a source it does nothing. */
  function MoveFile(d: DiskState, from: Path, to: Path): DiskState {
    if from in d.files then d.(files := (d.files - {from})[to := d.files[from]]) else d
  }

  function DeleteFile(d: DiskState, p: Path): DiskState {
    d.(files := d.files - {p})
  }

  function PutTmp(d: DiskState, id: nat, c: Content): DiskState {
    d.(tmps := d.tmps[id := c])
  }

  function MoveTmp(d: DiskState, id: nat): DiskState {
    if id in d.tmps then d.(manifest := Some(d.tmps[id]), tmps := d.tmps - {id}) else d
  }

  // ------------------------------------------------------------------ step sequences

  /** `write_manifest_disk`: create a temporary file, fill and sync it, rename it. */
  function ManifestSteps(d: DiskState, delta: Delta, id: nat): (ds: seq<DiskState>)
    ensures |ds| == 3
  {
    var d1 := PutTmp(d, id, Torn);
    var d2 := PutTmp(d1, id, Whole(Apply(delta, Listed(d))));
    [d1, d2, MoveTmp(d2, id)]
  }

  /** `atomic_write_parquet`: create a temporary file, fill and sync it, rename it. */
  function ParquetSteps(d: DiskState, id: nat, path: Path, blob: Blob): (ds: seq<DiskState>)
    ensures |ds| == 3
  {
    var d1 := PutFile(d, TmpFile(id), Blob(0, None));
    var d2 := PutFile(d1, TmpFile(id), blob);
    [d1, d2, MoveFile(d2, TmpFile(id), path)]
  }

  function DeleteSteps(d: DiskState, paths: seq<Path>): (ds: seq<DiskState>)
    ensures |ds| == |paths|
  {
    if paths == [] then [] else
      var before := DeleteSteps(d, paths[..|paths| - 1]);
      before + [DeleteFile(Final(d, before), paths[|paths| - 1])]
  }

  function Final(d: DiskState, ds: seq<DiskState>): DiskState {
    if ds == [] then d else ds[|ds| - 1]
  }

  /** The entry an `invalidate` or `drop_materialized` takes out. */
  function FirstKilled(delta: Delta, es: seq<Entry>): Option<Entry> {
    if es == [] then None
    else if Kills(delta, es[0]) then Some(es[0])
    else FirstKilled(delta, es[1..])
  }

  /** The entries a vacuum takes out, in manifest order. */
  function Expired(es: seq<Entry>, now: int): (r: seq<Entry>)
    ensures forall e :: e in r <==> e in es && !Survives(e, now)
  {
    if es == [] then [] else
      var last := es[|es| - 1];
      Expired(es[..|es| - 1], now) + (if Survives(last, now) then [] else [last])
  }

  function PathsOf(es: seq<Entry>): (ps: seq<Path>)
    ensures |ps| == |es| && forall i :: 0 <= i < |es| ==> ps[i] == es[i].path
  {
    seq(|es|, i requires 0 <= i < |es| => es[i].path)
  }

  /** As many of the steps as an operation reaches. */
  function Reached(ds: seq<DiskState>, reach: nat): seq<DiskState> {
    if reach < |ds| then ds[..reach] else ds
  }

  /** A manifest write that reaches this many steps has succeeded. */
  const ALL_WRITTEN := 3

  /**
   * The operations with what the environment settles: fresh file names, how far a quarantine's
   * manifest write gets and whether its move succeeds, and the order in which directories list
   * their files. An operation that fails stops after some of its steps, as in a crash; only a
   * quarantine goes on.
   */
  datatype Op =
    | Write(entry: Entry, blob: Blob, fileId: nat, id: nat)
    | Remove(delta: Delta, id: nat)
    | SetAside(key: Key, corruptId: nat, id: nat, reach: nat, moves: bool)
    | Reclaim(now: int, id: nat, unreferenced: seq<Path>, oldTmps: seq<Path>)
    | Open(oldTmps: seq<Path>)

  function OpSteps(d: DiskState, op: Op): seq<DiskState> {
    match op
    case Write(entry, blob, fileId, id) =>
      var written := ParquetSteps(d, fileId, entry.path, blob);
      written + ManifestSteps(Final(d, written), Upsert(entry), id)
    case Remove(delta, id) =>
      var listed := ManifestSteps(d, delta, id);
      var gone := FirstKilled(delta, Listed(d));
      if gone.None? then listed else listed + [DeleteFile(Final(d, listed), gone.value.path)]
    case SetAside(key, corruptId, id, reach, moves) =>
      var path := DataPath(key);
      var listed := Reached(ManifestSteps(d, Quarantine(key, path), id), reach);
      var d' := Final(d, listed);
      if path !in d'.files then listed
      else listed + [if moves then MoveFile(d', path, CorruptFile(key.source, key.table, corruptId))
                     else DeleteFile(d', path)]
    case Reclaim(now, id, unreferenced, oldTmps) =>
      var listed := ManifestSteps(d, Vacuum(now), id);
      listed + DeleteSteps(Final(d, listed), PathsOf(Expired(Listed(d), now)) + unreferenced + oldTmps)
    case Open(oldTmps) => DeleteSteps(d, oldTmps)
  }

  // ---------------------------------------------------------------- crash consistency

  /** The entry's file is in its place; without `whole` it may be missing, but is complete if there. */
  ghost predicate EntryOk(d: DiskState, e: Entry, whole: bool) {
    && e.path == DataPath(e.key)
    && (whole ==> e.path in d.files) && (e.path in d.files ==> d.files[e.path].rows.Some?)
  }

  /** The manifest is whole, and every entry in it points to a complete file of its own. */
  ghost predicate Consistent(d: DiskState, whole: bool) {
    && d.manifest != Some(Torn)
    && UniqueKeys(Listed(d))
    && forall e | e in Listed(d) :: EntryOk(d, e, whole)
  }

  ghost predicate EntryHolds(d: DiskState, e: Entry, rows: seq<Row>) {
    e.path in d.files ==> d.files[e.path].rows == Some(rows)
  }

  /** Every listed rollup's file holds the whole result of its query. */
  ghost predicate RollupsOk(d: DiskState, results: map<Key, seq<Row>>) {
    forall e | e in Listed(d) && e.key in results :: EntryHolds(d, e, results[e.key])
  }

  ghost predicate Good(d: DiskState, results: map<Key, seq<Row>>, whole: bool) {
    Consistent(d, whole) && RollupsOk(d, results)
  }

  ghost predicate AllGood(ds: seq<DiskState>, results: map<Key, seq<Row>>, whole: bool) {
    forall i :: 0 <= i < |ds| ==> Good(ds[i], results, whole)
  }

  /** No listed entry needs the file. */
  ghost predicate Unlisted(d: DiskState, p: Path) {
    forall e | e in Listed(d) :: e.path != p
  }

  /**
   * What callers respect: files are complete and in their place, a rollup is written with its
   * whole result, a vacuum deletes only unreferenced data files and temporary ones. For `whole`
   * disks a quarantine whose manifest write fails is let in only when it has nothing to unlist.
   */
  ghost predicate Allowed(d: DiskState, op: Op, results: map<Key, seq<Row>>, whole: bool) {
    match op
    case Write(entry, blob, _, _) =>
      && entry.path == DataPath(entry.key) && blob.rows.Some?
      && (entry.key in results ==> blob.rows.value == results[entry.key])
    case Remove(delta, _) => delta.Invalidate? || delta.DropMaterialized?
    case SetAside(key, _, _, reach, _) => whole ==> reach >= ALL_WRITTEN || Unlisted(d, DataPath(key))
    case Reclaim(now, _, unreferenced, oldTmps) =>
      && (forall p | p in unreferenced :: p.DataFile? && forall e | e in Listed(d) :: Survives(e, now) ==> e.path != p)
      && (forall p | p in oldTmps :: p.TmpFile?)
    case Open(oldTmps) => forall p | p in oldTmps :: p.TmpFile?
  }

  // ------------------------------------------------------------- steps that are safe

  /** With the same manifest: listed files are as before, or gone where that is allowed. */
  lemma SameListing(d: DiskState, d': DiskState, results: map<Key, seq<Row>>, whole: bool)
    requires Good(d, results, whole) && d'.manifest == d.manifest
    requires forall e | e in Listed(d) && e.path in d'.files :: e.path in d.files && d'.files[e.path] == d.files[e.path]
    requires whole ==> forall e | e in Listed(d) :: e.path in d'.files
    ensures Good(d', results, whole)
  {
    forall e | e in Listed(d) ensures EntryOk(d', e, whole) {
      assert EntryOk(d, e, whole);
    }
    forall e | e in Listed(d) && e.key in results ensures EntryHolds(d', e, results[e.key]) {
      assert EntryHolds(d, e, results[e.key]);
    }
  }

  /** Shrinking the list, or adding an entry whose file is in place, keeps the promise. */
  lemma Relisted(d: DiskState, d': DiskState, results: map<Key, seq<Row>>, whole: bool)
    requires d'.manifest.Some? && d'.manifest.value.Whole? && d'.files == d.files && UniqueKeys(Listed(d'))
    requires forall e | e in Listed(d') :: EntryOk(d, e, whole)
    requires forall e | e in Listed(d') && e.key in results :: EntryHolds(d, e, results[e.key])
    ensures Good(d', results, whole)
  {}

  /** With the same manifest and the same files at listed paths. */
  lemma SameFiles(d: DiskState, d': DiskState, results: map<Key, seq<Row>>, whole: bool)
    requires Good(d, results, whole) && d'.manifest == d.manifest
    requires forall p: Path | p.DataFile? :: p in d'.files <==> p in d.files
    requires forall p: Path | p.DataFile? && p in d.files :: d'.files[p] == d.files[p]
    ensures Good(d', results, whole)
  {
    forall e | e in Listed(d) ensures e.path.DataFile? && (whole ==> e.path in d.files) {
      GoodEntry(d, e, results, whole);
    }
    SameListing(d, d', results, whole);
  }

  lemma ManifestStepsGood(d: DiskState, delta: Delta, id: nat, results: map<Key, seq<Row>>, whole: bool)
    requires Good(d, results, whole)
    requires delta.Upsert? ==> EntryOk(d, delta.entry, whole)
    requires delta.Upsert? && delta.entry.key in results ==> EntryHolds(d, delta.entry, results[delta.entry.key])
    ensures AllGood(ManifestSteps(d, delta, id), results, whole)
    ensures var d' := Final(d, ManifestSteps(d, delta, id));
            Listed(d') == Apply(delta, Listed(d)) && d'.files == d.files
  {
    hide Apply, Kills, EntryOk, Good, UniqueKeys;
    assert UniqueKeys(Listed(d)) by { GoodUnique(d, results, whole); }
    ApplyMeans(delta, Listed(d));
    var ds := ManifestSteps(d, delta, id);
    SameFiles(d, ds[0], results, whole);
    SameFiles(d, ds[1], results, whole);
    forall e | e in Listed(ds[2])
      ensures EntryOk(d, e, whole) && (e.key in results ==> EntryHolds(d, e, results[e.key]))
    {
      if delta != Upsert(e) {
        GoodEntry(d, e, results, whole);
      }
    }
    Relisted(d, ds[2], results, whole);
  }

  lemma GoodUnique(d: DiskState, results: map<Key, seq<Row>>, whole: bool)
    requires Good(d, results, whole)
    ensures UniqueKeys(Listed(d))
  {}

  lemma GoodEntry(d: DiskState, e: Entry, results: map<Key, seq<Row>>, whole: bool)
    requires Good(d, results, whole) && e in Listed(d)
    ensures EntryOk(d, e, whole) && (e.key in results ==> EntryHolds(d, e, results[e.key]))
  {}

  /** A data file is replaced by a complete one in a single step. */
  lemma ParquetStepsGood(d: DiskState, id: nat, key: Key, blob: Blob, results: map<Key, seq<Row>>, whole: bool)
    requires Good(d, results, whole) && blob.rows.Some?
    requires key in results ==> blob.rows.value == results[key]
    ensures AllGood(ParquetSteps(d, id, DataPath(key), blob), results, whole)
    ensures var d' := Final(d, ParquetSteps(d, id, DataPath(key), blob));
            d'.manifest == d.manifest && DataPath(key) in d'.files && d'.files[DataPath(key)] == blob
  {
    var ds := ParquetSteps(d, id, DataPath(key), blob);
    SameFiles(d, ds[0], results, whole);
    SameFiles(d, ds[1], results, whole);
    forall e | e in Listed(d)
      ensures EntryOk(ds[2], e, whole) && (e.key in results ==> EntryHolds(ds[2], e, results[e.key]))
    {
      GoodEntry(d, e, results, whole);
    }
  }

  /** Deleting files that no entry needs. */
  lemma {:induction false} DeleteStepsGood(d: DiskState, paths: seq<Path>, results: map<Key, seq<Row>>, whole: bool)
    requires Good(d, results, whole) && (whole ==> forall p | p in paths :: Unlisted(d, p))
    ensures AllGood(DeleteSteps(d, paths), results, whole)
    ensures var d' := Final(d, DeleteSteps(d, paths));
            d'.manifest == d.manifest && d'.tmps == d.tmps && d'.files == d.files - Elements(paths)
  {
    hide Good;
    if paths != [] {
      var n := |paths| - 1;
      assert forall p | p in paths[..n] :: p in paths;
      DeleteStepsGood(d, paths[..n], results, whole);
      var d' := Final(d, DeleteSteps(d, paths[..n]));
      assert paths[n] in paths;
      assert Good(d', results, whole);
      assert whole ==> Unlisted(d', paths[n]);
      SafeRemoval(d', DeleteFile(d', paths[n]), paths[n], results, whole);
      assert Elements(paths) == Elements(paths[..n]) + {paths[n]};
    }
  }

  /** One file goes, wherever it goes to; other data files are as before. */
  lemma SafeRemoval(d: DiskState, d': DiskState, p: Path, results: map<Key, seq<Row>>, whole: bool)
    requires Good(d, results, whole) && (whole ==> Unlisted(d, p)) && d'.manifest == d.manifest
    requires forall q: Path | q.DataFile? && q in d'.files :: q in d.files && d'.files[q] == d.files[q]
    requires forall q: Path | q.DataFile? && q in d.files && q != p :: q in d'.files
    ensures Good(d', results, whole)
  {
    forall e | e in Listed(d) ensures e.path.DataFile? && (whole ==> e.path in d.files && e.path != p) {
      GoodEntry(d, e, results, whole);
    }
    SameListing(d, d', results, whole);
  }

  // --------------------------------------------------------------- the operations

  /** An entry taken out leaves no entry at its path. */
  lemma KilledUnlisted(d: DiskState, delta: Delta, e: Entry, results: map<Key, seq<Row>>, whole: bool)
    requires Good(d, results, whole) && e in Listed(d) && Kills(delta, e) && !delta.Upsert?
    ensures forall x | x in Apply(delta, Listed(d)) :: x.path != e.path
  {
    ApplyMeans(delta, Listed(d));
    forall x | x in Apply(delta, Listed(d)) ensures x.path != e.path {
      GoodEntry(d, e, results, whole);
      GoodEntry(d, x, results, whole);
      var es := Listed(d);
      var i :| 0 <= i < |es| && es[i] == e;
      var j :| 0 <= j < |es| && es[j] == x;
      assert i != j;
    }
  }

  lemma {:induction false} FirstKilledListed(delta: Delta, es: seq<Entry>)
    ensures FirstKilled(delta, es).Some? ==>
      FirstKilled(delta, es).value in es && Kills(delta, FirstKilled(delta, es).value)
    ensures FirstKilled(delta, es).None? ==> forall e | e in es :: !Kills(delta, e)
  {
    if es != [] && !Kills(delta, es[0]) {
      FirstKilledListed(delta, es[1..]);
      assert es == [es[0]] + es[1..];
    }
  }

  lemma Joined(a: seq<DiskState>, b: seq<DiskState>, d: DiskState, results: map<Key, seq<Row>>, whole: bool)
    requires AllGood(a, results, whole) && AllGood(b, results, whole)
    ensures AllGood(a + b, results, whole) && Final(d, a + b) == Final(Final(d, a), b)
  {
    hide Good;
  }

  lemma WriteGood(d: DiskState, op: Op, results: map<Key, seq<Row>>, whole: bool)
    requires op.Write? && Good(d, results, whole) && Allowed(d, op, results, whole)
    ensures AllGood(OpSteps(d, op), results, whole)
  {
    hide Good, Apply, Kills, ParquetSteps, ManifestSteps;
    var written := ParquetSteps(d, op.fileId, op.entry.path, op.blob);
    ParquetStepsGood(d, op.fileId, op.entry.key, op.blob, results, whole);
    var d' := Final(d, written);
    assert d' == written[2];
    ManifestStepsGood(d', Upsert(op.entry), op.id, results, whole);
    Joined(written, ManifestSteps(d', Upsert(op.entry), op.id), d, results, whole);
  }

  lemma RemoveGood(d: DiskState, op: Op, results: map<Key, seq<Row>>, whole: bool)
    requires op.Remove? && Good(d, results, whole) && Allowed(d, op, results, whole)
    ensures AllGood(OpSteps(d, op), results, whole)
  {
    hide Good, Apply, Kills, ManifestSteps;
    var listed := ManifestSteps(d, op.delta, op.id);
    ManifestStepsGood(d, op.delta, op.id, results, whole);
    FirstKilledListed(op.delta, Listed(d));
    var gone := FirstKilled(op.delta, Listed(d));
    if gone.Some? {
      var d' := Final(d, listed);
      assert d' == listed[2];
      KilledUnlisted(d, op.delta, gone.value, results, whole);
      assert Unlisted(d', gone.value.path);
      SafeRemoval(d', DeleteFile(d', gone.value.path), gone.value.path, results, whole);
      Joined(listed, [DeleteFile(d', gone.value.path)], d, results, whole);
    }
  }

  lemma PrefixGood(ds: seq<DiskState>, reach: nat, results: map<Key, seq<Row>>, whole: bool)
    requires AllGood(ds, results, whole)
    ensures AllGood(Reached(ds, reach), results, whole)
  {
    hide Good;
  }

  /** A manifest write that fails leaves the manifest and the files alone. */
  lemma Unwritten(d: DiskState, delta: Delta, id: nat, reach: nat)
    requires reach < ALL_WRITTEN
    ensures var d' := Final(d, Reached(ManifestSteps(d, delta, id), reach));
            d'.manifest == d.manifest && d'.files == d.files
  {
    hide Apply;
  }

  lemma SetAsideGood(d: DiskState, op: Op, results: map<Key, seq<Row>>, whole: bool)
    requires op.SetAside? && Good(d, results, whole) && Allowed(d, op, results, whole)
    ensures AllGood(OpSteps(d, op), results, whole)
  {
    hide Good, Apply, ManifestSteps;
    var path := DataPath(op.key);
    var delta := Quarantine(op.key, path);
    var all := ManifestSteps(d, delta, op.id);
    var listed := Reached(all, op.reach);
    var d' := Final(d, listed);
    ManifestStepsGood(d, delta, op.id, results, whole);
    PrefixGood(all, op.reach, results, whole);
    assert |listed| == 0 || d' == listed[|listed| - 1];
    assert Good(d', results, whole);
    if op.reach >= ALL_WRITTEN {
      GoodUnique(d, results, whole);
      ApplyMeans(delta, Listed(d));
      forall e | e in Listed(d') ensures e.path != path {
        GoodEntry(d, e, results, whole);
      }
    } else {
      Unwritten(d, delta, op.id, op.reach);
    }
    assert whole ==> Unlisted(d', path);
    if path in d'.files {
      var moved := MoveFile(d', path, CorruptFile(op.key.source, op.key.table, op.corruptId));
      SafeRemoval(d', moved, path, results, whole);
      SafeRemoval(d', DeleteFile(d', path), path, results, whole);
      Joined(listed, [if op.moves then moved else DeleteFile(d', path)], d, results, whole);
    }
  }

  lemma ReclaimGood(d: DiskState, op: Op, results: map<Key, seq<Row>>, whole: bool)
    requires op.Reclaim? && Good(d, results, whole) && Allowed(d, op, results, whole)
    ensures AllGood(OpSteps(d, op), results, whole)
  {
    hide Good, Apply, ManifestSteps, DeleteSteps;
    var listed := ManifestSteps(d, Vacuum(op.now), op.id);
    ManifestStepsGood(d, Vacuum(op.now), op.id, results, whole);
    var d' := Final(d, listed);
    assert d' == listed[2];
    var gone := Expired(Listed(d), op.now);
    var paths := PathsOf(gone) + op.unreferenced + op.oldTmps;
    GoodUnique(d, results, whole);
    ApplyMeans(Vacuum(op.now), Listed(d));
    forall p | p in paths ensures Unlisted(d', p) {
      if p in PathsOf(gone) {
        var i :| 0 <= i < |gone| && PathsOf(gone)[i] == p;
        assert gone[i] in gone;
        KilledUnlisted(d, Vacuum(op.now), gone[i], results, whole);
      } else {
        forall e | e in Listed(d') ensures e.path != p {
          GoodEntry(d, e, results, whole);
        }
      }
    }
    DeleteStepsGood(d', paths, results, whole);
    Joined(listed, DeleteSteps(d', paths), d, results, whole);
  }

  /** Every state an operation passes through is good. */
  lemma OpGood(d: DiskState, op: Op, results: map<Key, seq<Row>>, whole: bool)
    requires Good(d, results, whole) && Allowed(d, op, results, whole)
    ensures AllGood(OpSteps(d, op), results, whole)
  {
    match op
    case Write(_, _, _, _) => WriteGood(d, op, results, whole);
    case Remove(_, _) => RemoveGood(d, op, results, whole);
    case SetAside(_, _, _, _, _) => SetAsideGood(d, op, results, whole);
    case Reclaim(_, _, _, _) => ReclaimGood(d, op, results, whole);
    case Open(oldTmps) =>
      forall p | p in oldTmps ensures Unlisted(d, p) {
        forall e | e in Listed(d) ensures e.path != p { GoodEntry(d, e, results, whole); }
      }
      DeleteStepsGood(d, oldTmps, results, whole);
  }

  // ------------------------------------------------------------- runs with crashes

  /** An operation that stops after `steps` of its steps: a crash, or the end. */
  datatype Happening = Happening(op: Op, steps: nat)

  function Stopped(d: DiskState, h: Happening): DiskState {
    var ds := OpSteps(d, h.op);
    Final(d, Reached(ds, h.steps))
  }

  function After(d: DiskState, hs: seq<Happening>): DiskState {
    if hs == [] then d else Stopped(After(d, hs[..|hs| - 1]), hs[|hs| - 1])
  }

  ghost predicate AllAllowed(d: DiskState, hs: seq<Happening>, results: map<Key, seq<Row>>, whole: bool) {
    hs == [] ||
    (AllAllowed(d, hs[..|hs| - 1], results, whole)
     && Allowed(After(d, hs[..|hs| - 1]), hs[|hs| - 1].op, results, whole))
  }

  /**
   * Starting empty, after any operations, each stopped by a crash or an I/O error after any of
   * its disk steps, or not: the manifest is not torn, and in every entry's place there is a
   * complete file, which for a rollup holds its whole result. If a quarantine never moved a file
   * it could not unlist, every file is there; otherwise some may be missing, but none is wrong.
   */
  lemma {:induction false} CrashesAreSafe(hs: seq<Happening>, results: map<Key, seq<Row>>, whole: bool)
    requires AllAllowed(EMPTY, hs, results, whole)
    ensures Good(After(EMPTY, hs), results, whole)
  {
    hide Good, Allowed, OpSteps, Reached;
    if hs == [] {
      EmptyGood(results, whole);
    } else {
      var before, h := After(EMPTY, hs[..|hs| - 1]), hs[|hs| - 1];
      CrashesAreSafe(hs[..|hs| - 1], results, whole);
      OpGood(before, h.op, results, whole);
      PrefixGood(OpSteps(before, h.op), h.steps, results, whole);
    }
  }

  lemma EmptyGood(results: map<Key, seq<Row>>, whole: bool)
    ensures Good(EMPTY, results, whole)
  {}

  /**
   * The one exception: `quarantine` ignores a failed manifest write and moves the file anyway.
   * The disk stays consistent exactly when the write succeeds or there is no entry to unlist.
   */
  lemma QuarantineExactly(d: DiskState, key: Key, corruptId: nat, id: nat, reach: nat, moves: bool)
    requires Consistent(d, true)
    ensures Consistent(Final(d, OpSteps(d, SetAside(key, corruptId, id, reach, moves))), true) <==>
            reach >= ALL_WRITTEN || Unlisted(d, DataPath(key))
  {
    var op := SetAside(key, corruptId, id, reach, moves);
    var steps := OpSteps(d, op);
    assert Good(d, map[], true);
    if reach >= ALL_WRITTEN || Unlisted(d, DataPath(key)) {
      SetAsideGood(d, op, map[], true);
      assert steps == [] || Final(d, steps) == steps[|steps| - 1];
    } else {
      var e :| e in Listed(d) && e.path == DataPath(key);
      assert EntryOk(d, e, true);
      var d' := Final(d, steps);
      assert Listed(d') == Listed(d) && e.path !in d'.files;
      assert !EntryOk(d', e, true);
    }
  }

  /** Only this table's file may be missing. */
  ghost predicate OnlyMissing(d: DiskState, key: Key) {
    forall e | e in Listed(d) && e.path !in d.files :: e.key == key
  }

  /** Writing the table again repairs the disk, from the moment its file is renamed into place. */
  lemma WriteHeals(d: DiskState, op: Op, results: map<Key, seq<Row>>)
    requires op.Write? && Good(d, results, false) && Allowed(d, op, results, false) && OnlyMissing(d, op.entry.key)
    ensures forall i :: ALL_WRITTEN - 1 <= i < |OpSteps(d, op)| ==> Good(OpSteps(d, op)[i], results, true)
  {
    hide Apply, Kills, ManifestSteps, UniqueKeys;
    var written := ParquetSteps(d, op.fileId, op.entry.path, op.blob);
    ParquetStepsGood(d, op.fileId, op.entry.key, op.blob, results, false);
    var d' := Final(d, written);
    forall e | e in Listed(d') ensures EntryOk(d', e, true) {
      GoodEntry(d, e, results, false);
    }
    ManifestStepsGood(d', Upsert(op.entry), op.id, results, true);
  }
}
