/**
 * `DurableActivityStore` (crates/pawrly-engine/src/durable_activity.rs) used by one task at a time:
 * the operations as written, with what each does to the records held. `Activity` covers
 * interleavings.
 */
module ActivityStore {
  import opened Prelude
  import opened Activity

  /** The records of the listed files, in file order. */
  function FileRecords(disk: map<Path, seq<Rec>>, es: seq<FileEntry>): seq<Rec> {
    if es == [] then [] else
      var e := es[|es| - 1];
      FileRecords(disk, es[..|es| - 1]) + (if e.path in disk then disk[e.path] else [])
  }

  ghost predicate ListedOk(disk: map<Path, seq<Rec>>, es: seq<FileEntry>) {
    && (forall i :: 0 <= i < |es| ==>
          es[i].path in disk && disk[es[i].path] != [] && Accurate(es[i], multiset(disk[es[i].path])))
    && DistinctPaths(es)
  }

  ghost predicate DistinctPaths(es: seq<FileEntry>) {
    forall i, j :: 0 <= i < j < |es| ==> es[i].path != es[j].path
  }

  /** The entries that survive a cutoff: those with some record at or after it. */
  function Survivors(es: seq<FileEntry>, cutoff: int): (r: seq<FileEntry>)
    ensures forall e :: e in r <==> e in es && e.maxAt >= cutoff
  {
    if es == [] then [] else
      var e := es[|es| - 1];
      Survivors(es[..|es| - 1], cutoff) + (if e.maxAt >= cutoff then [e] else [])
  }

  /** The files of the other entries. */
  function DroppedPaths(es: seq<FileEntry>, cutoff: int): (r: set<Path>)
    ensures forall p :: p in r <==> exists e :: e in es && e.maxAt < cutoff && e.path == p
  {
    if es == [] then {} else
      var e := es[|es| - 1];
      DroppedPaths(es[..|es| - 1], cutoff) + (if e.maxAt < cutoff then {e.path} else {})
  }

  /** An entry survives exactly when its file holds a record that is not too old. */
  lemma SurvivesWhenRecent(e: FileEntry, rs: multiset<Rec>, cutoff: int)
    requires Accurate(e, rs)
    ensures e.maxAt >= cutoff <==> exists r :: r in rs && r.at >= cutoff
  {}

  lemma {:induction false} SameOnListed(disk: map<Path, seq<Rec>>, disk': map<Path, seq<Rec>>, es: seq<FileEntry>)
    requires forall i :: 0 <= i < |es| ==>
      es[i].path in disk && es[i].path in disk' && disk[es[i].path] == disk'[es[i].path]
    ensures FileRecords(disk, es) == FileRecords(disk', es)
  {
    if es != [] {
      SameOnListed(disk, disk', es[..|es| - 1]);
    }
  }

  /** A new file changes nothing until it is listed, and then its records come last. */
  lemma NewFile(disk: map<Path, seq<Rec>>, es: seq<FileEntry>, path: Path, rs: seq<Rec>)
    requires ListedOk(disk, es) && path !in disk && rs != []
    ensures var disk', es' := disk[path := rs], es + [EntryFor(path, rs)];
      && ListedOk(disk', es) && FileRecords(disk', es) == FileRecords(disk, es)
      && ListedOk(disk', es') && FileRecords(disk', es') == FileRecords(disk, es) + rs
  {
    hide Accurate;
    var disk', es' := disk[path := rs], es + [EntryFor(path, rs)];
    SameOnListed(disk, disk', es);
    EntryAccurate(path, rs);
    assert es'[..|es|] == es;
  }

  /** How a flush fares: it cannot write its file, or cannot list it, or neither. */
  datatype FlushIo = Succeeds | NoFile | NoEntry

  type Threshold = n: nat | n >= 1 witness 1

  class DurableActivityStore {
    const flushThreshold: Threshold
    var pending: seq<Rec>
    var disk: map<Path, seq<Rec>>
    var manifest: seq<FileEntry>

    ghost predicate Valid()
      reads this
    {
      ListedOk(disk, manifest)
    }

    /** All records the store holds, oldest file first, pending last. */
    ghost function Records(): seq<Rec>
      reads this
    {
      FileRecords(disk, manifest) + pending
    }

    constructor (flushThreshold: nat)
      ensures Valid() && Records() == [] && this.flushThreshold == if flushThreshold == 0 then 1 else flushThreshold
    {
      this.flushThreshold := if flushThreshold == 0 then 1 else flushThreshold;
      pending, disk, manifest := [], map[], [];
    }

    /**
     * Nothing is lost or reordered by a flush that succeeds: the records move to a new last file.
     * One that cannot write the file, or list it, loses exactly the records it took.
     */
    method Flush(path: Path, io: FlushIo) returns (ok: bool)
      requires Valid() && path !in disk
      modifies this
      ensures Valid() && pending == [] && ok == (old(pending) == [] || io == Succeeds)
      ensures Records() == if ok then old(Records()) else old(FileRecords(disk, manifest))
      ensures disk.Keys <= old(disk.Keys) + {path}
      ensures manifest == if old(pending) == [] || !ok then old(manifest)
                          else old(manifest) + [EntryFor(path, old(pending))]
    {
      hide ListedOk, FileRecords, EntryFor;
      var records := pending;
      pending := [];
      assert FileRecords(disk, manifest) + [] == FileRecords(disk, manifest);
      if records == [] {
        return true;
      }
      if io == NoFile {
        return false;
      }
      NewFile(disk, manifest, path, records);
      disk := disk[path := records];
      assert FileRecords(disk, manifest) + [] == FileRecords(disk, manifest);
      if io == NoEntry {
        return false;
      }
      manifest := manifest + [EntryFor(path, records)];
      assert FileRecords(disk, manifest) + [] == FileRecords(disk, manifest);
      return true;
    }

    /** A record is appended; a full buffer is flushed at once, and a failure to do so is only logged. */
    method Record(r: Rec, path: Path, io: FlushIo)
      requires Valid() && path !in disk
      modifies this
      ensures Valid() && |pending| < flushThreshold
      ensures Records() == if |old(pending)| + 1 < flushThreshold || io == Succeeds then old(Records()) + [r]
                           else old(FileRecords(disk, manifest))
      ensures disk.Keys <= old(disk.Keys) + {path}
    {
      pending := pending + [r];
      assert Records() == old(Records()) + [r];
      if |pending| >= flushThreshold {
        var ok := Flush(path, io);
      }
    }

    /** A scan returns every record held, once and in order, less the files it cannot read. */
    method ReadBatches(unreadable: set<Path>) returns (rows: seq<Rec>)
      requires Valid()
      ensures rows == FileRecords(disk - unreadable, manifest) + pending
      ensures unreadable == {} ==> rows == Records()
    {
      hide ListedOk, Accurate;
      var files := manifest;
      rows := [];
      for i := 0 to |files|
        invariant rows == FileRecords(disk - unreadable, files[..i])
      {
        assert files[..i + 1][..i] == files[..i];
        var path := files[i].path;
        if path in disk && path !in unreadable {
          rows := rows + disk[path];
        }
      }
      assert files[..|files|] == files;
      assert disk - {} == disk;
      rows := rows + pending;
    }

    /** Whole files go, exactly those with no record at or after the cutoff. */
    method Prune(cutoff: int)
      requires Valid()
      modifies this
      ensures Valid() && pending == old(pending)
      ensures manifest == Survivors(old(manifest), cutoff)
      ensures disk == old(disk) - DroppedPaths(old(manifest), cutoff)
      ensures forall e :: e in old(manifest) ==>
        (e in manifest <==> exists r :: r in multiset(old(disk)[e.path]) && r.at >= cutoff)
      ensures forall e :: e in manifest ==> e.path in disk && disk[e.path] == old(disk)[e.path]
    {
      hide ListedOk, Accurate, FileRecords, Survivors, DroppedPaths;
      var files := manifest;
      PruneStart(cutoff);
      var kept: seq<FileEntry> := [];
      for i := 0 to |files|
        invariant kept == Survivors(files[..i], cutoff)
        invariant disk == old(disk) - DroppedPaths(files[..i], cutoff)
        invariant pending == old(pending) && manifest == old(manifest)
      {
        PruneOneMore(files, i, cutoff);
        if files[i].maxAt >= cutoff {
          kept := kept + [files[i]];
        } else {
          disk := disk - {files[i].path};
        }
      }
      assert files[..|files|] == files;
      manifest := kept;
      PruneKeeps(old(disk), files, cutoff);
    }
  }

  lemma PruneStart(cutoff: int)
    ensures Survivors([], cutoff) == [] && DroppedPaths([], cutoff) == {}
  {}

  lemma PruneOneMore(es: seq<FileEntry>, i: nat, cutoff: int)
    requires i < |es|
    ensures Survivors(es[..i + 1], cutoff)
            == Survivors(es[..i], cutoff) + (if es[i].maxAt >= cutoff then [es[i]] else [])
    ensures DroppedPaths(es[..i + 1], cutoff)
            == DroppedPaths(es[..i], cutoff) + (if es[i].maxAt < cutoff then {es[i].path} else {})
  {
    assert es[..i + 1][..i] == es[..i];
  }

  /** Dropping some listed files leaves the survivors listed and their files in place. */
  lemma PruneKeeps(disk: map<Path, seq<Rec>>, es: seq<FileEntry>, cutoff: int)
    requires ListedOk(disk, es)
    ensures var disk' := disk - DroppedPaths(es, cutoff);
      && ListedOk(disk', Survivors(es, cutoff))
      && (forall e | e in Survivors(es, cutoff) :: e.path in disk' && disk'[e.path] == disk[e.path])
    ensures forall e | e in es ::
      e.path in disk
      && (e in Survivors(es, cutoff) <==> exists r :: r in multiset(disk[e.path]) && r.at >= cutoff)
  {
    var disk' := disk - DroppedPaths(es, cutoff);
    forall e | e in Survivors(es, cutoff) ensures e.path in disk' && disk'[e.path] == disk[e.path] {
      var i :| 0 <= i < |es| && es[i] == e;
      assert forall j | 0 <= j < |es| && es[j].path == e.path :: j == i;
      assert e.path !in DroppedPaths(es, cutoff);
    }
    forall e | e in es
      ensures e.path in disk
      ensures e in Survivors(es, cutoff) <==> exists r :: r in multiset(disk[e.path]) && r.at >= cutoff
    {
      var i :| 0 <= i < |es| && es[i] == e;
      SurvivesWhenRecent(e, multiset(disk[e.path]), cutoff);
    }
    SurvivorsDistinct(es, cutoff);
    forall i | 0 <= i < |Survivors(es, cutoff)|
      ensures var e := Survivors(es, cutoff)[i]; disk'[e.path] != [] && Accurate(e, multiset(disk'[e.path]))
    {
      var e := Survivors(es, cutoff)[i];
      assert e in Survivors(es, cutoff);
      var k :| 0 <= k < |es| && es[k] == e;
    }
  }

  lemma {:induction false} SurvivorsDistinct(es: seq<FileEntry>, cutoff: int)
    requires DistinctPaths(es)
    ensures DistinctPaths(Survivors(es, cutoff))
  {
    if es != [] {
      var n := |es| - 1;
      SurvivorsDistinct(es[..n], cutoff);
      var r := Survivors(es[..n], cutoff);
      forall i | 0 <= i < |r| ensures r[i].path != es[n].path {
        assert r[i] in r;
        var k :| 0 <= k < n && es[k] == r[i];
      }
    }
  }
}
