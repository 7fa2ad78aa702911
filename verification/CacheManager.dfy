/**
 * `CacheManager` and `CachedTableProvider::scan` (crates/pawrly-engine/src/cache.rs), one manager at
 * work on a root. Each operation leaves exactly the disk states that `CacheDisk` lists for it, in
 * order, and refreshes the memory copy of the manifest.
 */
module CacheManager {
  import opened Prelude
  import opened Manifest
  import opened Projection
  import opened CacheDisk

  datatype Policy = Ttl(ttl: nat) | Refresh | Cron

  function TtlExpiry(policy: Policy, now: int): Option<int> {
    if policy.Ttl? then Some(now + policy.ttl) else None
  }

  /** A plan over fixed batches; its schema is the first batch's, if there is one. */
  datatype Exec = Exec(schema: Schema, batches: seq<Batch>)

  datatype VacuumReport = VacuumReport(entriesRemoved: nat, filesRemoved: nat, bytesReclaimed: nat)

  // ------------------------------------------------------------------- file lengths

  ghost function TotalLen(files: map<Path, Blob>): nat {
    if files == map[] then 0 else
      var p :| p in files;
      files[p].len + TotalLen(files - {p})
  }

  lemma {:induction false} TotalPick(files: map<Path, Blob>, p: Path)
    requires p in files
    ensures TotalLen(files) == files[p].len + TotalLen(files - {p})
    decreases |files|
  {
    var q :| q in files && TotalLen(files) == files[q].len + TotalLen(files - {q});
    if q != p {
      TotalPick(files - {q}, p);
      TotalPick(files - {p}, q);
      assert files - {q} - {p} == files - {p} - {q};
    }
  }

  /** The listed files that no entry refers to, in directory order. */
  function Unreferenced(listing: seq<Path>, es: seq<Entry>): (r: seq<Path>)
    ensures forall p :: p in r <==> p in listing && p !in PathsOf(es)
  {
    if listing == [] then [] else
      var last := listing[|listing| - 1];
      Unreferenced(listing[..|listing| - 1], es) + (if last in PathsOf(es) then [] else [last])
  }

  function OldOnes(listing: seq<Path>, stale: set<Path>): (r: seq<Path>)
    ensures forall p :: p in r <==> p in listing && p in stale
  {
    if listing == [] then [] else
      var last := listing[|listing| - 1];
      OldOnes(listing[..|listing| - 1], stale) + (if last in stale then [last] else [])
  }

  lemma OldOnesStep(listing: seq<Path>, i: nat, stale: set<Path>)
    requires i < |listing|
    ensures OldOnes(listing[..i + 1], stale) ==
            if listing[i] in stale then OldOnes(listing[..i], stale) + [listing[i]] else OldOnes(listing[..i], stale)
  {
    assert listing[..i + 1][..i] == listing[..i];
  }

  lemma UnreferencedStep(listing: seq<Path>, i: nat, es: seq<Entry>)
    requires i < |listing|
    ensures Unreferenced(listing[..i + 1], es) ==
            if listing[i] in PathsOf(es) then Unreferenced(listing[..i], es)
            else Unreferenced(listing[..i], es) + [listing[i]]
  {
    assert listing[..i + 1][..i] == listing[..i];
  }

  lemma {:induction false} DeleteStepsFiles(d: DiskState, paths: seq<Path>)
    ensures var d' := Final(d, DeleteSteps(d, paths));
            d'.manifest == d.manifest && d'.files == d.files - Elements(paths)
  {
    if paths != [] {
      var n := |paths| - 1;
      DeleteStepsFiles(d, paths[..n]);
      assert Elements(paths) == Elements(paths[..n]) + {paths[n]};
    }
  }

  lemma OneMoreDelete(d: DiskState, paths: seq<Path>, p: Path)
    ensures DeleteSteps(d, paths + [p])
            == DeleteSteps(d, paths) + [DeleteFile(Final(d, DeleteSteps(d, paths)), p)]
  {
    assert (paths + [p])[..|paths|] == paths;
  }

  class CacheManager {
    var disk: DiskState
    var manifest: seq<Entry>
    /** Every state the disk has been in. */
    ghost var trace: seq<DiskState>

    /** With no other writer about, memory and disk list the same entries. */
    ghost predicate Valid()
      reads this
    {
      manifest == Listed(disk)
    }

    /** `new`: read the manifest, then clear abandoned temporary files. */
    constructor Open(disk: DiskState, tmpListing: seq<Path>, stale: set<Path>)
      ensures Valid() && manifest == Listed(disk)
      ensures trace == [disk] + OpSteps(disk, Op.Open(OldOnes(tmpListing, stale)))
      ensures this.disk == Final(disk, OpSteps(disk, Op.Open(OldOnes(tmpListing, stale))))
      ensures forall p :: p in this.disk.files <==> p in disk.files && !(p in tmpListing && p in stale)
    {
      this.disk, this.trace := disk, [disk];
      this.manifest := Listed(disk);
      new;
      hide DeleteSteps, OldOnes, Final, TotalLen;
      var n, bytes := CleanOldTmp(tmpListing, stale);
      DeleteStepsFiles(disk, OldOnes(tmpListing, stale));
    }

    /** Remove one file, reporting whether it was there and its length. */
    method RemoveFile(p: Path) returns (was: bool, len: nat)
      modifies this`disk, this`trace
      ensures disk == DeleteFile(old(disk), p) && trace == old(trace) + [disk]
      ensures was <==> p in old(disk).files
      ensures len + TotalLen(disk.files) == TotalLen(old(disk).files)
      ensures |disk.files| + (if was then 1 else 0) == |old(disk).files|
    {
      was := p in disk.files;
      len := if was then disk.files[p].len else 0;
      if was {
        TotalPick(disk.files, p);
        assert (disk.files - {p}).Keys == disk.files.Keys - {p};
      } else {
        assert disk.files - {p} == disk.files;
      }
      disk := DeleteFile(disk, p);
      trace := trace + [disk];
    }

    /** The next file of a sequence of removals that started from `base`. */
    method RemoveNext(ghost base: DiskState, ghost before: seq<DiskState>, ghost gone: seq<Path>, p: Path)
      returns (n: nat, len: nat)
      requires disk == Final(base, DeleteSteps(base, gone)) && trace == before + DeleteSteps(base, gone)
      modifies this`disk, this`trace
      ensures disk == Final(base, DeleteSteps(base, gone + [p])) && trace == before + DeleteSteps(base, gone + [p])
      ensures len + TotalLen(disk.files) == TotalLen(old(disk).files)
      ensures n + |disk.files| == |old(disk).files|
    {
      hide DeleteSteps, TotalLen;
      var was;
      was, len := RemoveFile(p);
      n := if was then 1 else 0;
      OneMoreDelete(base, gone, p);
    }

    method CleanOldTmp(listing: seq<Path>, stale: set<Path>) returns (n: nat, bytes: nat)
      modifies this`disk, this`trace
      ensures disk == Final(old(disk), DeleteSteps(old(disk), OldOnes(listing, stale)))
      ensures trace == old(trace) + DeleteSteps(old(disk), OldOnes(listing, stale))
      ensures bytes + TotalLen(disk.files) == TotalLen(old(disk).files)
      ensures n + |disk.files| == |old(disk).files|
    {
      hide TotalLen;
      n, bytes := 0, 0;
      for i := 0 to |listing|
        invariant disk == Final(old(disk), DeleteSteps(old(disk), OldOnes(listing[..i], stale)))
        invariant trace == old(trace) + DeleteSteps(old(disk), OldOnes(listing[..i], stale))
        invariant bytes + TotalLen(disk.files) == TotalLen(old(disk).files)
        invariant n + |disk.files| == |old(disk).files|
      {
        hide DeleteSteps, OldOnes, Final;
        OldOnesStep(listing, i, stale);
        if listing[i] in stale {
          var k, len := RemoveNext(old(disk), old(trace), OldOnes(listing[..i], stale), listing[i]);
          n, bytes := n + k, bytes + len;
        }
      }
      assert listing[..|listing|] == listing;
    }

    /**
     * Read the disk, apply the delta, write a temporary file, rename it, refresh memory. An I/O
     * error after `reach` of the disk steps ends it, and memory stays as it was.
     */
    method WithLockedManifest(delta: Delta, id: nat, reach: nat) returns (ok: bool)
      modifies this
      ensures ok == (reach >= ALL_WRITTEN)
      ensures manifest == if ok then Apply(delta, Listed(old(disk))) else old(manifest)
      ensures old(Valid()) || ok ==> Valid()
      ensures disk.files == old(disk).files
      ensures var ds := Reached(ManifestSteps(old(disk), delta, id), reach);
              disk == Final(old(disk), ds) && trace == old(trace) + ds
    {
      hide Apply;
      ok := false;
      var m := Apply(delta, Listed(disk));
      if reach == 0 {
        assert trace + [] == trace;
        return;
      }
      disk := PutTmp(disk, id, Torn);
      trace := trace + [disk];
      if reach == 1 {
        return;
      }
      disk := PutTmp(disk, id, Whole(m));
      trace := trace + [disk];
      if reach == 2 {
        return;
      }
      disk := MoveTmp(disk, id);
      trace := trace + [disk];
      manifest := m;
      ok := true;
    }

    /** Write a temporary file, sync it, rename it into place; an I/O error may end it at any step. */
    method AtomicWriteParquet(id: nat, path: Path, blob: Blob, reach: nat) returns (ok: bool)
      modifies this`disk, this`trace
      ensures ok == (reach >= ALL_WRITTEN) && disk.manifest == old(disk).manifest
      ensures var ds := Reached(ParquetSteps(old(disk), id, path, blob), reach);
              disk == Final(old(disk), ds) && trace == old(trace) + ds
    {
      ok := false;
      if reach == 0 {
        assert trace + [] == trace;
        return;
      }
      disk := PutFile(disk, TmpFile(id), Blob(0, None));
      trace := trace + [disk];
      if reach == 1 {
        return;
      }
      disk := PutFile(disk, TmpFile(id), blob);
      trace := trace + [disk];
      if reach == 2 {
        return;
      }
      disk := MoveFile(disk, TmpFile(id), path);
      trace := trace + [disk];
      ok := true;
    }

    /** A listed entry of the table that has not expired, if there is one. */
    method Fresh(key: Key, now: int) returns (r: Option<Entry>)
      ensures r.Some? ==> r.value in manifest && r.value.key == key
      ensures r.Some? ==> r.value.expiresAt.None? || now < r.value.expiresAt.value
      ensures r.None? ==> forall e | e in manifest && e.key == key :: e.expiresAt.Some? && e.expiresAt.value <= now
    {
      for i := 0 to |manifest|
        invariant forall j :: 0 <= j < i ==> !(manifest[j].key == key && Unexpired(manifest[j], now))
      {
        if manifest[i].key == key && Unexpired(manifest[i], now) {
          return Some(manifest[i]);
        }
      }
      return None;
    }

    /**
     * Both writers end here: the complete file first, then its entry. They fail together with
     * either write, and then leave the steps made so far.
     */
    method Store(entry: Entry, blob: Blob, fileId: nat, id: nat, reach: nat) returns (ok: bool)
      requires Valid()
      modifies this
      ensures Valid() && ok == (reach >= 2 * ALL_WRITTEN)
      ensures var ds := Reached(OpSteps(old(disk), Write(entry, blob, fileId, id)), reach);
              disk == Final(old(disk), ds) && trace == old(trace) + ds
    {
      hide Apply, ManifestSteps, ParquetSteps, Final, Reached;
      ghost var d0, before := disk, trace;
      ok := AtomicWriteParquet(fileId, entry.path, blob, reach);
      ghost var d1 := disk;
      if ok {
        ok := WithLockedManifest(Upsert(entry), id, reach - ALL_WRITTEN);
      }
      ReachedWrite(d0, entry, blob, fileId, id, reach);
      Associate2(before, ParquetSteps(d0, fileId, entry.path, blob),
                 Reached(ManifestSteps(d1, Upsert(entry), id),
                         if reach >= ALL_WRITTEN then reach - ALL_WRITTEN else 0));
    }

    /** Cache a live result; an error leaves the steps made so far. */
    method WriteThrough(key: Key, rows: seq<Row>, len: nat, policy: Policy, now: int, fileId: nat, id: nat, reach: nat)
      returns (r: Option<Entry>)
      requires Valid()
      modifies this
      ensures Valid() && (r.Some? <==> reach >= 2 * ALL_WRITTEN)
      ensures var entry := Entry(key, now, TtlExpiry(policy, now), |rows|, len, DataPath(key), CacheCopy);
              var ds := Reached(OpSteps(old(disk), Write(entry, Blob(len, Some(rows)), fileId, id)), reach);
        && (r.Some? ==> r.value == entry)
        && disk == Final(old(disk), ds) && trace == old(trace) + ds
      ensures r.Some? ==> r.value.expiresAt == if policy.Ttl? then Some(now + policy.ttl) else None
      ensures r.Some? ==> Stored(old(disk), disk, r.value, Blob(len, Some(rows)))
    {
      hide Final, OpSteps, Reached, Stored;
      ghost var d0 := disk;
      var entry := Entry(key, now, TtlExpiry(policy, now), |rows|, len, DataPath(key), CacheCopy);
      var ok := Store(entry, Blob(len, Some(rows)), fileId, id, reach);
      r := if ok then Some(entry) else None;
      if ok {
        WriteAll(d0, entry, Blob(len, Some(rows)), fileId, id, reach);
        WriteLists(d0, entry, Blob(len, Some(rows)), fileId, id);
      }
    }

    /** A pinned table: no expiry, so neither reads nor vacuum ever let go of it. */
    method Materialize(name: string, rows: seq<Row>, len: nat, spec: string, now: int, fileId: nat, id: nat, reach: nat)
      returns (r: Option<Entry>)
      requires Valid()
      modifies this
      ensures Valid() && (r.Some? <==> reach >= 2 * ALL_WRITTEN)
      ensures var entry := Pinned(name, |rows|, len, spec, now);
              var ds := Reached(OpSteps(old(disk), Write(entry, Blob(len, Some(rows)), fileId, id)), reach);
        && (r.Some? ==> r.value == entry && entry in manifest)
        && disk == Final(old(disk), ds) && trace == old(trace) + ds
      ensures r.Some? ==> Stored(old(disk), disk, r.value, Blob(len, Some(rows)))
    {
      hide Final, OpSteps, Reached, Stored;
      var entry := Pinned(name, |rows|, len, spec, now);
      ghost var d0 := disk;
      var ok := Store(entry, Blob(len, Some(rows)), fileId, id, reach);
      r := if ok then Some(entry) else None;
      if ok {
        WriteAll(d0, entry, Blob(len, Some(rows)), fileId, id, reach);
        WriteLists(d0, entry, Blob(len, Some(rows)), fileId, id);
        StoredListed(d0, disk, entry, Blob(len, Some(rows)));
      }
    }

    /** `invalidate` and `drop_materialized`: unlist the first match, then delete its file. */
    method TakeOut(delta: Delta, id: nat, reach: nat) returns (removed: Option<bool>)
      requires Valid() && (delta.Invalidate? || delta.DropMaterialized?)
      modifies this
      ensures Valid() && (removed.Some? <==> reach >= ALL_WRITTEN)
      ensures removed.Some? ==> (removed.value <==> exists e :: e in old(manifest) && IsAskedFor(delta, e))
      ensures removed.Some? && UniqueKeys(old(manifest)) ==> TakenOut(old(disk), disk, delta)
      ensures var all := OpSteps(old(disk), Remove(delta, id));
              var ds := if removed.Some? then all else Reached(all, reach);
              disk == Final(old(disk), ds) && trace == old(trace) + ds
    {
      hide Apply, Kills, ManifestSteps, IsAskedFor, TakenOut;
      TakesOut(disk, delta, id);
      AskedFor(delta);
      var gone := FirstKilled(delta, Listed(disk));
      FirstKilledListed(delta, Listed(disk));
      var ok := WithLockedManifest(delta, id, reach);
      if !ok {
        return None;
      }
      removed := Some(gone.Some?);
      if gone.Some? {
        var was, len := RemoveFile(gone.value.path);
      }
    }

    /** Unlist a corrupt file and move it aside; a failed manifest write is ignored. */
    method SetCorruptAside(key: Key, corruptId: nat, id: nat, reach: nat, moves: bool)
      requires Valid()
      modifies this
      ensures Valid()
      ensures disk == Final(old(disk), OpSteps(old(disk), SetAside(key, corruptId, id, reach, moves)))
      ensures trace == old(trace) + OpSteps(old(disk), SetAside(key, corruptId, id, reach, moves))
      ensures MovedAside(old(disk), disk, key, CorruptFile(key.source, key.table, corruptId), reach >= ALL_WRITTEN,
                         moves)
    {
      hide Apply, ManifestSteps, MovedAside;
      MovesAside(disk, key, corruptId, id, reach, moves);
      var path := DataPath(key);
      var ok := WithLockedManifest(Quarantine(key, path), id, reach);
      if path in disk.files {
        disk := if moves then MoveFile(disk, path, CorruptFile(key.source, key.table, corruptId))
                else DeleteFile(disk, path);
        trace := trace + [disk];
      }
    }

    /** Step 1 of `vacuum`, once the manifest is written: delete the files of the expired entries. */
    method VacuumExpired(expired: seq<Entry>) returns (removed: nat, n: nat, bytes: nat)
      modifies this`disk, this`trace
      ensures removed == |expired|
      ensures disk == Final(old(disk), DeleteSteps(old(disk), PathsOf(expired)))
      ensures trace == old(trace) + DeleteSteps(old(disk), PathsOf(expired))
      ensures bytes + TotalLen(disk.files) == TotalLen(old(disk).files)
      ensures n + |disk.files| == |old(disk).files|
    {
      hide TotalLen;
      removed, n, bytes := 0, 0, 0;
      NoDeletes(disk);
      assert expired[..0] == [];
      for i := 0 to |expired|
        invariant removed == i
        invariant disk == Final(old(disk), DeleteSteps(old(disk), PathsOf(expired[..i])))
        invariant trace == old(trace) + DeleteSteps(old(disk), PathsOf(expired[..i]))
        invariant bytes + TotalLen(disk.files) == TotalLen(old(disk).files)
        invariant n + |disk.files| == |old(disk).files|
      {
        hide DeleteSteps, Final;
        PathsOfStep(expired, i);
        var k, len := RemoveNext(old(disk), old(trace), PathsOf(expired[..i]), expired[i].path);
        removed, n, bytes := removed + 1, n + k, bytes + len;
      }
      assert expired[..|expired|] == expired;
    }

    /** Step 2 of `vacuum`: delete the data files that no surviving entry refers to. */
    method VacuumUnreferenced(listing: seq<Path>) returns (n: nat, bytes: nat)
      modifies this`disk, this`trace
      ensures disk == Final(old(disk), DeleteSteps(old(disk), Unreferenced(listing, manifest)))
      ensures trace == old(trace) + DeleteSteps(old(disk), Unreferenced(listing, manifest))
      ensures bytes + TotalLen(disk.files) == TotalLen(old(disk).files)
      ensures n + |disk.files| == |old(disk).files|
    {
      hide TotalLen;
      n, bytes := 0, 0;
      for i := 0 to |listing|
        invariant disk == Final(old(disk), DeleteSteps(old(disk), Unreferenced(listing[..i], manifest)))
        invariant trace == old(trace) + DeleteSteps(old(disk), Unreferenced(listing[..i], manifest))
        invariant bytes + TotalLen(disk.files) == TotalLen(old(disk).files)
        invariant n + |disk.files| == |old(disk).files|
      {
        hide DeleteSteps, Unreferenced, Final;
        UnreferencedStep(listing, i, manifest);
        if listing[i] !in PathsOf(manifest) {
          var k, len := RemoveNext(old(disk), old(trace), Unreferenced(listing[..i], manifest), listing[i]);
          n, bytes := n + k, bytes + len;
        }
      }
      assert listing[..|listing|] == listing;
    }

    /**
     * Run alone, a vacuum leaves under `data/` exactly the files of the surviving entries, keeps
     * every materialized and every unexpired entry, and reports what it freed. The listings
     * are what the directories hold when they are read. If it cannot write the manifest it
     * reports the error and has touched no file.
     */
    method VacuumAll(now: int, id: nat, reach: nat, listing: seq<Path>, tmpListing: seq<Path>, stale: set<Path>)
      returns (report: Option<VacuumReport>)
      requires Valid() && Consistent(disk, true) && ListedAsIs(disk, now, listing, tmpListing)
      modifies this
      ensures Valid() && (report.Some? <==> reach >= ALL_WRITTEN)
      ensures report.None? ==> manifest == old(manifest) && disk.files == old(disk).files
      ensures report.Some? ==>
        && Vacuumed(old(disk), disk, now, stale)
        && report.value.bytesReclaimed == TotalLen(old(disk).files) - TotalLen(disk.files)
        && report.value.filesRemoved == |old(disk).files| - |disk.files|
        && report.value.entriesRemoved == |Expired(old(manifest), now)|
      ensures var op := Reclaim(now, id, Unreferenced(listing, Apply(Vacuum(now), old(manifest))),
                                OldOnes(tmpListing, stale));
              var all := OpSteps(old(disk), op);
              var ds := if report.Some? then all else Reached(all, reach);
        && disk == Final(old(disk), ds) && trace == old(trace) + ds
    {
      hide TotalLen, Apply, Consistent, DeleteSteps, ManifestSteps, Final, Reached, Unreferenced, OldOnes, Expired,
           PathsOf,
           OpSteps, Vacuumed, ListedAsIs;
      ghost var before, d0 := trace, disk;
      ghost var op := Reclaim(now, id, Unreferenced(listing, Apply(Vacuum(now), manifest)), OldOnes(tmpListing, stale));
      var expired := Expired(manifest, now);
      var ok := WithLockedManifest(Vacuum(now), id, reach);
      VacuumReached(d0, op, reach);
      if !ok {
        return None;
      }
      ghost var d1 := disk;
      var removed, n1, b1 := VacuumExpired(expired);
      var n2, b2 := VacuumUnreferenced(listing);
      var n3, b3 := CleanOldTmp(tmpListing, stale);
      report := Some(VacuumReport(removed, n1 + n2 + n3, b1 + b2 + b3));
      VacuumSteps(d0, op);
      VacuumDone(d0, op, listing, tmpListing, stale);
      ghost var d2 := Final(d1, DeleteSteps(d1, GonePaths(d0, op)));
      ghost var d3 := Final(d2, DeleteSteps(d2, op.unreferenced));
      Associate(before, ManifestSteps(d0, Vacuum(now), id), DeleteSteps(d1, GonePaths(d0, op)),
                DeleteSteps(d2, op.unreferenced), DeleteSteps(d3, op.oldTmps));
    }

    /**
     * `CachedTableProvider::scan`. `produced` is what the wrapped provider returns on a miss;
     * `readable` and `sizes` say whether and in what batches a cached file can be read, `reach` how
     * far the disk writes of the quarantine and of the write-through get. For a rollup, whose
     * provider ignores filters and limit, the rows are the projection of its whole result however
     * they were obtained, also on a disk on which listed files are missing. The disk stays good;
     * a whole one stays whole unless a quarantine could not unlist the file it moved away, and
     * then the write-through repairs it as soon as its file is in place.
     */
    method Scan(key: Key, schema: Schema, projection: Option<seq<nat>>, now: int, policy: Policy,
                produced: seq<Batch>, readable: bool, sizes: seq<nat>, reach: (nat, nat), moves: bool, len: nat,
                ids: (nat, nat, nat, nat), ghost results: map<Key, seq<Row>>) returns (exec: Exec)
      requires Valid() && Good(disk, results, false)
      requires BatchesOk(produced, |schema|) && SelectionOk(projection, |schema|)
      requires key !in results ==> FileFits(disk, key, |schema|)
      requires key in results ==> AllRows(produced, |schema|) == results[key]
      modifies this
      ensures Valid() && old(trace) <= trace && Good(disk, results, false)
      ensures AllGood(trace[|old(trace)|..], results, false)
      ensures old(Good(disk, results, true)) && (reach.0 >= ALL_WRITTEN || reach.1 >= ALL_WRITTEN) ==>
        Good(disk, results, true)
      ensures BatchesOk(exec.batches, OutWidth(projection, |schema|))
      ensures exec.schema == if projection == None || exec.batches == [] then schema
                             else ProjectSchema(schema, projection.value)
      ensures key in results ==> Wide(results[key], |schema|)
      ensures key in results ==>
        AllRows(exec.batches, OutWidth(projection, |schema|)) == Selected(results[key], projection, |schema|)
      ensures old(Hits(disk, key, now)) && readable ==>
        disk == old(disk) && trace == old(trace) && ServesFile(disk, key, exec, projection, |schema|)
      ensures Wide(AllRows(produced, |schema|), |schema|)
      ensures !(old(Hits(disk, key, now)) && readable) ==>
        AllRows(exec.batches, OutWidth(projection, |schema|))
        == Selected(AllRows(produced, |schema|), projection, |schema|)
      ensures !(old(Hits(disk, key, now)) && readable) && reach.1 >= 2 * ALL_WRITTEN ==>
        Caches(disk, key, AllRows(produced, |schema|))
    {
      hide Hits, ServesFile, Caches;
      hide Good, AllGood, BatchesOk, AllRows, Selected, OpSteps, FileFits, SelectionOk, Wide, Final, Reached,
           OnlyMissing;
      ghost var d0, before := disk, trace;
      AllRowsWide(produced, |schema|);
      var hit := Fresh(key, now);
      HitIs(d0, key, now, hit, results);
      NothingMissing(d0, key, results);
      if hit.Some? {
        if readable && hit.value.path in disk.files {
          CachedRows(disk, hit.value, |schema|, results);
          var rows := disk.files[hit.value.path].rows.value;
          var batches := ReadBack(rows, |schema|, sizes);
          ReadBackKeepsRows(rows, |schema|, sizes);
          exec := Plan(schema, batches, projection);
          ServedFile(disk, key, hit.value, exec, projection, |schema|);
          NoStates(results);
          assert trace[|before|..] == [];
          return;
        }
        SetCorruptAside(key, ids.0, ids.1, reach.0, moves);
        OpEnds(d0, before, trace, SetAside(key, ids.0, ids.1, reach.0, moves), results, false);
        SetAsideMisses(d0, key, ids.0, ids.1, reach.0, moves, results);
      } else {
        NoStates(results);
        assert trace == before + [];
      }
      ghost var middle := trace;
      exec := FetchLive(key, schema, projection, now, policy, produced, reach.1, len, (ids.2, ids.3), results);
      JoinTraces(before, middle, trace, results, false);
    }

    /** The miss: fetch, cache as far as that goes, and serve what was fetched. */
    method FetchLive(key: Key, schema: Schema, projection: Option<seq<nat>>, now: int, policy: Policy,
                     produced: seq<Batch>, reach: nat, len: nat, ids: (nat, nat), ghost results: map<Key, seq<Row>>)
      returns (exec: Exec)
      requires Valid() && Good(disk, results, false)
      requires BatchesOk(produced, |schema|) && SelectionOk(projection, |schema|)
      requires key in results ==> AllRows(produced, |schema|) == results[key]
      modifies this
      ensures Valid() && old(trace) <= trace && Good(disk, results, false)
      ensures AllGood(trace[|old(trace)|..], results, false)
      ensures old(Good(disk, results, true)) || (old(OnlyMissing(disk, key)) && reach >= ALL_WRITTEN) ==>
        Good(disk, results, true)
      ensures BatchesOk(exec.batches, OutWidth(projection, |schema|)) && Wide(AllRows(produced, |schema|), |schema|)
      ensures exec.schema == if projection == None || exec.batches == [] then schema
                             else ProjectSchema(schema, projection.value)
      ensures AllRows(exec.batches, OutWidth(projection, |schema|))
              == Selected(AllRows(produced, |schema|), projection, |schema|)
      ensures reach >= 2 * ALL_WRITTEN ==> Caches(disk, key, AllRows(produced, |schema|))
    {
      hide Stored, Caches;
      hide Good, AllGood, BatchesOk, AllRows, Selected, OpSteps, SelectionOk, Wide, Final, Reached, OnlyMissing;
      ghost var d, before := disk, trace;
      var rows := AllRows(produced, |schema|);
      var entry := WriteThrough(key, rows, len, policy, now, ids.0, ids.1, reach);
      ghost var op := Write(CopyEntry(key, |rows|, len, policy, now), Blob(len, Some(rows)), ids.0, ids.1);
      OpStays(d, before, trace, op, reach, results, false);
      WriteRepairs(d, op, reach, results);
      if entry.Some? {
        StoredCaches(d, disk, entry.value, Blob(len, Some(rows)));
      }
      exec := Plan(schema, produced, projection);
    }
  }

  /** The table is listed, not expired, and its file is there. */
  ghost predicate Hits(d: DiskState, key: Key, now: int) {
    && DataFile(key.source, key.table) in d.files
    && exists e :: e in Listed(d) && e.key == key && (e.expiresAt.None? || now < e.expiresAt.value)
  }

  /** The plan yields the rows of the table's file, projected. */
  ghost predicate ServesFile(d: DiskState, key: Key, exec: Exec, projection: Option<seq<nat>>, width: nat) {
    var path := DataFile(key.source, key.table);
    && path in d.files && d.files[path].rows.Some? && Wide(d.files[path].rows.value, width)
    && BatchesOk(exec.batches, OutWidth(projection, width)) && SelectionOk(projection, width)
    && AllRows(exec.batches, OutWidth(projection, width)) == Selected(d.files[path].rows.value, projection, width)
  }

  /** The table is listed as a copy, and its file has these rows. */
  ghost predicate Caches(d: DiskState, key: Key, rows: seq<Row>) {
    var path := DataFile(key.source, key.table);
    && path in d.files && d.files[path].rows == Some(rows)
    && exists e :: e in Listed(d) && e.key == key && e.path == path && e.origin.CacheCopy? && e.rowCount == |rows|
  }

  lemma HitIs(d: DiskState, key: Key, now: int, hit: Option<Entry>, results: map<Key, seq<Row>>)
    requires Good(d, results, false)
    requires hit.Some? ==> hit.value in Listed(d) && hit.value.key == key
    requires hit.Some? ==> hit.value.expiresAt.None? || now < hit.value.expiresAt.value
    requires hit.None? ==> forall e | e in Listed(d) && e.key == key :: e.expiresAt.Some? && e.expiresAt.value <= now
    ensures hit.Some? ==> hit.value.path == DataFile(key.source, key.table)
    ensures Hits(d, key, now) <==> hit.Some? && hit.value.path in d.files
  {
    if hit.Some? {
      GoodEntry(d, hit.value, results, false);
    }
  }

  lemma ServedFile(d: DiskState, key: Key, e: Entry, exec: Exec, projection: Option<seq<nat>>, width: nat)
    requires e.path == DataFile(key.source, key.table) && e.path in d.files && d.files[e.path].rows.Some?
    requires Wide(d.files[e.path].rows.value, width) && BatchesOk(exec.batches, OutWidth(projection, width))
    requires SelectionOk(projection, width)
    requires AllRows(exec.batches, OutWidth(projection, width))
             == Selected(d.files[e.path].rows.value, projection, width)
    ensures ServesFile(d, key, exec, projection, width)
  {}

  lemma StoredCaches(d: DiskState, d': DiskState, entry: Entry, blob: Blob)
    requires Stored(d, d', entry, blob) && blob.rows.Some? && entry.path == DataPath(entry.key)
    requires entry.origin.CacheCopy? && entry.rowCount == |blob.rows.value|
    ensures Caches(d', entry.key, blob.rows.value)
  {}

  function CopyEntry(key: Key, rowCount: nat, len: nat, policy: Policy, now: int): Entry {
    Entry(key, now, TtlExpiry(policy, now), rowCount, len, DataPath(key), CacheCopy)
  }

  function Pinned(name: string, rowCount: nat, len: nat, spec: string, now: int): Entry {
    var key := Key(MATERIALIZED_SCHEMA, name);
    Entry(key, now, None, rowCount, len, DataPath(key), Origin.Materialized(spec))
  }

  // ------------------------------------------------------------ what the operations do

  /** The entries the caller asks to take out: a table, or a materialized table by its name. */
  predicate IsAskedFor(delta: Delta, e: Entry) {
    match delta
    case Invalidate(key) => e.key == key
    case DropMaterialized(name) => e.key == Key("materialized", name) && e.origin != CacheCopy
    case _ => false
  }

  /** Exactly those entries are gone, with their files. */
  ghost predicate TakenOut(d: DiskState, d': DiskState, delta: Delta) {
    && (forall e :: e in Listed(d') <==> e in Listed(d) && !IsAskedFor(delta, e))
    && (forall p :: p in d'.files <==>
          p in d.files && !exists e :: e in Listed(d) && IsAskedFor(delta, e) && e.path == p)
    && (forall p | p in d'.files :: d'.files[p] == d.files[p])
  }

  lemma AskedFor(delta: Delta)
    requires delta.Invalidate? || delta.DropMaterialized?
    ensures forall e :: Kills(delta, e) <==> IsAskedFor(delta, e)
  {}

  lemma TakesOut(d: DiskState, delta: Delta, id: nat)
    requires delta.Invalidate? || delta.DropMaterialized?
    ensures UniqueKeys(Listed(d)) ==> TakenOut(d, Final(d, OpSteps(d, Remove(delta, id))), delta)
  {
    hide Apply, Kills, IsAskedFor;
    if UniqueKeys(Listed(d)) {
      AskedFor(delta);
      ApplyMeans(delta, Listed(d));
      FirstKilledListed(delta, Listed(d));
      AskedOnce(delta);
      var gone := FirstKilled(delta, Listed(d));
      assert Listed(Final(d, OpSteps(d, Remove(delta, id)))) == Apply(delta, Listed(d));
      forall e | e in Listed(d) && IsAskedFor(delta, e) ensures gone == Some(e) {
        SameKey(Listed(d), e, gone.value);
      }
    }
  }

  lemma AskedOnce(delta: Delta)
    requires delta.Invalidate? || delta.DropMaterialized?
    ensures forall e, e' | IsAskedFor(delta, e) && IsAskedFor(delta, e') :: e.key == e'.key
  {}

  /** The table's file is out of the way, and its entry unlisted if that could be written. */
  ghost predicate MovedAside(d: DiskState, d': DiskState, key: Key, aside: Path, unlists: bool, moves: bool) {
    var path := DataFile(key.source, key.table);
    && (forall e :: e in Listed(d') <==> e in Listed(d) && !(unlists && e.key == key && e.path == path))
    && path !in d'.files
    && (path in d.files && moves ==> aside in d'.files && d'.files[aside] == d.files[path])
    && (forall p | p != path && p != aside :: p in d'.files <==> p in d.files)
    && (forall p | p != path && p != aside && p in d.files :: d'.files[p] == d.files[p])
  }

  lemma MovesAside(d: DiskState, key: Key, corruptId: nat, id: nat, reach: nat, moves: bool)
    ensures MovedAside(d, Final(d, OpSteps(d, SetAside(key, corruptId, id, reach, moves))), key,
                       CorruptFile(key.source, key.table, corruptId), reach >= ALL_WRITTEN, moves)
  {
    hide RemoveAll;
    var delta := Quarantine(key, DataPath(key));
    var d1 := Final(d, Reached(ManifestSteps(d, delta, id), reach));
    assert d1.files == d.files;
    assert Listed(d1) == if reach >= ALL_WRITTEN then RemoveAll(Listed(d), delta) else Listed(d);
    assert Listed(Final(d, OpSteps(d, SetAside(key, corruptId, id, reach, moves)))) == Listed(d1);
  }

  // ---------------------------------------------------------------- expiry, end to end

  /** The entry is listed, alone for its table, and its file is in place; nothing else is touched. */
  ghost predicate Stored(d: DiskState, d': DiskState, entry: Entry, blob: Blob) {
    && (forall e :: e in Listed(d') <==> e == entry || (e in Listed(d) && e.key != entry.key))
    && entry.path in d'.files && d'.files[entry.path] == blob
    && (forall p: Path | p.DataFile? && p != entry.path ::
          (p in d'.files <==> p in d.files) && (p in d.files ==> d'.files[p] == d.files[p]))
  }

  lemma WriteLists(d: DiskState, entry: Entry, blob: Blob, fileId: nat, id: nat)
    requires entry.path.DataFile?
    ensures Stored(d, Final(d, OpSteps(d, Write(entry, blob, fileId, id))), entry, blob)
  {
    hide RemoveAll;
    var written := Final(d, ParquetSteps(d, fileId, entry.path, blob));
    assert Listed(written) == Listed(d);
    var d' := Final(d, OpSteps(d, Write(entry, blob, fileId, id)));
    assert Listed(d') == RemoveAll(Listed(d), Upsert(entry)) + [entry];
  }

  /** What a table's policy says about a copy written at `now`, seen at `t`. */
  predicate StillGood(policy: Policy, now: int, t: int) {
    match policy
    case Ttl(ttl) => t < now + ttl
    case Refresh => true
    case Cron => true
  }

  /** A read after a write finds the copy exactly while its policy lets it live. */
  method ReadAfterWrite(m: CacheManager, key: Key, rows: seq<Row>, len: nat, policy: Policy, now: int,
                        fileId: nat, id: nat, reach: nat, t: int) returns (w: Option<Entry>, r: Option<Entry>)
    requires m.Valid()
    modifies m
    ensures w.Some? ==> r == if StillGood(policy, now, t) then w else None
  {
    hide Final, OpSteps, Reached;
    w := m.WriteThrough(key, rows, len, policy, now, fileId, id, reach);
    r := m.Fresh(key, t);
  }

  lemma WriteAll(d: DiskState, entry: Entry, blob: Blob, fileId: nat, id: nat, reach: nat)
    requires reach >= 2 * ALL_WRITTEN
    ensures Reached(OpSteps(d, Write(entry, blob, fileId, id)), reach) == OpSteps(d, Write(entry, blob, fileId, id))
  {
    WriteLength(d, Write(entry, blob, fileId, id));
  }

  /** A vacuum after a write keeps the copy and its file exactly as long. */
  method VacuumAfterWrite(m: CacheManager, key: Key, rows: seq<Row>, len: nat, policy: Policy, now: int,
                          ids: (nat, nat, nat), reach: (nat, nat), t: int, stale: set<Path>)
    returns (w: Option<Entry>, report: Option<VacuumReport>)
    requires m.Valid() && Consistent(m.disk, true)
    modifies m
    ensures w.Some? && report.Some? ==>
      && (w.value in m.manifest <==> StillGood(policy, now, t))
      && (DataPath(key) in m.disk.files <==> StillGood(policy, now, t))
      && (StillGood(policy, now, t) ==> m.disk.files[DataPath(key)] == Blob(len, Some(rows)))
  {
    hide Final, OpSteps, Reached, Consistent, ListedAsIs, Vacuumed, Expired;
    ghost var d := m.disk;
    w := m.WriteThrough(key, rows, len, policy, now, ids.0, ids.1, reach.0);
    if w.None? {
      return w, None;
    }
    ghost var d1, blob := m.disk, Blob(len, Some(rows));
    WriteAll(d, w.value, blob, ids.0, ids.1, reach.0);
    WriteConsistent(d, w.value, blob, ids.0, ids.1);
    var listing, tmpListing := ReadDirs(m.disk, t);
    report := m.VacuumAll(t, ids.2, reach.1, listing, tmpListing, stale);
    if report.Some? {
      VacuumedCopy(d1, m.disk, w.value, blob, t, stale);
    }
  }

  lemma WriteConsistent(d: DiskState, entry: Entry, blob: Blob, fileId: nat, id: nat)
    requires Consistent(d, true) && entry.path == DataPath(entry.key) && blob.rows.Some?
    ensures Consistent(Final(d, OpSteps(d, Write(entry, blob, fileId, id))), true)
  {
    hide OpSteps, Consistent;
    var op := Write(entry, blob, fileId, id);
    assert Good(d, map[], true) && Allowed(d, op, map[], true);
    OpGood(d, op, map[], true);
    LastIsFinal(d, OpSteps(d, op), map[], true);
  }

  /** What becomes of one listed copy and its file. */
  lemma VacuumedCopy(d: DiskState, d': DiskState, e: Entry, blob: Blob, t: int, stale: set<Path>)
    requires Consistent(d, true) && Vacuumed(d, d', t, stale) && e in Listed(d) && e.origin.CacheCopy?
    requires d.files[e.path] == blob
    ensures var keeps := e.expiresAt.None? || t < e.expiresAt.value;
      && (e in Listed(d') <==> keeps) && (e.path in d'.files <==> keeps)
      && (keeps ==> d'.files[e.path] == blob)
  {
    assert EntryOk(d, e, true);
    if x :| x in Listed(d') && x.path == e.path {
      assert EntryOk(d, x, true);
      SameKey(Listed(d), x, e);
    }
  }

  lemma SameKey(es: seq<Entry>, a: Entry, b: Entry)
    requires UniqueKeys(es) && a in es && b in es && a.key == b.key
    ensures a == b
  {
    var i :| 0 <= i < |es| && es[i] == a;
    var j :| 0 <= j < |es| && es[j] == b;
    assert i == j || i < j || j < i;
  }

  /** The files under `data/`, once the expired ones are gone, and those under `tmp/`, in some order. */
  method ReadDirs(d: DiskState, now: int) returns (listing: seq<Path>, tmpListing: seq<Path>)
    ensures ListedAsIs(d, now, listing, tmpListing)
  {
    hide Expired, PathsOf;
    listing, tmpListing := [], [];
    var left := d.files.Keys;
    while left != {}
      invariant left <= d.files.Keys
      invariant forall p :: p in listing <==>
        p.DataFile? && p in d.files.Keys - left && p !in PathsOf(Expired(Listed(d), now))
      invariant forall p :: p in tmpListing <==> p.TmpFile? && p in d.files.Keys - left
      decreases left
    {
      var p :| p in left;
      left := left - {p};
      if p.TmpFile? {
        tmpListing := tmpListing + [p];
      } else if p.DataFile? && p !in PathsOf(Expired(Listed(d), now)) {
        listing := listing + [p];
      }
    }
  }

  /** No read finds a pinned entry expired, and no vacuum lets go of it. */
  lemma PinnedStays(name: string, rowCount: nat, len: nat, spec: string, now: int, t: int)
    ensures var e := Pinned(name, rowCount, len, spec, now);
            e.expiresAt.None? && e.origin.Materialized? && !Kills(Vacuum(t), e)
  {}

  // ------------------------------------------------------------------- partial writes

  lemma ReachedSum(a: seq<DiskState>, b: seq<DiskState>, reach: nat)
    ensures Reached(a + b, reach) ==
            if reach < |a| then Reached(a, reach) else a + Reached(b, reach - |a|)
  {}

  lemma FinalSum(d: DiskState, a: seq<DiskState>, b: seq<DiskState>)
    ensures Final(d, a + b) == Final(Final(d, a), b)
  {}

  lemma ReachedWrite(d: DiskState, entry: Entry, blob: Blob, fileId: nat, id: nat, reach: nat)
    ensures var parquet := ParquetSteps(d, fileId, entry.path, blob);
            var d1 := Final(d, parquet);
            var listed := ManifestSteps(d1, Upsert(entry), id);
            var ds := Reached(OpSteps(d, Write(entry, blob, fileId, id)), reach);
      && (reach < ALL_WRITTEN ==> ds == Reached(parquet, reach))
      && (reach >= ALL_WRITTEN ==>
            && Reached(parquet, reach) == parquet
            && ds == parquet + Reached(listed, reach - ALL_WRITTEN)
            && Final(d, ds) == Final(d1, Reached(listed, reach - ALL_WRITTEN)))
  {
    hide ParquetSteps, ManifestSteps, Final, Reached;
    var parquet := ParquetSteps(d, fileId, entry.path, blob);
    var listed := ManifestSteps(Final(d, parquet), Upsert(entry), id);
    ReachedSum(parquet, listed, reach);
    ReachedSum(parquet, [], reach);
    assert parquet + [] == parquet;
    ReachedNone(reach);
    if reach >= ALL_WRITTEN {
      FinalSum(d, parquet, Reached(listed, reach - ALL_WRITTEN));
    }
  }

  lemma ReachedNone(reach: nat)
    ensures forall n: nat :: Reached([], n) == []
  {}

  lemma StoredListed(d: DiskState, d': DiskState, entry: Entry, blob: Blob)
    requires Stored(d, d', entry, blob)
    ensures entry in Listed(d')
  {}

  lemma VacuumReached(d: DiskState, op: Op, reach: nat)
    requires op.Reclaim?
    ensures var listed := ManifestSteps(d, Vacuum(op.now), op.id);
            Reached(listed, reach) == if reach < ALL_WRITTEN then Reached(OpSteps(d, op), reach) else listed
  {
    hide Apply, DeleteSteps, Final;
  }

  // ------------------------------------------------------------------------ the scan

  /** A fresh entry's file, if it is there, holds rows of the table's width, for a rollup its result. */
  lemma CachedRows(d: DiskState, e: Entry, width: nat, results: map<Key, seq<Row>>)
    requires Good(d, results, false) && e in Listed(d) && e.path in d.files
    requires e.key !in results ==> FileFits(d, e.key, width)
    requires e.key in results ==> Wide(results[e.key], width)
    ensures d.files[e.path].rows.Some? && Wide(d.files[e.path].rows.value, width)
    ensures e.key in results ==> d.files[e.path].rows == Some(results[e.key])
  {
    hide Good, Wide;
    GoodEntry(d, e, results, false);
  }

  lemma NothingMissing(d: DiskState, key: Key, results: map<Key, seq<Row>>)
    ensures Good(d, results, true) ==> OnlyMissing(d, key) && Good(d, results, false)
  {
    if Good(d, results, true) {
      forall e | e in Listed(d) ensures EntryOk(d, e, false) && e.path in d.files {
        GoodEntry(d, e, results, true);
      }
    }
  }

  /** A quarantine makes at most its own table's file go missing, and none if it could unlist it. */
  lemma SetAsideMisses(d: DiskState, key: Key, corruptId: nat, id: nat, reach: nat, moves: bool,
                       results: map<Key, seq<Row>>)
    requires Good(d, results, false)
    ensures var d' := Final(d, OpSteps(d, SetAside(key, corruptId, id, reach, moves)));
      && (Good(d, results, true) ==> OnlyMissing(d', key))
      && (Good(d, results, true) && reach >= ALL_WRITTEN ==> Good(d', results, true))
  {
    hide Good, Apply, ManifestSteps;
    var op := SetAside(key, corruptId, id, reach, moves);
    var d' := Final(d, OpSteps(d, op));
    if Good(d, results, true) {
      if reach >= ALL_WRITTEN {
        SetAsideGood(d, op, results, true);
        LastIsFinal(d, OpSteps(d, op), results, true);
        NothingMissing(d', key, results);
      } else {
        Unwritten(d, Quarantine(key, DataPath(key)), id, reach);
        forall e | e in Listed(d') && e.path !in d'.files ensures e.key == key {
          GoodEntry(d, e, results, true);
        }
      }
    }
  }

  lemma LastIsFinal(d: DiskState, ds: seq<DiskState>, results: map<Key, seq<Row>>, whole: bool)
    requires Good(d, results, whole) && AllGood(ds, results, whole)
    ensures Good(Final(d, ds), results, whole)
  {
    hide Good;
  }

  /** A write-through keeps a whole disk whole, and repairs one whose only missing file it writes. */
  lemma WriteRepairs(d: DiskState, op: Op, reach: nat, results: map<Key, seq<Row>>)
    requires op.Write? && Good(d, results, false) && Allowed(d, op, results, false)
    ensures var d' := Final(d, Reached(OpSteps(d, op), reach));
      && (Good(d, results, true) ==> Good(d', results, true))
      && (OnlyMissing(d, op.entry.key) && reach >= ALL_WRITTEN ==> Good(d', results, true))
  {
    hide Good, OpSteps, OnlyMissing;
    var all := OpSteps(d, op);
    if Good(d, results, true) {
      assert Allowed(d, op, results, true);
      OpGood(d, op, results, true);
      PrefixGood(all, reach, results, true);
      LastIsFinal(d, Reached(all, reach), results, true);
    }
    if OnlyMissing(d, op.entry.key) && reach >= ALL_WRITTEN {
      WriteHeals(d, op, results);
      WriteLength(d, op);
      var ds := Reached(all, reach);
      assert ds[|ds| - 1] == all[|ds| - 1];
    }
  }

  lemma WriteLength(d: DiskState, op: Op)
    requires op.Write?
    ensures |OpSteps(d, op)| == 2 * ALL_WRITTEN
  {}

  /** The file of the table, when listed, has the table's columns. */
  ghost predicate FileFits(d: DiskState, key: Key, width: nat) {
    DataPath(key) in d.files && d.files[DataPath(key)].rows.Some? ==> Wide(d.files[DataPath(key)].rows.value, width)
  }

  /** Project the batches; an empty list of batches keeps the unprojected schema. */
  method Plan(schema: Schema, batches: seq<Batch>, projection: Option<seq<nat>>) returns (exec: Exec)
    requires BatchesOk(batches, |schema|) && SelectionOk(projection, |schema|)
    ensures |exec.batches| == |batches| && BatchesOk(exec.batches, OutWidth(projection, |schema|))
    ensures Wide(AllRows(batches, |schema|), |schema|)
    ensures AllRows(exec.batches, OutWidth(projection, |schema|))
            == Selected(AllRows(batches, |schema|), projection, |schema|)
    ensures exec.schema == if projection == None || batches == [] then schema
                           else ProjectSchema(schema, projection.value)
  {
    var out := ProjectBatches(batches, |schema|, projection);
    exec := Exec(if projection.Some? && out != [] then ProjectSchema(schema, projection.value) else schema, out);
  }

  /** For instance: one column of two is asked for, but without batches the schema still has both. */
  method EmptyKeepsWholeSchema() returns (exec: Exec)
    ensures exec.batches == [] && exec.schema == ["a", "b"] && ProjectSchema(["a", "b"], [0]) == ["a"]
  {
    exec := Plan(["a", "b"], [], Some([0]));
  }

  /** An allowed operation, as far as it gets, ends and passes in good states. */
  lemma OpStays(d: DiskState, before: seq<DiskState>, after: seq<DiskState>, op: Op, reach: nat,
                results: map<Key, seq<Row>>, whole: bool)
    requires Good(d, results, whole) && Allowed(d, op, results, whole)
    requires after == before + Reached(OpSteps(d, op), reach)
    ensures Good(Final(d, Reached(OpSteps(d, op), reach)), results, whole)
    ensures before <= after && AllGood(after[|before|..], results, whole)
  {
    hide Good, Allowed, OpSteps;
    OpGood(d, op, results, whole);
    PrefixGood(OpSteps(d, op), reach, results, whole);
    LastIsFinal(d, Reached(OpSteps(d, op), reach), results, whole);
    assert after[|before|..] == Reached(OpSteps(d, op), reach);
  }

  /** The same for an operation that ran to its end. */
  lemma OpEnds(d: DiskState, before: seq<DiskState>, after: seq<DiskState>, op: Op, results: map<Key, seq<Row>>,
               whole: bool)
    requires Good(d, results, whole) && Allowed(d, op, results, whole) && after == before + OpSteps(d, op)
    ensures Good(Final(d, OpSteps(d, op)), results, whole)
    ensures before <= after && AllGood(after[|before|..], results, whole)
  {
    hide Good, Allowed, OpSteps;
    OpStays(d, before, after, op, |OpSteps(d, op)|, results, whole);
  }

  lemma NoStates(results: map<Key, seq<Row>>)
    ensures AllGood([], results, false)
  {}

  lemma JoinTraces(a: seq<DiskState>, b: seq<DiskState>, c: seq<DiskState>, results: map<Key, seq<Row>>, whole: bool)
    requires a <= b <= c && AllGood(b[|a|..], results, whole) && AllGood(c[|b|..], results, whole)
    ensures AllGood(c[|a|..], results, whole)
  {
    hide Good;
    forall i | 0 <= i < |c[|a|..]| ensures Good(c[|a|..][i], results, whole) {
      if |a| + i < |b| {
        assert c[|a|..][i] == b[|a|..][i];
      } else {
        assert c[|a|..][i] == c[|b|..][|a| + i - |b|];
      }
    }
  }

  lemma Associate2(a: seq<DiskState>, b: seq<DiskState>, c: seq<DiskState>)
    ensures a + b + c == a + (b + c)
  {}

  lemma Associate(a: seq<DiskState>, b: seq<DiskState>, c: seq<DiskState>, d: seq<DiskState>, e: seq<DiskState>)
    ensures a + b + c + d + e == a + (b + c + d + e)
  {}

  /** The listings read by a vacuum are those of the directories at that moment. */
  ghost predicate ListedAsIs(d: DiskState, now: int, listing: seq<Path>, tmpListing: seq<Path>) {
    && (forall p :: p in listing <==> p.DataFile? && p in d.files && p !in PathsOf(Expired(Listed(d), now)))
    && (forall p :: p in tmpListing <==> p.TmpFile? && p in d.files)
  }

  /** The entry is pinned, or its time has not come. */
  predicate Outlives(e: Entry, now: int) {
    match (e.origin, e.expiresAt)
    case (Materialized(_), _) => true
    case (CacheCopy, None) => true
    case (CacheCopy, Some(expiry)) => now < expiry
  }

  /**
   * What a vacuum leaves: exactly the materialized and the unexpired entries; under `data/`
   * exactly their files; under `tmp/` the files that are not old; nothing else touched.
   */
  ghost predicate Vacuumed(d: DiskState, d': DiskState, now: int, stale: set<Path>) {
    && Consistent(d', true)
    && (forall e :: e in Listed(d') <==> e in Listed(d) && Outlives(e, now))
    && (forall p: Path | p.DataFile? :: p in d'.files <==> exists e :: e in Listed(d') && e.path == p)
    && (forall p: Path | p.TmpFile? :: p in d'.files <==> p in d.files && p !in stale)
    && (forall p: Path | p.CorruptFile? :: p in d'.files <==> p in d.files)
    && (forall p | p in d'.files :: p in d.files && d'.files[p] == d.files[p])
  }

  lemma NoDeletes(d: DiskState)
    ensures DeleteSteps(d, []) == [] && Final(d, []) == d && PathsOf([]) == []
  {}

  lemma PathsOfStep(es: seq<Entry>, i: nat)
    requires i < |es|
    ensures PathsOf(es[..i + 1]) == PathsOf(es[..i]) + [es[i].path]
  {}

  lemma {:induction false} DeleteStepsConcat(d: DiskState, a: seq<Path>, b: seq<Path>)
    ensures var d' := Final(d, DeleteSteps(d, a));
      && DeleteSteps(d, a + b) == DeleteSteps(d, a) + DeleteSteps(d', b)
      && Final(d, DeleteSteps(d, a + b)) == Final(d', DeleteSteps(d', b))
    decreases |b|
  {
    if b == [] {
      assert a + b == a;
    } else {
      var n := |b| - 1;
      assert (a + b)[..|a + b| - 1] == a + b[..n];
      DeleteStepsConcat(d, a, b[..n]);
    }
  }

  /** A vacuum of a consistent disk whose directories were listed as they are. */
  ghost predicate VacuumListed(d: DiskState, op: Op, listing: seq<Path>, tmpListing: seq<Path>, stale: set<Path>) {
    && op.Reclaim? && Consistent(d, true) && ListedAsIs(d, op.now, listing, tmpListing)
    && op.unreferenced == Unreferenced(listing, Apply(Vacuum(op.now), Listed(d)))
    && op.oldTmps == OldOnes(tmpListing, stale)
  }

  function GonePaths(d: DiskState, op: Op): seq<Path>
    requires op.Reclaim?
  {
    PathsOf(Expired(Listed(d), op.now))
  }

  lemma VacuumSteps(d: DiskState, op: Op)
    requires op.Reclaim?
    ensures var listed := ManifestSteps(d, Vacuum(op.now), op.id);
            var d1 := Final(d, listed);
            var d2 := Final(d1, DeleteSteps(d1, GonePaths(d, op)));
            var d3 := Final(d2, DeleteSteps(d2, op.unreferenced));
      && OpSteps(d, op) == listed + DeleteSteps(d1, GonePaths(d, op)) + DeleteSteps(d2, op.unreferenced)
                           + DeleteSteps(d3, op.oldTmps)
      && Final(d3, DeleteSteps(d3, op.oldTmps)) == Final(d, OpSteps(d, op))
    ensures var d4 := Final(d, OpSteps(d, op));
      && Listed(d4) == Apply(Vacuum(op.now), Listed(d))
      && d4.files == d.files - Elements(GonePaths(d, op) + op.unreferenced + op.oldTmps)
  {
    hide DeleteSteps, Apply, PathsOf, Expired;
    var listed := ManifestSteps(d, Vacuum(op.now), op.id);
    var d1 := Final(d, listed);
    var gone := GonePaths(d, op);
    DeleteStepsConcat(d1, gone, op.unreferenced);
    DeleteStepsConcat(d1, gone + op.unreferenced, op.oldTmps);
    DeleteStepsFiles(d1, gone + op.unreferenced + op.oldTmps);
  }

  /** Survivors are in place, and each keeps its file. */
  lemma VacuumKeeps(d: DiskState, op: Op, listing: seq<Path>, tmpListing: seq<Path>, stale: set<Path>)
    requires VacuumListed(d, op, listing, tmpListing, stale)
    ensures Consistent(Final(d, OpSteps(d, op)), true)
    ensures forall e :: e in Apply(Vacuum(op.now), Listed(d)) <==> e in Listed(d) && Survives(e, op.now)
  {
    hide OpSteps, Apply, Kills, Unreferenced, OldOnes, EntryOk, UniqueKeys;
    assert UniqueKeys(Listed(d));
    ApplyMeans(Vacuum(op.now), Listed(d));
    VacuumKills(op.now);
    assert Good(d, map[], true);
    VacuumAllowed(d, op, listing, tmpListing, stale);
    OpGood(d, op, map[], true);
    VacuumNotEmpty(d, op);
  }

  lemma VacuumKills(now: int)
    ensures forall e :: Kills(Vacuum(now), e) <==> !Survives(e, now)
  {}

  lemma VacuumNotEmpty(d: DiskState, op: Op)
    requires op.Reclaim?
    ensures |OpSteps(d, op)| > 0
  {}

  lemma VacuumAllowed(d: DiskState, op: Op, listing: seq<Path>, tmpListing: seq<Path>, stale: set<Path>)
    requires VacuumListed(d, op, listing, tmpListing, stale)
    requires forall e :: e in Apply(Vacuum(op.now), Listed(d)) <==> e in Listed(d) && Survives(e, op.now)
    ensures Allowed(d, op, map[], true)
  {
    hide Apply, Consistent, Survives;
    var es := Apply(Vacuum(op.now), Listed(d));
    forall p, e | p in op.unreferenced && e in Listed(d) && Survives(e, op.now) ensures e.path != p {
      assert e in es;
      InPaths(es, e);
    }
  }

  lemma InPaths(es: seq<Entry>, e: Entry)
    requires e in es
    ensures e.path in PathsOf(es)
  {
    var i :| 0 <= i < |es| && es[i] == e;
    assert PathsOf(es)[i] == e.path;
  }

  /** Whose path it is. */
  lemma PathFrom(es: seq<Entry>, p: Path) returns (e: Entry)
    requires p in PathsOf(es)
    ensures e in es && e.path == p
  {
    var i :| 0 <= i < |PathsOf(es)| && PathsOf(es)[i] == p;
    e := es[i];
  }

  /** The file of a survivor is not the file of an expired entry. */
  lemma SurvivorNotGone(d: DiskState, op: Op, e: Entry)
    requires op.Reclaim? && Consistent(d, true) && e in Listed(d) && Survives(e, op.now)
    ensures e.path !in GonePaths(d, op) && e.path.DataFile? && e.path in d.files
  {
    hide Survives;
    assert EntryOk(d, e, true);
    var gone := Expired(Listed(d), op.now);
    forall i | 0 <= i < |gone| ensures gone[i].path != e.path {
      assert gone[i] in gone;
      assert EntryOk(d, gone[i], true);
      SameKeySameEntry(Listed(d), e, gone[i]);
    }
  }

  lemma SameKeySameEntry(es: seq<Entry>, e: Entry, x: Entry)
    requires UniqueKeys(es) && e in es && x in es
    ensures e.key == x.key ==> e == x
  {
    var i :| 0 <= i < |es| && es[i] == e;
    var j :| 0 <= j < |es| && es[j] == x;
  }

  lemma VacuumDataFile(d: DiskState, op: Op, listing: seq<Path>, tmpListing: seq<Path>, stale: set<Path>, p: Path)
    requires VacuumListed(d, op, listing, tmpListing, stale) && p.DataFile?
    ensures var es := Apply(Vacuum(op.now), Listed(d));
            p in d.files && p !in GonePaths(d, op) && p !in op.unreferenced && p !in op.oldTmps
            <==> exists e :: e in es && e.path == p
  {
    hide Apply, Consistent, Survives;
    var es := Apply(Vacuum(op.now), Listed(d));
    VacuumKeeps(d, op, listing, tmpListing, stale);
    if p in d.files && p !in GonePaths(d, op) && p !in op.unreferenced {
      assert p in listing;
      var e := PathFrom(es, p);
    }
    if e :| e in es && e.path == p {
      SurvivorNotGone(d, op, e);
      InPaths(es, e);
    }
  }

  lemma GoneAreData(d: DiskState, op: Op, p: Path)
    requires op.Reclaim? && Consistent(d, true) && p in GonePaths(d, op)
    ensures p.DataFile?
  {
    var e := PathFrom(Expired(Listed(d), op.now), p);
    assert EntryOk(d, e, true);
  }

  /** The steps of a vacuum, put together. */
  lemma VacuumDone(d: DiskState, op: Op, listing: seq<Path>, tmpListing: seq<Path>, stale: set<Path>)
    requires op.Reclaim? && VacuumListed(d, op, listing, tmpListing, stale)
    ensures Vacuumed(d, Final(d, OpSteps(d, op)), op.now, stale)
  {
    hide Apply, Consistent, OpSteps, GonePaths;
    hide Survives, VacuumListed;
    VacuumKeeps(d, op, listing, tmpListing, stale);
    VacuumSteps(d, op);
    var d4 := Final(d, OpSteps(d, op));
    forall e ensures e in Listed(d4) <==> e in Listed(d) && Outlives(e, op.now) {
      SurvivesMeans(e, op.now);
    }
    forall p: Path | p.DataFile? ensures p in d4.files <==> exists e :: e in Listed(d4) && e.path == p {
      VacuumFile(d, op, p);
      VacuumDataFile(d, op, listing, tmpListing, stale, p);
    }
    forall p: Path | !p.DataFile?
      ensures p in d4.files <==> p in d.files && (p.TmpFile? ==> p !in stale)
    {
      VacuumFile(d, op, p);
      VacuumOtherFile(d, op, listing, tmpListing, stale, p);
    }
  }

  lemma SurvivesMeans(e: Entry, now: int)
    ensures Survives(e, now) <==> Outlives(e, now)
  {}

  lemma VacuumFile(d: DiskState, op: Op, p: Path)
    requires op.Reclaim?
    requires Final(d, OpSteps(d, op)).files == d.files - Elements(GonePaths(d, op) + op.unreferenced + op.oldTmps)
    ensures p in Final(d, OpSteps(d, op)).files <==>
            p in d.files && p !in GonePaths(d, op) && p !in op.unreferenced && p !in op.oldTmps
  {
    hide OpSteps, GonePaths, Final;
  }

  /** Of the other files only the old temporary ones go. */
  lemma VacuumOtherFile(d: DiskState, op: Op, listing: seq<Path>, tmpListing: seq<Path>, stale: set<Path>, p: Path)
    requires VacuumListed(d, op, listing, tmpListing, stale) && !p.DataFile?
    ensures p !in GonePaths(d, op) && p !in op.unreferenced
    ensures p in op.oldTmps <==> p.TmpFile? && p in d.files && p in stale
  {
    hide Apply, Consistent;
    if p in GonePaths(d, op) {
      GoneAreData(d, op, p);
    }
  }
}
