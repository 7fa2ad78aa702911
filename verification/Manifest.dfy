/**
 * The cache manifest (crates/pawrly-engine/src/cache.rs): a list of entries and the changes that
 * the cache operations apply to it.
 */
module Manifest {
  import opened Prelude

  datatype Key = Key(source: string, table: string)

  const MATERIALIZED_SCHEMA := "materialized"

  /** Where a file lives under the cache root; each name is one path component. */
  datatype Path =
    | DataFile(source: string, table: string)
    | TmpFile(id: nat)
    | CorruptFile(source: string, table: string, id: nat)

  datatype Origin = CacheCopy | Materialized(spec: string)

  datatype Entry = Entry(
    key: Key,
    writtenAt: int,
    expiresAt: Option<int>,
    rowCount: nat,
    sizeBytes: nat,
    path: Path,
    origin: Origin)

  function DataPath(key: Key): Path {
    DataFile(key.source, key.table)
  }

  /** `exp` is none or later than `now`. */
  predicate Unexpired(e: Entry, now: int) {
    e.expiresAt.None? || now < e.expiresAt.value
  }

  /** The changes made under the manifest lock. */
  datatype Delta =
    | Upsert(entry: Entry)
    | Invalidate(key: Key)
    | Quarantine(key: Key, path: Path)
    | Vacuum(now: int)
    | DropMaterialized(name: string)

  // ------------------------------------------------------------------ list operations

  predicate Survives(e: Entry, now: int) {
    e.origin.Materialized? || Unexpired(e, now)
  }

  predicate IsDropTarget(e: Entry, name: string) {
    e.key == Key(MATERIALIZED_SCHEMA, name) && e.origin.Materialized?
  }

  /** The entries a delta looks for. */
  predicate Kills(d: Delta, e: Entry) {
    match d
    case Upsert(entry) => e.key == entry.key
    case Invalidate(key) => e.key == key
    case Quarantine(key, path) => e.key == key && e.path == path
    case Vacuum(now) => !Survives(e, now)
    case DropMaterialized(name) => IsDropTarget(e, name)
  }

  /** `Vec::retain`: every match goes. */
  function RemoveAll(es: seq<Entry>, d: Delta): (r: seq<Entry>)
    ensures forall e :: e in r <==> e in es && !Kills(d, e)
  {
    if es == [] then [] else
      var last := es[|es| - 1];
      RemoveAll(es[..|es| - 1], d) + (if Kills(d, last) then [] else [last])
  }

  /** `position` followed by `remove`: the first match goes, if there is one. */
  function RemoveFirst(es: seq<Entry>, d: Delta): seq<Entry> {
    if es == [] then []
    else if Kills(d, es[0]) then es[1..]
    else [es[0]] + RemoveFirst(es[1..], d)
  }

  function Apply(d: Delta, es: seq<Entry>): seq<Entry> {
    match d
    case Upsert(entry) => RemoveAll(es, d) + [entry]
    case Invalidate(_) => RemoveFirst(es, d)
    case Quarantine(_, _) => RemoveAll(es, d)
    case Vacuum(_) => RemoveAll(es, d)
    case DropMaterialized(_) => RemoveFirst(es, d)
  }

  // ------------------------------------------------------------------- one per key

  ghost predicate UniqueKeys(es: seq<Entry>) {
    forall i, j :: 0 <= i < j < |es| ==> es[i].key != es[j].key
  }

  lemma {:induction false} RemoveAllUnique(es: seq<Entry>, d: Delta)
    requires UniqueKeys(es)
    ensures UniqueKeys(RemoveAll(es, d))
  {
    if es != [] {
      var n := |es| - 1;
      RemoveAllUnique(es[..n], d);
      var r := RemoveAll(es[..n], d);
      forall i | 0 <= i < |r| ensures r[i].key != es[n].key {
        assert r[i] in r;
        var k :| 0 <= k < n && es[k] == r[i];
      }
    }
  }

  /** With one entry per key, removing the first match of a key removes every match. */
  lemma {:induction false} RemoveFirstUnique(es: seq<Entry>, d: Delta, key: Key)
    requires UniqueKeys(es) && forall e | Kills(d, e) :: e.key == key
    ensures UniqueKeys(RemoveFirst(es, d))
    ensures forall e :: e in RemoveFirst(es, d) <==> e in es && !Kills(d, e)
    decreases |es|
  {
    hide Kills;
    if es != [] {
      var rest := es[1..];
      assert es == [es[0]] + rest;
      RemoveFirstUnique(rest, d, key);
      if Kills(d, es[0]) {
        forall e | e in rest ensures !Kills(d, e) {
          var k :| 0 <= k < |rest| && rest[k] == e;
          assert es[k + 1] == e;
        }
      } else {
        var r := RemoveFirst(rest, d);
        forall i | 0 <= i < |r| ensures r[i].key != es[0].key {
          assert r[i] in r;
          var k :| 0 <= k < |rest| && rest[k] == r[i];
          assert es[k + 1] == r[i];
        }
      }
    }
  }

  /** A delta keeps one entry per key; it removes what it looks for and adds what it upserts. */
  lemma ApplyMeans(d: Delta, es: seq<Entry>)
    requires UniqueKeys(es)
    ensures UniqueKeys(Apply(d, es))
    ensures forall e :: e in Apply(d, es) <==> (e in es && !Kills(d, e)) || d == Upsert(e)
  {
    RemoveAllUnique(es, d);
    match d
    case Upsert(entry) =>
      var r := RemoveAll(es, d);
      assert forall i :: 0 <= i < |r| ==> r[i] in r;
    case Invalidate(key) => RemoveFirstUnique(es, d, key);
    case DropMaterialized(name) => RemoveFirstUnique(es, d, Key(MATERIALIZED_SCHEMA, name));
    case _ =>
  }

  /** The same, change by change, in terms of the entries' own fields. */
  lemma ApplyExactly(d: Delta, es: seq<Entry>, e: Entry)
    requires UniqueKeys(es)
    ensures e in Apply(d, es) <==>
      match d
      case Upsert(entry) => e == entry || (e in es && e.key != entry.key)
      case Invalidate(key) => e in es && e.key != key
      case Quarantine(key, path) => e in es && (e.key != key || e.path != path)
      case Vacuum(now) => e in es && (e.expiresAt.Some? && e.expiresAt.value <= now ==> e.origin != CacheCopy)
      case DropMaterialized(name) => e in es && (e.key == Key("materialized", name) ==> e.origin == CacheCopy)
  {
    hide Apply;
    ApplyMeans(d, es);
  }

  // ------------------------------------------------------------------ the file on disk

  /** The bytes of a manifest file: a torn write does not parse. */
  datatype Content = Torn | Whole(entries: seq<Entry>)

  /** An absent or unreadable manifest counts as empty. */
  function ReadFile(file: Option<Content>): seq<Entry> {
    if file.Some? && file.value.Whole? then file.value.entries else []
  }

  // ----------------------------------------------------------------------- histories

  /** A delta that was written; `blind`, if the manifest it was applied to could not be read. */
  datatype Commit = Commit(d: Delta, blind: bool)

  /** What the commit makes of the manifest: one that cannot be read counts as empty. */
  function Commits(c: Commit, es: seq<Entry>): seq<Entry> {
    Apply(c.d, if c.blind then [] else es)
  }

  /** The commit takes the entry out, or overlooks it. */
  predicate Undoes(c: Commit, e: Entry) {
    c.blind || Kills(c.d, e)
  }

  lemma CommitMeans(c: Commit, es: seq<Entry>)
    requires UniqueKeys(es)
    ensures UniqueKeys(Commits(c, es))
    ensures forall e :: e in Commits(c, es) <==> (e in es && !Undoes(c, e)) || c.d == Upsert(e)
  {
    hide Apply, Kills;
    ApplyMeans(c.d, if c.blind then [] else es);
  }

  /** The manifest after a history of commits. */
  function Replay(log: seq<Commit>): seq<Entry> {
    if log == [] then [] else Commits(log[|log| - 1], Replay(log[..|log| - 1]))
  }

  lemma {:induction false} ReplayUnique(log: seq<Commit>)
    ensures UniqueKeys(Replay(log))
  {
    hide Commits;
    if log != [] {
      ReplayUnique(log[..|log| - 1]);
      CommitMeans(log[|log| - 1], Replay(log[..|log| - 1]));
    }
  }

  /** Commit `i` wrote the entry and no later one undid that. */
  ghost predicate LastsFrom(log: seq<Commit>, i: nat, e: Entry) {
    i < |log| && log[i].d == Upsert(e) && forall j :: i < j < |log| ==> !Undoes(log[j], e)
  }

  lemma {:induction false} PresentWasWritten(log: seq<Commit>, e: Entry) returns (i: nat)
    requires e in Replay(log)
    ensures LastsFrom(log, i, e)
  {
    hide Commits, Undoes;
    var n := |log| - 1;
    var before := log[..n];
    assert log == before + [log[n]];
    ReplayUnique(before);
    CommitMeans(log[n], Replay(before));
    if log[n].d == Upsert(e) {
      i := n;
    } else {
      i := PresentWasWritten(before, e);
      LastsLonger(before, i, e, log[n]);
    }
  }

  lemma {:induction false} WrittenIsPresent(log: seq<Commit>, i: nat, e: Entry)
    requires LastsFrom(log, i, e)
    ensures e in Replay(log)
  {
    hide Commits, Undoes;
    var n := |log| - 1;
    ReplayUnique(log[..n]);
    CommitMeans(log[n], Replay(log[..n]));
    if i < n {
      WrittenIsPresent(log[..n], i, e);
    }
  }

  /**
   * An entry is in the manifest exactly when it was written and nothing since undid that: a
   * later write, invalidation, quarantine or drop of its key, a vacuum that found it expired, or
   * an update that could not read the manifest.
   */
  lemma ReplayMeans(log: seq<Commit>, e: Entry)
    ensures e in Replay(log) <==> exists i: nat :: LastsFrom(log, i, e)
  {
    if e in Replay(log) {
      var i := PresentWasWritten(log, e);
    }
    if i: nat :| LastsFrom(log, i, e) {
      WrittenIsPresent(log, i, e);
    }
  }

  /** An entry that no later delta takes out, pinned or not, is lost exactly to a blind commit. */
  lemma LostExactly(log: seq<Commit>, i: nat, e: Entry)
    requires i < |log| && log[i].d == Upsert(e) && forall j :: i < j < |log| ==> !Kills(log[j].d, e)
    ensures e in Replay(log) <==> forall j :: i < j < |log| ==> !log[j].blind
  {
    if e in Replay(log) {
      var k := PresentWasWritten(log, e);
      assert Kills(log[k].d, e) && Kills(log[i].d, e);
      assert k == i by {
        if k < i {
          assert Undoes(log[i], e);
        }
      }
    } else if forall j :: i < j < |log| ==> !log[j].blind {
      assert LastsFrom(log, i, e);
      WrittenIsPresent(log, i, e);
    }
  }

  lemma LastsLonger(log: seq<Commit>, i: nat, e: Entry, c: Commit)
    requires LastsFrom(log, i, e) && !Undoes(c, e)
    ensures LastsFrom(log + [c], i, e)
  {
    hide Undoes;
    forall j | i < j < |log + [c]| ensures !Undoes((log + [c])[j], e) {
      if j < |log| {
        assert !Undoes(log[j], e);
      }
    }
  }
}
