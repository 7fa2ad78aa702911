/**
 * The durable activity log (crates/pawrly-engine/src/durable_activity.rs) as a step system: any
 * number of tasks record, flush, prune and scan at once. A step is one access to shared state:
 * the pending buffer under its mutex, one file, or the manifest (read, or replaced by rename).
 * I/O may fail at any step. A write that fails ends its flush or prune; a manifest that cannot be
 * read is taken for an empty one, as is a missing one.
 */
module Activity {
  import opened Prelude
  import opened MapSum

  type Path = string
  type Tid = nat

  /** One activity record: its time in microseconds and whatever else it says. */
  datatype Rec = Rec(at: int, what: string)

  /** One line of the manifest. */
  datatype FileEntry = FileEntry(path: Path, minAt: int, maxAt: int, rows: nat)

  datatype FlushStage =
    | Taken
    | Written(path: Path)
    | Locked(path: Path)
    | Loaded(path: Path, m: seq<FileEntry>, blind: bool)

  datatype Task =
    | Flushing(records: seq<Rec>, stage: FlushStage)
    | PruneLocked(cutoff: int)
    | Pruning(cutoff: int, kept: seq<FileEntry>, todo: seq<FileEntry>, blind: bool)
    | Unlocking
    | Scanning(visited: set<Path>, left: seq<FileEntry>, got: seq<Rec>, known: set<Path>, unreadable: set<Path>)

  /**
   * The store, the tasks at work on it, and a ledger kept for the proofs: all records ever
   * recorded, the files ever listed in the manifest, the cutoff at which a file was dropped, the
   * files that were listed when an update wrote the manifest without having been able to read it,
   * the records of failed flushes, and the results of finished scans. A scan's `known` are the files
   * listed so far when it read the manifest, and `unreadable` those it then could not read.
   */
  datatype State = State(
    pending: seq<Rec>,
    disk: map<Path, seq<Rec>>,
    manifest: seq<FileEntry>,
    lock: Option<Tid>,
    tasks: map<Tid, Task>,
    used: set<Path>,
    recorded: multiset<Rec>,
    published: map<Path, multiset<Rec>>,
    droppedAt: map<Path, int>,
    forgotten: set<Path>,
    lost: multiset<Rec>,
    results: seq<seq<Rec>>)

  const INIT := State([], map[], [], None, map[], {}, multiset{}, map[], map[], {}, multiset{}, [])

  datatype Event =
    | Record(r: Rec)
    | FlushTake(t: Tid)
    | FlushWrite(t: Tid, path: Path)
    | FlushLock(t: Tid)
    | FlushLoad(t: Tid, ok: bool)
    | FlushStore(t: Tid)
    | FlushFail(t: Tid)
    | PruneLock(t: Tid, cutoff: int)
    | PruneLoad(t: Tid, ok: bool)
    | PruneEntry(t: Tid, deleted: bool)
    | PruneStore(t: Tid)
    | PruneFail(t: Tid)
    | Unlock(t: Tid)
    | ScanLoad(t: Tid, ok: bool)
    | ScanFile(t: Tid, readable: bool)
    | ScanPending(t: Tid)

  // ---------------------------------------------------------------------- the entries

  function MinAt(rs: seq<Rec>): int
    requires rs != []
  {
    if |rs| == 1 then rs[0].at
    else var m := MinAt(rs[1..]); if rs[0].at < m then rs[0].at else m
  }

  function MaxAt(rs: seq<Rec>): int
    requires rs != []
  {
    if |rs| == 1 then rs[0].at
    else var m := MaxAt(rs[1..]); if rs[0].at > m then rs[0].at else m
  }

  function EntryFor(path: Path, rs: seq<Rec>): (e: FileEntry)
    requires rs != []
    ensures e.path == path
  {
    FileEntry(path, MinAt(rs), MaxAt(rs), |rs|)
  }

  /** The entry's times are the extremes of the file's records. */
  ghost predicate Accurate(e: FileEntry, rs: multiset<Rec>) {
    && e.rows == |rs|
    && (forall r | r in rs :: e.minAt <= r.at <= e.maxAt)
    && (exists r :: r in rs && r.at == e.minAt) && (exists r :: r in rs && r.at == e.maxAt)
  }

  lemma {:induction false} EntryAccurate(path: Path, rs: seq<Rec>)
    requires rs != []
    ensures Accurate(EntryFor(path, rs), multiset(rs))
  {
    assert rs[0] in multiset(rs);
    if |rs| > 1 {
      EntryAccurate(path, rs[1..]);
      assert rs == [rs[0]] + rs[1..];
    }
  }

  // ------------------------------------------------------------------------- the steps

  predicate HoldsLock(task: Task) {
    match task
    case Flushing(_, stage) => stage.Locked? || stage.Loaded?
    case PruneLocked(_) => true
    case Pruning(_, _, _, _) => true
    case Unlocking => true
    case Scanning(_, _, _, _, _) => false
  }

  predicate IsFlushing(s: State, t: Tid) {
    t in s.tasks && s.tasks[t].Flushing?
  }

  predicate Enabled(s: State, e: Event) {
    match e
    case Record(_) => true
    case FlushTake(t) => t !in s.tasks && s.pending != []
    case FlushWrite(t, path) => IsFlushing(s, t) && s.tasks[t].stage.Taken? && path !in s.used
    case FlushLock(t) => IsFlushing(s, t) && s.tasks[t].stage.Written? && s.lock == None
    case FlushLoad(t, _) => IsFlushing(s, t) && s.tasks[t].stage.Locked?
    case FlushStore(t) => IsFlushing(s, t) && s.tasks[t].stage.Loaded? && s.tasks[t].records != []
    case FlushFail(t) => IsFlushing(s, t)
    case PruneLock(t, _) => t !in s.tasks && s.lock == None
    case PruneLoad(t, _) => t in s.tasks && s.tasks[t].PruneLocked?
    case PruneEntry(t, _) => t in s.tasks && s.tasks[t].Pruning? && s.tasks[t].todo != []
    case PruneStore(t) => t in s.tasks && s.tasks[t].Pruning? && s.tasks[t].todo == []
    case PruneFail(t) => t in s.tasks && (s.tasks[t].Pruning? || s.tasks[t].PruneLocked?)
    case Unlock(t) => t in s.tasks && s.tasks[t].Unlocking?
    case ScanLoad(t, _) => t !in s.tasks
    case ScanFile(t, _) => t in s.tasks && s.tasks[t].Scanning? && s.tasks[t].left != []
    case ScanPending(t) => t in s.tasks && s.tasks[t].Scanning? && s.tasks[t].left == []
  }

  /** `read_manifest`: what cannot be read is empty. */
  function Read(s: State, ok: bool): seq<FileEntry> {
    if ok then s.manifest else []
  }

  function Next(s: State, e: Event): State
    requires Enabled(s, e)
  {
    match e
    case Record(r) => s.(pending := s.pending + [r], recorded := s.recorded + multiset{r})
    case FlushTake(t) => s.(pending := [], tasks := s.tasks[t := Flushing(s.pending, Taken)])
    case FlushWrite(t, path) =>
      var rs := s.tasks[t].records;
      s.(disk := s.disk[path := rs], used := s.used + {path}, tasks := s.tasks[t := Flushing(rs, Written(path))])
    case FlushLock(t) =>
      var task := s.tasks[t];
      s.(lock := Some(t), tasks := s.tasks[t := Flushing(task.records, Locked(task.stage.path))])
    case FlushLoad(t, ok) =>
      var task := s.tasks[t];
      s.(tasks := s.tasks[t := Flushing(task.records, Loaded(task.stage.path, Read(s, ok), !ok))])
    case FlushStore(t) =>
      var rs, path := s.tasks[t].records, s.tasks[t].stage.path;
      s.(manifest := s.tasks[t].stage.m + [EntryFor(path, rs)],
         forgotten := if s.tasks[t].stage.blind then s.published.Keys else s.forgotten,
         published := s.published[path := multiset(rs)],
         tasks := s.tasks[t := Unlocking])
    case FlushFail(t) =>
      s.(lock := if HoldsLock(s.tasks[t]) then None else s.lock,
         lost := s.lost + multiset(s.tasks[t].records), tasks := s.tasks - {t})
    case PruneLock(t, cutoff) => s.(lock := Some(t), tasks := s.tasks[t := PruneLocked(cutoff)])
    case PruneLoad(t, ok) => s.(tasks := s.tasks[t := Pruning(s.tasks[t].cutoff, [], Read(s, ok), !ok)])
    case PruneEntry(t, deleted) =>
      var Pruning(cutoff, kept, todo, blind) := s.tasks[t];
      var entry := todo[0];
      if entry.maxAt >= cutoff then
        s.(tasks := s.tasks[t := Pruning(cutoff, kept + [entry], todo[1..], blind)])
      else
        s.(tasks := s.tasks[t := Pruning(cutoff, kept, todo[1..], blind)],
           disk := if deleted then s.disk - {entry.path} else s.disk,
           droppedAt := s.droppedAt[entry.path := cutoff])
    case PruneStore(t) =>
      s.(manifest := s.tasks[t].kept, forgotten := if s.tasks[t].blind then s.published.Keys else s.forgotten,
         tasks := s.tasks[t := Unlocking])
    case PruneFail(t) => s.(lock := None, tasks := s.tasks - {t})
    case Unlock(t) => s.(lock := None, tasks := s.tasks - {t})
    case ScanLoad(t, ok) =>
      s.(tasks := s.tasks[t := Scanning({}, Read(s, ok), [], if ok then s.published.Keys else {}, {})])
    case ScanFile(t, readable) =>
      var Scanning(visited, left, got, known, unreadable) := s.tasks[t];
      var path := left[0].path;
      if !readable then
        s.(tasks := s.tasks[t := Scanning(visited, left[1..], got, known, unreadable + {path})])
      else if path in s.disk then
        s.(tasks := s.tasks[t := Scanning(visited + {path}, left[1..], got + s.disk[path], known, unreadable)])
      else
        s.(tasks := s.tasks[t := Scanning(visited, left[1..], got, known, unreadable)])
    case ScanPending(t) =>
      s.(results := s.results + [s.tasks[t].got + s.pending], tasks := s.tasks - {t})
  }

  // --------------------------------------------------------------------- the invariant

  /** The records taken by flushes that have neither listed nor lost them yet. */
  function InFlight(tasks: map<Tid, Task>): map<Tid, multiset<Rec>> {
    map t | t in tasks && tasks[t].Flushing? :: multiset(tasks[t].records)
  }

  /** Every record is, as often as it was recorded, pending, in flight, listed once, or lost. */
  ghost predicate Conserved(s: State) {
    s.recorded == multiset(s.pending) + Sum(InFlight(s.tasks)) + Sum(s.published) + s.lost
  }

  ghost predicate FilesOk(s: State) {
    && s.published.Keys <= s.used && s.disk.Keys <= s.used
    && (forall p | p in s.published && p in s.disk :: multiset(s.disk[p]) == s.published[p])
  }

  /** A file is dropped only when every record in it is older than the cutoff. */
  ghost predicate DroppedOk(s: State) {
    forall p | p in s.droppedAt :: p in s.published && forall r | r in s.published[p] :: r.at < s.droppedAt[p]
  }

  /** A list of entries, each of a different published file. */
  ghost predicate Listing(published: map<Path, multiset<Rec>>, es: seq<FileEntry>) {
    && (forall i :: 0 <= i < |es| ==> es[i].path in published && Accurate(es[i], published[es[i].path]))
    && (forall i, j :: 0 <= i < j < |es| ==> es[i].path != es[j].path)
  }

  ghost predicate LockOk(s: State) {
    && (forall t | t in s.tasks && HoldsLock(s.tasks[t]) :: s.lock == Some(t))
    && (s.lock.Some? ==> s.lock.value in s.tasks && HoldsLock(s.tasks[s.lock.value]))
  }

  predicate HasPath(s: State, t: Tid) {
    IsFlushing(s, t) && !s.tasks[t].stage.Taken?
  }

  function PathOf(s: State, t: Tid): Path
    requires HasPath(s, t)
  {
    s.tasks[t].stage.path
  }

  /** A file being flushed is on disk and not listed yet; below: it belongs to one flush. */
  ghost predicate FlushFilesOk(s: State) {
    forall t | HasPath(s, t) ::
      PathOf(s, t) in s.disk && s.disk[PathOf(s, t)] == s.tasks[t].records && PathOf(s, t) !in s.published
  }

  ghost predicate PathsDiffer(s: State) {
    forall t, u | HasPath(s, t) && HasPath(s, u) && PathOf(s, t) == PathOf(s, u) :: t == u
  }

  /** The manifest does not change between being read and being replaced. */
  ghost predicate LoadedOk(s: State) {
    && (forall t | IsFlushing(s, t) :: s.tasks[t].records != [])
    && (forall t | IsFlushing(s, t) && s.tasks[t].stage.Loaded? ::
          s.tasks[t].stage.m == Read(s, !s.tasks[t].stage.blind))
  }

  ghost predicate FlushesOk(s: State) {
    FlushFilesOk(s) && PathsDiffer(s) && LoadedOk(s)
  }

  ghost predicate PrunesOk(s: State) {
    forall t | t in s.tasks && s.tasks[t].Pruning? ::
      Listing(s.published, s.tasks[t].kept + s.tasks[t].todo)
  }

  ghost predicate Named(es: seq<FileEntry>, p: Path) {
    exists i :: 0 <= i < |es| && es[i].path == p
  }

  /** No prune has given the published file up, and no update has overlooked it. */
  predicate Current(s: State, p: Path) {
    p in s.published && p !in s.droppedAt && p !in s.forgotten
  }

  /** The list names every current file. */
  ghost predicate NamesKept(s: State, es: seq<FileEntry>) {
    forall p | Current(s, p) :: Named(es, p)
  }

  predicate Prunes(s: State, t: Tid) {
    t in s.tasks && s.tasks[t].Pruning? && !s.tasks[t].blind
  }

  /**
   * Published files that no prune has given up are on disk. The current ones are in the manifest,
   * also in the one that a prune is about to write.
   */
  ghost predicate StoredOk(s: State) {
    && (forall p | p in s.published && p !in s.droppedAt :: p in s.disk)
    && s.forgotten <= s.published.Keys
    && NamesKept(s, s.manifest)
    && (forall t | Prunes(s, t) :: NamesKept(s, s.tasks[t].kept + s.tasks[t].todo))
  }

  /** What a scan has collected are the records of the files it has read, each file once. */
  ghost predicate ScanOk(published: map<Path, multiset<Rec>>, task: Task)
    requires task.Scanning?
  {
    && Listing(published, task.left)
    && task.visited <= published.Keys
    && (forall i :: 0 <= i < |task.left| ==> task.left[i].path !in task.visited)
    && multiset(task.got) == Sum(Restrict(published, task.visited))
  }

  ghost predicate ScansOk(s: State) {
    forall t | t in s.tasks && s.tasks[t].Scanning? :: ScanOk(s.published, s.tasks[t])
  }

  predicate IsScanning(s: State, t: Tid) {
    t in s.tasks && s.tasks[t].Scanning?
  }

  /** Why a scan has not read a published file, when it has not. */
  predicate Excused(s: State, task: Task, p: Path)
    requires task.Scanning?
  {
    p !in task.known || p in task.unreadable || p in s.droppedAt || p in s.forgotten
  }

  /** Every published file has been read, will be looked at, or has its excuse. */
  ghost predicate ScanCovers(s: State, task: Task)
    requires task.Scanning?
  {
    forall p | p in s.published && !Excused(s, task, p) :: p in task.visited || Named(task.left, p)
  }

  ghost predicate CoversOk(s: State) {
    forall t | IsScanning(s, t) :: ScanCovers(s, s.tasks[t]) && s.tasks[t].known <= s.published.Keys
  }

  /** No finished scan returned a record more often than it was recorded. */
  ghost predicate ResultsOk(s: State) {
    forall r | r in s.results :: multiset(r) <= s.recorded
  }

  ghost predicate Inv(s: State) {
    && Conserved(s) && FilesOk(s) && DroppedOk(s) && Listing(s.published, s.manifest)
    && LockOk(s) && FlushesOk(s) && PrunesOk(s) && StoredOk(s) && ScansOk(s) && CoversOk(s)
    && ResultsOk(s)
  }

  lemma InitInv()
    ensures Inv(INIT)
  {
    assert InFlight(INIT.tasks) == map[];
    SumEmpty<Tid, Rec>();
    SumEmpty<Path, Rec>();
  }

  // ------------------------------------------------------------------ sums over tasks

  lemma InFlightSame(tasks: map<Tid, Task>, t: Tid, task: Task)
    requires t in tasks ==> tasks[t].Flushing? == task.Flushing?
    requires t in tasks && task.Flushing? ==> tasks[t].records == task.records
    requires t !in tasks ==> !task.Flushing?
    ensures InFlight(tasks[t := task]) == InFlight(tasks)
  {}

  lemma InFlightAdds(tasks: map<Tid, Task>, t: Tid, task: Task)
    requires t !in tasks && task.Flushing?
    ensures Sum(InFlight(tasks[t := task])) == Sum(InFlight(tasks)) + multiset(task.records)
  {
    assert InFlight(tasks[t := task]) == InFlight(tasks)[t := multiset(task.records)];
    SumAdd(InFlight(tasks), t, multiset(task.records));
  }

  lemma InFlightRemoves(tasks: map<Tid, Task>, t: Tid)
    requires t in tasks && tasks[t].Flushing?
    ensures Sum(InFlight(tasks)) == Sum(InFlight(tasks - {t})) + multiset(tasks[t].records)
    ensures InFlight(tasks[t := Unlocking]) == InFlight(tasks - {t})
  {
    hide Sum;
    SumPick(InFlight(tasks), t);
    assert InFlight(tasks) - {t} == InFlight(tasks - {t});
  }

  lemma InFlightDrops(tasks: map<Tid, Task>, t: Tid)
    requires t in tasks && !tasks[t].Flushing?
    ensures InFlight(tasks - {t}) == InFlight(tasks)
  {}

  // -------------------------------------------------------------- every step keeps it

  /** The task that makes the step. */
  function Actor(e: Event): Option<Tid> {
    match e
    case Record(_) => None
    case _ => Some(e.t)
  }

  predicate IsFlush(e: Event) {
    e.FlushTake? || e.FlushWrite? || e.FlushLock? || e.FlushLoad? || e.FlushStore? || e.FlushFail?
  }

  predicate IsPrune(e: Event) {
    e.PruneLock? || e.PruneLoad? || e.PruneEntry? || e.PruneStore? || e.PruneFail?
  }

  lemma OthersStay(s: State, e: Event, u: Tid)
    requires Enabled(s, e) && Actor(e) != Some(u)
    ensures u in Next(s, e).tasks <==> u in s.tasks
    ensures u in s.tasks ==> Next(s, e).tasks[u] == s.tasks[u]
  {
    hide Next, Enabled;
    if IsFlush(e) {
      OthersStayFlush(s, e, u);
    } else if IsPrune(e) {
      OthersStayPrune(s, e, u);
    } else {
      OthersStayRest(s, e, u);
    }
  }

  lemma OthersStayFlush(s: State, e: Event, u: Tid)
    requires IsFlush(e) && Enabled(s, e) && Actor(e) != Some(u)
    ensures u in Next(s, e).tasks <==> u in s.tasks
    ensures u in s.tasks ==> Next(s, e).tasks[u] == s.tasks[u]
  {
    hide EntryFor, InFlight, HoldsLock;
  }

  lemma OthersStayPrune(s: State, e: Event, u: Tid)
    requires IsPrune(e) && Enabled(s, e) && Actor(e) != Some(u)
    ensures u in Next(s, e).tasks <==> u in s.tasks
    ensures u in s.tasks ==> Next(s, e).tasks[u] == s.tasks[u]
  {
    hide EntryFor, InFlight, HoldsLock;
  }

  lemma OthersStayRest(s: State, e: Event, u: Tid)
    requires !IsFlush(e) && !IsPrune(e) && Enabled(s, e) && Actor(e) != Some(u)
    ensures u in Next(s, e).tasks <==> u in s.tasks
    ensures u in s.tasks ==> Next(s, e).tasks[u] == s.tasks[u]
  {
    hide EntryFor, InFlight, HoldsLock;
  }

  lemma StepConserved(s: State, e: Event)
    requires Inv(s) && Enabled(s, e)
    ensures Conserved(Next(s, e))
  {
    hide Conserved, FilesOk, DroppedOk, Listing, LockOk, FlushesOk, PrunesOk, StoredOk, ScansOk, CoversOk, ResultsOk,
         Next;
    if MovesRecords(e) {
      MovedConserved(s, e);
    } else {
      SameRecords(s, e);
      SameConserved(s, Next(s, e));
    }
  }

  predicate MovesRecords(e: Event) {
    e.Record? || e.FlushTake? || e.FlushStore? || e.FlushFail?
  }

  lemma SameConserved(s: State, s': State)
    requires Conserved(s) && s'.recorded == s.recorded && s'.pending == s.pending && s'.lost == s.lost
    requires s'.published == s.published && InFlight(s'.tasks) == InFlight(s.tasks)
    ensures Conserved(s')
  {
    hide Sum, InFlight;
  }

  /** Most steps leave every record where it is. */
  lemma SameRecords(s: State, e: Event)
    requires Enabled(s, e) && !MovesRecords(e)
    ensures var s' := Next(s, e);
      && s'.recorded == s.recorded && s'.pending == s.pending && s'.lost == s.lost
      && s'.published == s.published && InFlight(s'.tasks) == InFlight(s.tasks)
  {
    hide InFlight, HoldsLock;
    var s' := Next(s, e);
    if e.PruneFail? || e.Unlock? || e.ScanPending? {
      InFlightDrops(s.tasks, e.t);
    } else {
      InFlightSame(s.tasks, e.t, s'.tasks[e.t]);
    }
  }

  lemma MovedConserved(s: State, e: Event)
    requires Conserved(s) && FlushesOk(s) && Enabled(s, e) && MovesRecords(e)
    ensures Conserved(Next(s, e))
  {
    hide LoadedOk, PathsDiffer, Sum, InFlight, EntryFor;
    match e
    case Record(r) =>
      assert multiset(s.pending + [r]) == multiset(s.pending) + multiset{r};
    case FlushTake(t) => InFlightAdds(s.tasks, t, Flushing(s.pending, Taken));
    case FlushStore(t) =>
      InFlightRemoves(s.tasks, t);
      assert HasPath(s, t);
      SumAdd(s.published, PathOf(s, t), multiset(s.tasks[t].records));
    case FlushFail(t) => InFlightRemoves(s.tasks, t);
  }

  /** Published files stay published with the same records. */
  lemma PublishedGrows(s: State, e: Event)
    requires Inv(s) && Enabled(s, e)
    ensures s.published.Keys <= Next(s, e).published.Keys
    ensures forall p | p in s.published :: Next(s, e).published[p] == s.published[p]
  {
    hide Conserved, FilesOk, DroppedOk, Listing, LockOk, PathsDiffer, LoadedOk, PrunesOk, StoredOk, ScansOk,
         CoversOk, ResultsOk;
    hide EntryFor, InFlight, HoldsLock;
    if e.FlushStore? {
      assert HasPath(s, e.t);
    }
  }

  lemma ListingGrows(published: map<Path, multiset<Rec>>, published': map<Path, multiset<Rec>>, es: seq<FileEntry>)
    requires Listing(published, es)
    requires forall p | p in published :: p in published' && published'[p] == published[p]
    ensures Listing(published', es)
  {}

  lemma ListingDrops(published: map<Path, multiset<Rec>>, a: seq<FileEntry>, b: seq<FileEntry>)
    requires b != [] && Listing(published, a + b)
    ensures Listing(published, a + b[1..])
  {
    var es, fs := a + b, a + b[1..];
    forall i | 0 <= i < |fs| ensures fs[i] == es[if i < |a| then i else i + 1] {}
  }

  lemma StepFiles(s: State, e: Event)
    requires Inv(s) && Enabled(s, e)
    ensures FilesOk(Next(s, e))
  {
    hide Conserved, DroppedOk, LockOk, LoadedOk, PrunesOk, StoredOk, ScansOk, CoversOk, ResultsOk, Listing, Sum,
         InFlight;
    match e
    case FlushStore(t) => assert HasPath(s, t);
    case _ =>
  }

  /** The entry a prune looks at lists a published file. */
  lemma PruneLooksAt(s: State, t: Tid)
    requires PrunesOk(s) && t in s.tasks && s.tasks[t].Pruning? && s.tasks[t].todo != []
    ensures var e := s.tasks[t].todo[0]; e.path in s.published && Accurate(e, s.published[e.path])
  {
    var task := s.tasks[t];
    assert (task.kept + task.todo)[|task.kept|] == task.todo[0];
  }

  lemma StepDropped(s: State, e: Event)
    requires Inv(s) && Enabled(s, e)
    ensures DroppedOk(Next(s, e))
  {
    hide Conserved, FilesOk, LockOk, LoadedOk, PrunesOk, StoredOk, ScansOk, CoversOk, ResultsOk, Listing, Sum, InFlight;
    match e
    case FlushStore(t) => assert HasPath(s, t);
    case PruneEntry(t, _) => PruneLooksAt(s, t);
    case _ =>
  }

  /** A new file may be listed. */
  lemma ListsOne(published: map<Path, multiset<Rec>>, es: seq<FileEntry>, path: Path, rs: seq<Rec>)
    requires Listing(published, es) && path !in published && rs != []
    requires Accurate(EntryFor(path, rs), multiset(rs))
    ensures Listing(published[path := multiset(rs)], es + [EntryFor(path, rs)])
  {
    hide Accurate;
  }

  lemma StepManifest(s: State, e: Event)
    requires Inv(s) && Enabled(s, e)
    ensures Listing(Next(s, e).published, Next(s, e).manifest)
  {
    hide Conserved, FilesOk, DroppedOk, LockOk, PathsDiffer, StoredOk, ScansOk, CoversOk, ResultsOk, Accurate, Sum;
    hide EntryFor, InFlight, HoldsLock;
    PublishedGrows(s, e);
    ListingGrows(s.published, Next(s, e).published, s.manifest);
    match e
    case FlushStore(t) =>
      assert HasPath(s, t);
      EntryAccurate(PathOf(s, t), s.tasks[t].records);
      assert s.tasks[t].stage.m == Read(s, !s.tasks[t].stage.blind);
      ListsOne(s.published, s.tasks[t].stage.m, PathOf(s, t), s.tasks[t].records);
    case PruneStore(t) => assert s.tasks[t].kept + s.tasks[t].todo == s.tasks[t].kept;
    case _ =>
  }

  /** Taking and giving back the lock. */
  ghost predicate LockMoved(s: State, s': State, t: Tid) {
    if t in s'.tasks && HoldsLock(s'.tasks[t]) then s'.lock == Some(t) && (s.lock == None || s.lock == Some(t))
    else s'.lock == if s.lock == Some(t) then None else s.lock
  }

  lemma LockMoves(s: State, e: Event)
    requires LockOk(s) && Enabled(s, e) && Actor(e).Some?
    ensures LockMoved(s, Next(s, e), e.t)
  {
    hide Next, Enabled, LockMoved, LockOk;
    if IsFlush(e) {
      FlushLockMoves(s, e);
    } else if IsPrune(e) {
      PruneLockMoves(s, e);
    } else {
      RestLockMoves(s, e);
    }
  }

  lemma FlushLockMoves(s: State, e: Event)
    requires LockOk(s) && Enabled(s, e) && IsFlush(e)
    ensures LockMoved(s, Next(s, e), e.t)
  {
    hide EntryFor, InFlight;
  }

  lemma PruneLockMoves(s: State, e: Event)
    requires LockOk(s) && Enabled(s, e) && IsPrune(e)
    ensures LockMoved(s, Next(s, e), e.t)
  {
    hide EntryFor, InFlight;
  }

  lemma RestLockMoves(s: State, e: Event)
    requires LockOk(s) && Enabled(s, e) && !IsFlush(e) && !IsPrune(e) && Actor(e).Some?
    ensures LockMoved(s, Next(s, e), e.t)
  {
    hide EntryFor, InFlight;
  }

  lemma StepLock(s: State, e: Event)
    requires Inv(s) && Enabled(s, e)
    ensures LockOk(Next(s, e))
  {
    hide Conserved, FilesOk, DroppedOk, Listing, PrunesOk, StoredOk, ScansOk, CoversOk, ResultsOk, FlushesOk;
    if Actor(e).Some? {
      ActorKeepsLock(s, e);
    }
  }

  lemma ActorKeepsLock(s: State, e: Event)
    requires LockOk(s) && Enabled(s, e) && Actor(e).Some?
    ensures LockOk(Next(s, e))
  {
    hide Next, Enabled, HoldsLock;
    LockMoves(s, e);
    var s' := Next(s, e);
    forall u | u != e.t
      ensures (u in s'.tasks <==> u in s.tasks) && (u in s.tasks ==> s'.tasks[u] == s.tasks[u])
    {
      OthersStay(s, e, u);
    }
  }

  /** A flush that had a file and still has one has the same file. */
  lemma SameFile(s: State, e: Event, t: Tid)
    requires Enabled(s, e) && HasPath(Next(s, e), t) && !(e.FlushWrite? && e.t == t)
    ensures HasPath(s, t) && PathOf(s, t) == PathOf(Next(s, e), t)
    ensures s.tasks[t].records == Next(s, e).tasks[t].records
    ensures e.FlushStore? ==> e.t != t
  {
    hide Next, Enabled;
    if Actor(e) == Some(t) {
      SameFileOwn(s, e);
    } else {
      OthersStay(s, e, t);
    }
  }

  lemma SameFileOwn(s: State, e: Event)
    requires Enabled(s, e) && Actor(e).Some? && HasPath(Next(s, e), e.t) && !e.FlushWrite?
    ensures HasPath(s, e.t) && PathOf(s, e.t) == PathOf(Next(s, e), e.t)
    ensures s.tasks[e.t].records == Next(s, e).tasks[e.t].records && !e.FlushStore?
  {
    hide EntryFor, InFlight, HoldsLock;
  }

  /** No step touches the file of a flush that goes on. */
  lemma FileUntouched(s: State, e: Event, p: Path)
    requires Enabled(s, e) && p in s.disk && p !in s.published && s.disk.Keys <= s.used
    requires e.PruneEntry? ==> s.tasks[e.t].todo[0].path in s.published
    requires e.FlushStore? ==> HasPath(s, e.t) && PathOf(s, e.t) != p
    ensures var s' := Next(s, e); p in s'.disk && s'.disk[p] == s.disk[p] && p !in s'.published
  {
    hide EntryFor, InFlight;
  }

  lemma StepFlushFiles(s: State, e: Event)
    requires Inv(s) && Enabled(s, e)
    ensures FlushFilesOk(Next(s, e))
  {
    hide Conserved, DroppedOk, LockOk, LoadedOk, PrunesOk, StoredOk, ScansOk, CoversOk, ResultsOk, Listing, Next,
         Enabled;
    var s' := Next(s, e);
    forall t | HasPath(s', t)
      ensures PathOf(s', t) in s'.disk && s'.disk[PathOf(s', t)] == s'.tasks[t].records
      ensures PathOf(s', t) !in s'.published
    {
      if e.FlushWrite? && e.t == t {
        WrittenFile(s, t, e.path);
      } else {
        SameFile(s, e, t);
        if e.PruneEntry? {
          PrunesTodo(s, e);
          PruneLooksAt(s, e.t);
        } else if e.FlushStore? {
          StoresFile(s, e);
        }
        FileUntouched(s, e, PathOf(s, t));
      }
    }
  }

  lemma WrittenFile(s: State, t: Tid, p: Path)
    requires FilesOk(s) && Enabled(s, FlushWrite(t, p))
    ensures var s' := Next(s, FlushWrite(t, p));
            HasPath(s', t) && PathOf(s', t) == p && p in s'.disk && s'.disk[p] == s'.tasks[t].records
            && p !in s'.published
  {}

  lemma PrunesTodo(s: State, e: Event)
    requires e.PruneEntry? && Enabled(s, e)
    ensures e.t in s.tasks && s.tasks[e.t].Pruning? && s.tasks[e.t].todo != []
  {}

  lemma StoresFile(s: State, e: Event)
    requires e.FlushStore? && Enabled(s, e)
    ensures HasPath(s, e.t)
  {}

  lemma StepFlushPaths(s: State, e: Event)
    requires Inv(s) && Enabled(s, e)
    ensures PathsDiffer(Next(s, e))
  {
    hide Conserved, DroppedOk, LockOk, LoadedOk, PrunesOk, StoredOk, ScansOk, CoversOk, ResultsOk, Accurate, Sum,
         Listing,
         InFlight, EntryFor;
    var s' := Next(s, e);
    forall t, u | HasPath(s', t) && HasPath(s', u) && PathOf(s', t) == PathOf(s', u) ensures t == u {
      if !(e.FlushWrite? && e.t == t) {
        SameFile(s, e, t);
      }
      if !(e.FlushWrite? && e.t == u) {
        SameFile(s, e, u);
      }
    }
  }

  /** A flush keeps its records; one that has loaded the manifest has just done so or had before. */
  lemma SameRecordsInFlush(s: State, e: Event, t: Tid)
    requires Enabled(s, e) && IsFlushing(Next(s, e), t) && !(e.FlushTake? && e.t == t)
    ensures IsFlushing(s, t) && Next(s, e).tasks[t].records == s.tasks[t].records
    ensures var stage := Next(s, e).tasks[t].stage;
      stage.Loaded? ==> (e == FlushLoad(t, !stage.blind) && stage.m == Read(s, !stage.blind))
                        || Next(s, e).tasks[t] == s.tasks[t]
  {
    hide EntryFor, InFlight, HoldsLock;
  }

  /** Only a task that holds the lock replaces the manifest, and then it is done with it. */
  lemma ManifestMoves(s: State, e: Event)
    requires Enabled(s, e) && Next(s, e).manifest != s.manifest
    ensures (e.FlushStore? || e.PruneStore?) && e.t in s.tasks && HoldsLock(s.tasks[e.t])
    ensures Next(s, e).tasks == s.tasks[e.t := Unlocking]
  {
    hide EntryFor, InFlight;
  }

  lemma StepLoaded(s: State, e: Event)
    requires LoadedOk(s) && LockOk(s) && Enabled(s, e)
    ensures LoadedOk(Next(s, e))
  {
    hide Next;
    var s' := Next(s, e);
    if s'.manifest != s.manifest {
      ManifestMoves(s, e);
    }
    forall t | IsFlushing(s', t)
      ensures s'.tasks[t].records != []
      ensures s'.tasks[t].stage.Loaded? ==> s'.tasks[t].stage.m == Read(s', !s'.tasks[t].stage.blind)
    {
      if e.FlushTake? && e.t == t {
        TakenRecords(s, t);
      } else {
        SameRecordsInFlush(s, e, t);
      }
    }
  }

  lemma TakenRecords(s: State, t: Tid)
    requires Enabled(s, FlushTake(t))
    ensures Next(s, FlushTake(t)).tasks[t] == Flushing(s.pending, Taken) && s.pending != []
  {}

  lemma NothingListed(published: map<Path, multiset<Rec>>)
    ensures Listing(published, [])
  {}

  lemma StepPrunes(s: State, e: Event)
    requires Inv(s) && Enabled(s, e)
    ensures PrunesOk(Next(s, e))
  {
    hide Conserved, FilesOk, DroppedOk, LockOk, FlushesOk, ScansOk, CoversOk, ResultsOk, Accurate, Sum, Listing;
    PublishedGrows(s, e);
    var s' := Next(s, e);
    forall t | t in s'.tasks && s'.tasks[t].Pruning?
      ensures Listing(s'.published, s'.tasks[t].kept + s'.tasks[t].todo)
    {
      if t in s.tasks && s.tasks[t] == s'.tasks[t] {
        ListingGrows(s.published, s'.published, s.tasks[t].kept + s.tasks[t].todo);
      } else if e.PruneLoad? {
        assert [] + Read(s, e.ok) == Read(s, e.ok);
        NothingListed(s.published);
      } else {
        var task := s.tasks[t];
        assert task.kept + [task.todo[0]] + task.todo[1..] == task.kept + task.todo;
        ListingDrops(s.published, task.kept, task.todo);
      }
    }
  }

  /** Publishing one more file and naming it, or giving one up, keeps the names. */
  lemma NamesMove(s: State, s': State, es: seq<FileEntry>, es': seq<FileEntry>)
    requires NamesKept(s, es)
    requires forall p | Current(s', p) :: (Current(s, p) && (Named(es, p) ==> Named(es', p))) || Named(es', p)
    ensures NamesKept(s', es')
  {
    hide Named;
  }

  lemma NamedInPush(es: seq<FileEntry>, e: FileEntry, p: Path)
    ensures Named(es, p) || e.path == p ==> Named(es + [e], p)
  {
    assert (es + [e])[|es|] == e;
    if Named(es, p) {
      var i :| 0 <= i < |es| && es[i].path == p;
      assert (es + [e])[i].path == p;
    }
  }

  lemma NamedWithout(a: seq<FileEntry>, b: seq<FileEntry>, p: Path)
    requires b != [] && Named(a + b, p) && b[0].path != p
    ensures Named(a + b[1..], p)
  {
    var i :| 0 <= i < |a + b| && (a + b)[i].path == p;
    assert (a + b[1..])[if i < |a| then i else i - 1].path == p;
  }

  lemma OnlyHolder(s: State, t: Tid)
    requires LockOk(s) && t in s.tasks && HoldsLock(s.tasks[t])
    ensures forall u | u in s.tasks && HoldsLock(s.tasks[u]) :: u == t
  {}

  /** A flush adds its file to the list it has read: the manifest, or nothing, and then the rest is forgotten. */
  lemma StoreKeepsStored(s: State, t: Tid)
    requires LoadedOk(s) && LockOk(s) && FlushFilesOk(s) && StoredOk(s) && Enabled(s, FlushStore(t))
    ensures StoredOk(Next(s, FlushStore(t)))
  {
    hide EntryFor, Named, HoldsLock;
    assert HasPath(s, t);
    assert IsFlushing(s, t) && s.tasks[t].stage.Loaded?;
    var s', e := Next(s, FlushStore(t)), EntryFor(PathOf(s, t), s.tasks[t].records);
    forall p | Current(s', p) ensures Named(s'.manifest, p) && p in s'.disk {
      NamedInPush(s.tasks[t].stage.m, e, p);
    }
    StorersHold(s, t);
    OnlyHolder(s, t);
    PrunersHold(s);
    assert forall u | u in s.tasks && s.tasks[u].Pruning? :: u == t;
  }

  lemma StorersHold(s: State, t: Tid)
    requires Enabled(s, FlushStore(t)) || (t in s.tasks && s.tasks[t].Pruning?)
    ensures t in s.tasks && HoldsLock(s.tasks[t])
  {}

  lemma PrunersHold(s: State)
    ensures forall u | u in s.tasks && s.tasks[u].Pruning? :: HoldsLock(s.tasks[u])
  {}

  lemma PruneEntryKeepsStored(s: State, t: Tid, deleted: bool)
    requires StoredOk(s) && LockOk(s) && Enabled(s, PruneEntry(t, deleted))
    ensures StoredOk(Next(s, PruneEntry(t, deleted)))
  {
    hide Named, HoldsLock;
    var s' := Next(s, PruneEntry(t, deleted));
    var Pruning(cutoff, kept, todo, blind) := s.tasks[t];
    assert kept + [todo[0]] + todo[1..] == kept + todo;
    NamesMove(s, s', s.manifest, s'.manifest);
    PrunersHold(s);
    OnlyHolder(s, t);
    forall u | Prunes(s', u) ensures NamesKept(s', s'.tasks[u].kept + s'.tasks[u].todo) {
      assert u == t && Prunes(s, t);
      if todo[0].maxAt < cutoff {
        forall p | Current(s', p) ensures Named(kept + todo[1..], p) {
          assert Current(s, p);
          assert Named(kept + todo, p);
          NamedWithout(kept, todo, p);
        }
      }
    }
  }

  /** A prune writes what it kept, or nothing, and then the rest is forgotten. */
  lemma PruneStoreKeepsStored(s: State, t: Tid)
    requires StoredOk(s) && LockOk(s) && Enabled(s, PruneStore(t))
    ensures StoredOk(Next(s, PruneStore(t)))
  {
    hide Named, HoldsLock;
    var s' := Next(s, PruneStore(t));
    assert s.tasks[t].kept + [] == s.tasks[t].kept;
    PrunersHold(s);
    OnlyHolder(s, t);
    if !s.tasks[t].blind {
      assert Prunes(s, t);
      NamesMove(s, s', s.tasks[t].kept, s'.manifest);
    }
    assert forall u | u in s.tasks && s.tasks[u].Pruning? :: u == t;
  }

  lemma StepStored(s: State, e: Event)
    requires Inv(s) && Enabled(s, e)
    ensures StoredOk(Next(s, e))
  {
    hide Conserved, FilesOk, DroppedOk, PathsDiffer, PrunesOk, ScansOk, CoversOk, ResultsOk, Listing, Named,
         EntryFor, InFlight;
    match e
    case FlushStore(t) => StoreKeepsStored(s, t);
    case PruneEntry(t, deleted) => PruneEntryKeepsStored(s, t, deleted);
    case PruneStore(t) => PruneStoreKeepsStored(s, t);
    case _ => OtherKeepsStored(s, e);
  }

  lemma OtherKeepsStored(s: State, e: Event)
    requires StoredOk(s) && Enabled(s, e) && !e.FlushStore? && !e.PruneEntry? && !e.PruneStore?
    ensures StoredOk(Next(s, e))
  {
    hide Next, Enabled, StoredOk;
    if IsFlush(e) {
      FlushKeepsStored(s, e);
    } else if e.PruneLoad? {
      PruneLoadKeepsStored(s, e);
    } else {
      RestKeepsStored(s, e);
    }
  }

  lemma PruneLoadKeepsStored(s: State, e: Event)
    requires StoredOk(s) && Enabled(s, e) && e.PruneLoad?
    ensures StoredOk(Next(s, e))
  {
    hide Named, EntryFor, InFlight, HoldsLock;
    assert [] + s.manifest == s.manifest;
  }

  lemma FlushKeepsStored(s: State, e: Event)
    requires StoredOk(s) && Enabled(s, e) && IsFlush(e) && !e.FlushStore?
    ensures StoredOk(Next(s, e))
  {
    hide Named, EntryFor, InFlight, HoldsLock;
  }

  lemma RestKeepsStored(s: State, e: Event)
    requires StoredOk(s) && Enabled(s, e) && !IsFlush(e)
    requires !e.PruneEntry? && !e.PruneStore? && !e.PruneLoad?
    ensures StoredOk(Next(s, e))
  {
    hide Next, Enabled, Named;
    RestLeavesFiles(s, e);
    forall t | Prunes(Next(s, e), t) ensures Prunes(s, t) && Next(s, e).tasks[t] == s.tasks[t] {
      if Actor(e) != Some(t) {
        OthersStay(s, e, t);
      }
    }
  }

  lemma RestLeavesFiles(s: State, e: Event)
    requires Enabled(s, e) && !IsFlush(e) && !e.PruneEntry? && !e.PruneStore? && !e.PruneLoad?
    ensures var s' := Next(s, e);
      && s'.disk == s.disk && s'.published == s.published && s'.droppedAt == s.droppedAt
      && s'.forgotten == s.forgotten && s'.manifest == s.manifest
      && (Actor(e).Some? ==> !Prunes(s', e.t))
  {
    hide Next, Enabled;
    RestLeavesDisk(s, e);
    RestPrunesNot(s, e);
  }

  lemma RestLeavesDisk(s: State, e: Event)
    requires Enabled(s, e) && !IsFlush(e) && !e.PruneEntry? && !e.PruneStore? && !e.PruneLoad?
    ensures var s' := Next(s, e);
      && s'.disk == s.disk && s'.published == s.published && s'.droppedAt == s.droppedAt
      && s'.forgotten == s.forgotten && s'.manifest == s.manifest
  {
    hide EntryFor, InFlight, HoldsLock;
  }

  lemma RestPrunesNot(s: State, e: Event)
    requires Enabled(s, e) && !IsFlush(e) && !e.PruneEntry? && !e.PruneStore? && !e.PruneLoad?
    ensures Actor(e).Some? ==> !Prunes(Next(s, e), e.t)
  {
    hide EntryFor, InFlight, HoldsLock;
  }

  /** A file goes only by a prune that has found all its records older than its cutoff. */
  lemma DeletesOnlyOld(s: State, e: Event, p: Path)
    requires Inv(s) && Enabled(s, e)
    ensures p in s.disk && (p !in Next(s, e).disk || Next(s, e).disk[p] != s.disk[p]) ==>
      && e.PruneEntry? && s.tasks[e.t].Pruning? && p in s.published
      && multiset(s.disk[p]) == s.published[p] && forall r | r in s.disk[p] :: r.at < s.tasks[e.t].cutoff
  {
    hide Conserved, DroppedOk, LockOk, StoredOk, ScansOk, CoversOk, ResultsOk, Listing, EntryFor, InFlight;
    if e.PruneEntry? {
      PruneLooksAt(s, e.t);
      assert p in s.disk ==> forall r | r in s.disk[p] :: r in multiset(s.disk[p]);
    }
  }

  lemma ScanOkGrows(published: map<Path, multiset<Rec>>, published': map<Path, multiset<Rec>>, task: Task)
    requires task.Scanning? && ScanOk(published, task)
    requires forall p | p in published :: p in published' && published'[p] == published[p]
    ensures ScanOk(published', task)
  {
    ListingGrows(published, published', task.left);
    assert Restrict(published', task.visited) == Restrict(published, task.visited);
  }

  lemma ScanReads(s: State, t: Tid, readable: bool)
    requires FilesOk(s) && ScansOk(s) && Enabled(s, ScanFile(t, readable))
    ensures ScanOk(s.published, Next(s, ScanFile(t, readable)).tasks[t])
  {
    hide Accurate, Sum;
    var Scanning(visited, left, got, known, unreadable) := s.tasks[t];
    var path := left[0].path;
    assert [] + left == left;
    ListingDrops(s.published, [], left);
    assert [] + left[1..] == left[1..];
    if readable && path in s.disk {
      assert Restrict(s.published, visited + {path}) == Restrict(s.published, visited)[path := s.published[path]];
      SumAdd(Restrict(s.published, visited), path, s.published[path]);
      assert multiset(got + s.disk[path]) == multiset(got) + multiset(s.disk[path]);
    }
  }

  lemma StepScans(s: State, e: Event)
    requires Inv(s) && Enabled(s, e)
    ensures ScansOk(Next(s, e))
  {
    hide Conserved, FilesOk, DroppedOk, LockOk, FlushesOk, PrunesOk, StoredOk, ResultsOk, Sum, ScanOk, Listing;
    PublishedGrows(s, e);
    var s' := Next(s, e);
    forall t | t in s'.tasks && s'.tasks[t].Scanning? ensures ScanOk(s'.published, s'.tasks[t]) {
      if t in s.tasks && s.tasks[t] == s'.tasks[t] {
        ScanOkGrows(s.published, s'.published, s.tasks[t]);
      } else if e.ScanLoad? {
        ScanStarts(s.published, Read(s, e.ok), s'.tasks[t]);
      } else {
        ScanReads(s, t, e.readable);
      }
    }
  }

  lemma ScanStarts(published: map<Path, multiset<Rec>>, manifest: seq<FileEntry>, task: Task)
    requires Listing(published, manifest)
    requires task.Scanning? && task.visited == {} && task.left == manifest && task.got == []
    ensures ScanOk(published, task)
  {
    assert Restrict(published, {}) == map[];
    SumEmpty<Path, Rec>();
  }

  /** Nothing that excuses a scan is ever taken back, and what is newly published it does not know. */
  lemma StepCovers(s: State, e: Event)
    requires Inv(s) && Enabled(s, e)
    ensures CoversOk(Next(s, e))
  {
    hide Conserved, FilesOk, DroppedOk, LockOk, FlushesOk, PrunesOk, ResultsOk, Accurate, Sum, Listing, Named;
    hide ScansOk, InFlight, EntryFor, HoldsLock, Next;
    var s' := Next(s, e);
    PublishedGrows(s, e);
    GivenUpGrows(s, e);
    forall t | IsScanning(s', t) ensures ScanCovers(s', s'.tasks[t]) && s'.tasks[t].known <= s'.published.Keys {
      ScanMoves(s, e, t);
      if e.ScanLoad? && e.t == t {
        assert forall p | Current(s, p) :: Named(s.manifest, p);
      } else if e.ScanFile? && e.t == t {
        ScanLooks(s, t, e.readable);
      }
    }
  }

  lemma GivenUpGrows(s: State, e: Event)
    requires StoredOk(s) && Enabled(s, e)
    ensures s.droppedAt.Keys <= Next(s, e).droppedAt.Keys && s.forgotten <= Next(s, e).forgotten
  {
    hide Named, NamesKept, InFlight, EntryFor, HoldsLock;
  }

  /** What a step does to a scan. */
  lemma ScanMoves(s: State, e: Event, t: Tid)
    requires Enabled(s, e) && IsScanning(Next(s, e), t)
    ensures e.ScanLoad? && e.t == t ==>
      && Next(s, e).published == s.published && Next(s, e).droppedAt == s.droppedAt
      && Next(s, e).forgotten == s.forgotten
      && Next(s, e).tasks[t] == Scanning({}, Read(s, e.ok), [], if e.ok then s.published.Keys else {}, {})
    ensures !((e.ScanLoad? || e.ScanFile?) && e.t == t) ==> IsScanning(s, t) && s.tasks[t] == Next(s, e).tasks[t]
    ensures e.ScanFile? && e.t == t ==> IsScanning(s, t)
  {
    hide Next, Enabled;
    if Actor(e) == Some(t) {
      OwnScanMoves(s, e);
    } else {
      OthersStay(s, e, t);
    }
  }

  lemma OwnScanMoves(s: State, e: Event)
    requires Enabled(s, e) && Actor(e).Some? && IsScanning(Next(s, e), e.t)
    ensures e.ScanLoad? || e.ScanFile?
    ensures e.ScanLoad? ==>
      && Next(s, e).published == s.published && Next(s, e).droppedAt == s.droppedAt
      && Next(s, e).forgotten == s.forgotten
      && Next(s, e).tasks[e.t] == Scanning({}, Read(s, e.ok), [], if e.ok then s.published.Keys else {}, {})
    ensures e.ScanFile? ==> IsScanning(s, e.t)
  {
    hide InFlight, EntryFor, HoldsLock;
  }

  /** A file a scan passes by is read, unreadable, or gone, and then a prune has given it up. */
  lemma ScanLooks(s: State, t: Tid, readable: bool)
    requires StoredOk(s) && CoversOk(s) && ScansOk(s) && Enabled(s, ScanFile(t, readable))
    ensures var s' := Next(s, ScanFile(t, readable));
            IsScanning(s', t) && ScanCovers(s', s'.tasks[t]) && s'.tasks[t].known <= s'.published.Keys
  {
    hide Accurate, Sum, Named, NamesKept;
    var e := ScanFile(t, readable);
    var s' := Next(s, e);
    var task := s.tasks[t];
    assert ScanOk(s.published, task) && task.left[0].path in s.published;
    assert [] + task.left == task.left && [] + task.left[1..] == task.left[1..];
    forall p | p in s'.published && !Excused(s', s'.tasks[t], p)
      ensures p in s'.tasks[t].visited || Named(s'.tasks[t].left, p)
    {
      if p !in task.visited {
        assert Named(task.left, p);
        if task.left[0].path != p {
          NamedWithout([], task.left, p);
        }
      }
    }
  }

  /**
   * What a scan returns, exactly, at the moment it takes the pending records. Of all records so far
   * it lacks those in flight, those lost, and those of the files it has not read; and such a file
   * was unreadable, or had been dropped or forgotten, or was listed after the scan read the manifest.
   */
  lemma ScanAccounts(es: seq<Event>, t: Tid)
    requires Enabled(After(INIT, es), ScanPending(t))
    ensures var s := After(INIT, es);
            var task := s.tasks[t];
      && s.recorded == multiset(task.got + s.pending) + Sum(InFlight(s.tasks))
                       + Sum(s.published - task.visited) + s.lost
      && (forall p | p in s.published && p !in task.visited :: Excused(s, task, p))
  {
    hide Inv, After, Enabled, Excused, Sum, InFlight;
    InitInv();
    RunsKeepInv(INIT, es);
    FinishingScan(After(INIT, es), t);
  }

  lemma FinishingScan(s: State, t: Tid)
    requires Inv(s) && Enabled(s, ScanPending(t))
    ensures var task := s.tasks[t];
      && s.recorded == multiset(task.got + s.pending) + Sum(InFlight(s.tasks))
                       + Sum(s.published - task.visited) + s.lost
      && (forall p | p in s.published && p !in task.visited :: Excused(s, task, p))
  {
    hide FilesOk, DroppedOk, LockOk, FlushesOk, PrunesOk, StoredOk, ResultsOk, Sum, InFlight, Listing, Excused;
    var task := s.tasks[t];
    assert IsScanning(s, t) && ScanOk(s.published, task) && ScanCovers(s, task);
    SumSplit(s.published, task.visited);
    assert multiset(task.got + s.pending) == multiset(task.got) + multiset(s.pending);
    assert forall p: Path :: !Named(task.left, p);
  }

  lemma ResultsMove(s: State, e: Event)
    requires Enabled(s, e)
    ensures s.recorded <= Next(s, e).recorded
    ensures Next(s, e).results ==
            if e.ScanPending? then s.results + [s.tasks[e.t].got + s.pending] else s.results
  {
    hide EntryFor, InFlight, HoldsLock;
  }

  /** The files a scan has read, and what is pending now, are disjoint parts of what was recorded. */
  lemma ScanCounts(s: State, t: Tid)
    requires Conserved(s) && ScansOk(s) && t in s.tasks && s.tasks[t].Scanning?
    ensures multiset(s.tasks[t].got + s.pending) <= s.recorded
  {
    hide Sum, InFlight, Listing;
    var task := s.tasks[t];
    assert ScanOk(s.published, task);
    SumSplit(s.published, task.visited);
    assert multiset(task.got + s.pending) == multiset(task.got) + multiset(s.pending);
  }

  lemma StepResults(s: State, e: Event)
    requires Inv(s) && Enabled(s, e)
    ensures ResultsOk(Next(s, e))
  {
    hide Conserved, FilesOk, DroppedOk, LockOk, FlushesOk, PrunesOk, StoredOk, ScansOk, CoversOk, Listing, Next;
    ResultsMove(s, e);
    if e.ScanPending? {
      ScanCounts(s, e.t);
    }
  }

  lemma StepInv(s: State, e: Event)
    requires Inv(s) && Enabled(s, e)
    ensures Inv(Next(s, e))
  {
    hide Conserved, FilesOk, DroppedOk, LockOk, FlushFilesOk, PathsDiffer, LoadedOk, PrunesOk, StoredOk, ScansOk,
         CoversOk,
         ResultsOk, Listing, Next;
    StepConserved(s, e);
    StepFiles(s, e);
    StepDropped(s, e);
    StepManifest(s, e);
    StepLock(s, e);
    StepFlushFiles(s, e);
    StepFlushPaths(s, e);
    StepLoaded(s, e);
    StepPrunes(s, e);
    StepStored(s, e);
    StepScans(s, e);
    StepCovers(s, e);
    StepResults(s, e);
  }

  // --------------------------------------------------------------------- whole runs

  /** The state after a run; events that are not enabled do nothing. */
  function After(s: State, es: seq<Event>): State
    decreases |es|
  {
    if es == [] then s else
      var before := After(s, es[..|es| - 1]);
      if Enabled(before, es[|es| - 1]) then Next(before, es[|es| - 1]) else before
  }

  lemma {:induction false} RunsKeepInv(s: State, es: seq<Event>)
    requires Inv(s)
    ensures Inv(After(s, es))
    decreases |es|
  {
    if es != [] {
      var before := After(s, es[..|es| - 1]);
      RunsKeepInv(s, es[..|es| - 1]);
      if Enabled(before, es[|es| - 1]) {
        StepInv(before, es[|es| - 1]);
      }
    }
  }

  // --------------------------------------------------------- what the steps come to

  lemma Then(s: State, es: seq<Event>, e: Event)
    ensures After(s, es + [e]) == if Enabled(After(s, es), e) then Next(After(s, es), e) else After(s, es)
  {
    assert (es + [e])[..|es|] == es;
  }

  /** The records that a run records. */
  function RecordsIn(es: seq<Event>): multiset<Rec> {
    if es == [] then multiset{} else
      var e := es[|es| - 1];
      RecordsIn(es[..|es| - 1]) + (if e.Record? then multiset{e.r} else multiset{})
  }

  /** Every recording is in the ledger, and without a failing flush nothing is lost. */
  lemma {:induction false} RecordedExactly(es: seq<Event>)
    ensures After(INIT, es).recorded == RecordsIn(es)
    ensures (forall e | e in es :: !e.FlushFail?) ==> After(INIT, es).lost == multiset{}
    decreases |es|
  {
    hide Enabled, Next;
    if es != [] {
      var before, e := After(INIT, es[..|es| - 1]), es[|es| - 1];
      RecordedExactly(es[..|es| - 1]);
      assert e in es && forall x | x in es[..|es| - 1] :: x in es;
      RecordsAndLosses(before, e);
    }
  }

  lemma RecordsAndLosses(s: State, e: Event)
    ensures e.Record? ==> Enabled(s, e)
    ensures Enabled(s, e) ==>
      Next(s, e).recorded == s.recorded + (if e.Record? then multiset{e.r} else multiset{})
    ensures Enabled(s, e) && !e.FlushFail? ==> Next(s, e).lost == s.lost
  {
    hide HoldsLock, EntryFor;
  }

  lemma FlushWrites(s: State, t: Tid, path: Path)
    requires t !in s.tasks && s.pending != [] && s.lock == None && path !in s.used
    ensures After(s, [FlushTake(t)] + [FlushWrite(t, path)] + [FlushLock(t)]) ==
      s.(pending := [], disk := s.disk[path := s.pending], used := s.used + {path}, lock := Some(t),
         tasks := s.tasks[t := Flushing(s.pending, Locked(path))])
  {
    hide After, EntryFor;
    NoEvents(s);
    Then(s, [], FlushTake(t));
    assert [] + [FlushTake(t)] == [FlushTake(t)];
    Then(s, [FlushTake(t)], FlushWrite(t, path));
    Then(s, [FlushTake(t)] + [FlushWrite(t, path)], FlushLock(t));
  }

  lemma FlushLists(s: State, es: seq<Event>, t: Tid)
    requires var a := After(s, es);
             IsFlushing(a, t) && a.tasks[t].stage.Locked? && a.tasks[t].records != []
    ensures var a := After(s, es);
      var Flushing(records, Locked(path)) := a.tasks[t];
      After(s, es + [FlushLoad(t, true)] + [FlushStore(t)] + [Unlock(t)]) ==
      a.(manifest := a.manifest + [EntryFor(path, records)], published := a.published[path := multiset(records)],
         lock := None, tasks := a.tasks - {t})
  {
    hide After, EntryFor;
    Then(s, es, FlushLoad(t, true));
    Then(s, es + [FlushLoad(t, true)], FlushStore(t));
    Then(s, es + [FlushLoad(t, true)] + [FlushStore(t)], Unlock(t));
    assert After(s, es).tasks[t := Unlocking] - {t} == After(s, es).tasks - {t};
  }

  /** A flush that meets no failure moves what is pending into one file, listed at the end. */
  lemma FlushLands(s: State, t: Tid, path: Path)
    requires t !in s.tasks && s.pending != [] && s.lock == None && path !in s.used
    ensures var written := [FlushTake(t)] + [FlushWrite(t, path)] + [FlushLock(t)];
      After(s, written + [FlushLoad(t, true)] + [FlushStore(t)] + [Unlock(t)]) ==
      s.(pending := [], disk := s.disk[path := s.pending], used := s.used + {path},
         manifest := s.manifest + [EntryFor(path, s.pending)],
         published := s.published[path := multiset(s.pending)])
  {
    hide After, EntryFor, Next, Enabled;
    FlushWrites(s, t, path);
    FlushLists(s, [FlushTake(t)] + [FlushWrite(t, path)] + [FlushLock(t)], t);
    assert s.tasks[t := Flushing(s.pending, Locked(path))] - {t} == s.tasks;
  }

  /** A flush that fails loses what it took, and nothing else changes but the lock it may hold. */
  lemma FlushLoses(s: State, es: seq<Event>, t: Tid)
    requires IsFlushing(After(s, es), t)
    ensures var a, b := After(s, es), After(s, es + [FlushFail(t)]);
      && b.lost == a.lost + multiset(a.tasks[t].records) && b.tasks == a.tasks - {t}
      && b == a.(lost := b.lost, tasks := b.tasks, lock := b.lock)
  {
    hide After;
    Then(s, es, FlushFail(t));
  }

  function Deletes(t: Tid, n: nat): (es: seq<Event>)
    ensures |es| == n && forall i :: 0 <= i < n ==> es[i] == PruneEntry(t, true)
  {
    seq(n, _ => PruneEntry(t, true))
  }

  /** Some entry of the file is past the cutoff. */
  ghost predicate IsOld(es: seq<FileEntry>, cutoff: int, p: Path) {
    exists e :: e in es && e.maxAt < cutoff && e.path == p
  }

  /** From `s` to `s'` the prune `t` has sorted `todo` into what it keeps and what it deletes. */
  ghost predicate Sorted(s: State, s': State, t: Tid, cutoff: int, kept: seq<FileEntry>, todo: seq<FileEntry>) {
    && t in s'.tasks && s'.tasks[t].Pruning? && s'.tasks[t].todo == []
    && s'.tasks == s.tasks[t := s'.tasks[t]]
    && s' == s.(tasks := s'.tasks, disk := s'.disk, droppedAt := s'.droppedAt)
    && (forall e :: e in s'.tasks[t].kept <==> e in kept || (e in todo && e.maxAt >= cutoff))
    && (forall p :: p in s'.disk <==> p in s.disk && !IsOld(todo, cutoff, p))
    && (forall p | p in s'.disk :: s'.disk[p] == s.disk[p])
    && !s'.tasks[t].blind
  }

  lemma {:induction false} PruneSorts(s: State, es: seq<Event>, t: Tid)
    requires t in After(s, es).tasks && After(s, es).tasks[t].Pruning? && !After(s, es).tasks[t].blind
    ensures var a := After(s, es);
      Sorted(a, After(s, es + Deletes(t, |a.tasks[t].todo|)), t, a.tasks[t].cutoff, a.tasks[t].kept, a.tasks[t].todo)
    decreases |After(s, es).tasks[t].todo|
  {
    hide After;
    var a := After(s, es);
    var Pruning(cutoff, kept, todo, blind) := a.tasks[t];
    var n := |todo|;
    if n == 0 {
      assert es + Deletes(t, 0) == es && a.tasks[t := a.tasks[t]] == a.tasks;
    } else {
      var e := PruneEntry(t, true);
      Then(s, es, e);
      assert es + Deletes(t, n) == es + [e] + Deletes(t, n - 1);
      PruneSorts(s, es + [e], t);
      SortedOneMore(a, Next(a, e), After(s, es + Deletes(t, n)), t, cutoff, kept, todo);
    }
  }

  lemma SortedOneMore(a: State, b: State, c: State, t: Tid, cutoff: int, kept: seq<FileEntry>, todo: seq<FileEntry>)
    requires todo != [] && Enabled(a, PruneEntry(t, true)) && b == Next(a, PruneEntry(t, true))
    requires a.tasks[t] == Pruning(cutoff, kept, todo, false)
    requires Sorted(b, c, t, cutoff, b.tasks[t].kept, todo[1..])
    ensures Sorted(a, c, t, cutoff, kept, todo)
  {
    hide IsOld;
    FirstOld(todo, cutoff);
    assert todo == [todo[0]] + todo[1..];
    assert forall e :: e in todo <==> e == todo[0] || e in todo[1..];
  }

  lemma FirstOld(todo: seq<FileEntry>, cutoff: int)
    requires todo != []
    ensures forall p :: IsOld(todo, cutoff, p) <==>
              IsOld(todo[1..], cutoff, p) || (todo[0].maxAt < cutoff && todo[0].path == p)
  {
    assert todo == [todo[0]] + todo[1..];
    assert forall e :: e in todo <==> e == todo[0] || e in todo[1..];
  }

  lemma PruneLoads(s: State, t: Tid, cutoff: int)
    requires t !in s.tasks && s.lock == None
    ensures After(s, [PruneLock(t, cutoff)] + [PruneLoad(t, true)]) ==
            s.(lock := Some(t), tasks := s.tasks[t := Pruning(cutoff, [], s.manifest, false)])
  {
    hide After;
    NoEvents(s);
    Then(s, [], PruneLock(t, cutoff));
    assert [] + [PruneLock(t, cutoff)] == [PruneLock(t, cutoff)];
    Then(s, [PruneLock(t, cutoff)], PruneLoad(t, true));
  }

  lemma PruneStores(s: State, es: seq<Event>, t: Tid)
    requires var a := After(s, es); t in a.tasks && a.tasks[t].Pruning? && a.tasks[t].todo == [] && !a.tasks[t].blind
    ensures var a := After(s, es);
      After(s, es + [PruneStore(t)] + [Unlock(t)])
      == a.(manifest := a.tasks[t].kept, lock := None, tasks := a.tasks - {t})
  {
    hide After;
    Then(s, es, PruneStore(t));
    Then(s, es + [PruneStore(t)], Unlock(t));
    assert After(s, es).tasks[t := Unlocking] - {t} == After(s, es).tasks - {t};
  }

  /** A prune that meets no failure keeps exactly the entries that are recent, and the files of no others. */
  lemma PruneLands(s: State, t: Tid, cutoff: int)
    requires t !in s.tasks && s.lock == None
    ensures var es := [PruneLock(t, cutoff)] + [PruneLoad(t, true)] + Deletes(t, |s.manifest|);
      var s' := After(s, es + [PruneStore(t)] + [Unlock(t)]);
      && (forall e :: e in s'.manifest <==> e in s.manifest && e.maxAt >= cutoff)
      && (forall p :: p in s'.disk <==> p in s.disk && !IsOld(s.manifest, cutoff, p))
      && (forall p | p in s'.disk :: s'.disk[p] == s.disk[p])
      && s'.pending == s.pending && s'.lock == None && s'.tasks == s.tasks && s'.forgotten == s.forgotten
  {
    hide After, Next, Enabled, IsOld;
    PruneLoads(s, t, cutoff);
    var loaded := [PruneLock(t, cutoff)] + [PruneLoad(t, true)];
    PruneSorts(s, loaded, t);
    var es := loaded + Deletes(t, |s.manifest|);
    PruneStores(s, es, t);
    assert After(s, es).tasks - {t} == s.tasks;
  }

  /** The files that no prune has given up and no update has overlooked. */
  function Kept(s: State): map<Path, multiset<Rec>> {
    s.published - s.droppedAt.Keys - s.forgotten
  }

  function Forgotten(s: State): map<Path, multiset<Rec>> {
    Restrict(s.published - s.droppedAt.Keys, s.forgotten)
  }

  function Dropped(s: State): map<Path, multiset<Rec>> {
    Restrict(s.published, s.droppedAt.Keys)
  }

  /** The file is listed and on disk, with these records. */
  ghost predicate Stored(s: State, p: Path, rs: multiset<Rec>) {
    && p in s.disk && multiset(s.disk[p]) == rs
    && exists e :: e in s.manifest && e.path == p && Accurate(e, rs)
  }

  /**
   * Over every interleaving: each recorded record is in exactly one place (pending, in flight, a
   * kept file, a forgotten file, a dropped file, or a failed flush); kept files are listed and on
   * disk with just those records, forgotten ones are on disk; a dropped file, so any file that is
   * gone from the disk, held only records older than the cutoff of its prune; and no scan returned
   * a record more often than it was recorded.
   */
  lemma EveryRun(es: seq<Event>)
    ensures var s := After(INIT, es);
      && s.recorded == multiset(s.pending) + Sum(InFlight(s.tasks)) + Sum(Kept(s)) + Sum(Forgotten(s))
                       + Sum(Dropped(s)) + s.lost
      && (forall p | p in Kept(s) :: Stored(s, p, Kept(s)[p]))
      && (forall p | p in Forgotten(s) :: p in s.disk && multiset(s.disk[p]) == Forgotten(s)[p])
      && (forall p | p in s.published && p !in s.disk :: p in Dropped(s))
      && (forall p | p in Dropped(s) :: p in s.droppedAt && forall r | r in Dropped(s)[p] :: r.at < s.droppedAt[p])
      && (forall r | r in s.results :: multiset(r) <= s.recorded)
  {
    hide After, Sum;
    InitInv();
    RunsKeepInv(INIT, es);
    var s := After(INIT, es);
    SumSplit(s.published, s.droppedAt.Keys);
    SumSplit(s.published - s.droppedAt.Keys, s.forgotten);
    KeptAreStored(s);
  }

  /** An update that could not read the manifest. */
  predicate IsBlind(e: Event) {
    (e.FlushLoad? || e.PruneLoad?) && !e.ok
  }

  ghost predicate NobodyBlind(s: State) {
    && s.forgotten == {}
    && forall t | t in s.tasks :: !Blind(s.tasks[t])
  }

  /** No file is forgotten unless an update could not read the manifest. */
  lemma {:induction false} ForgottenOnlyBlind(es: seq<Event>)
    requires forall e | e in es :: !IsBlind(e)
    ensures NobodyBlind(After(INIT, es))
    decreases |es|
  {
    hide Enabled;
    if es != [] {
      var before, e := After(INIT, es[..|es| - 1]), es[|es| - 1];
      assert forall x | x in es[..|es| - 1] :: x in es;
      ForgottenOnlyBlind(es[..|es| - 1]);
      assert e in es;
      if Enabled(before, e) {
        StaysSeeing(before, e);
      }
    }
  }

  /** The task would write a manifest it could not read. */
  predicate Blind(task: Task) {
    (task.Pruning? && task.blind) || (task.Flushing? && task.stage.Loaded? && task.stage.blind)
  }

  lemma StaysSeeing(s: State, e: Event)
    requires NobodyBlind(s) && Enabled(s, e) && !IsBlind(e)
    ensures NobodyBlind(Next(s, e))
  {
    hide Next, Enabled, Blind;
    var s' := Next(s, e);
    ActorSees(s, e);
    forall t | t in s'.tasks ensures !Blind(s'.tasks[t]) {
      if Actor(e) != Some(t) {
        OthersStay(s, e, t);
      }
    }
  }

  lemma ActorSees(s: State, e: Event)
    requires NobodyBlind(s) && Enabled(s, e) && !IsBlind(e)
    ensures Next(s, e).forgotten == {}
    ensures Actor(e).Some? && e.t in Next(s, e).tasks ==> !Blind(Next(s, e).tasks[e.t])
  {
    hide Next, Enabled, Blind;
    if IsFlush(e) {
      FlusherSees(s, e);
    } else {
      RestSees(s, e);
    }
  }

  lemma FlusherSees(s: State, e: Event)
    requires NobodyBlind(s) && Enabled(s, e) && !IsBlind(e) && IsFlush(e)
    ensures Next(s, e).forgotten == {}
    ensures e.t in Next(s, e).tasks ==> !Blind(Next(s, e).tasks[e.t])
  {
    hide InFlight, EntryFor, HoldsLock;
  }

  lemma RestSees(s: State, e: Event)
    requires NobodyBlind(s) && Enabled(s, e) && !IsBlind(e) && !IsFlush(e)
    ensures Next(s, e).forgotten == {}
    ensures Actor(e).Some? && e.t in Next(s, e).tasks ==> !Blind(Next(s, e).tasks[e.t])
  {
    hide Next, Enabled, Blind;
    RestForgetsNone(s, e);
    RestStaysSeeing(s, e);
  }

  lemma RestForgetsNone(s: State, e: Event)
    requires NobodyBlind(s) && Enabled(s, e) && !IsBlind(e) && !IsFlush(e)
    ensures Next(s, e).forgotten == {}
  {
    hide InFlight, EntryFor, HoldsLock;
  }

  lemma RestStaysSeeing(s: State, e: Event)
    requires NobodyBlind(s) && Enabled(s, e) && !IsBlind(e) && !IsFlush(e)
    ensures Actor(e).Some? && e.t in Next(s, e).tasks ==> !Blind(Next(s, e).tasks[e.t])
  {
    hide InFlight, EntryFor, HoldsLock;
  }

  lemma KeptAreStored(s: State)
    requires Inv(s)
    ensures forall p | Current(s, p) :: Stored(s, p, s.published[p])
    ensures forall p | p in s.published && p !in s.droppedAt :: p in s.disk && multiset(s.disk[p]) == s.published[p]
  {
    hide Conserved, DroppedOk, LockOk, FlushesOk, PrunesOk, ScansOk, CoversOk, ResultsOk, Accurate;
    forall p | Current(s, p) ensures Stored(s, p, s.published[p]) {
      assert Named(s.manifest, p);
      var i :| 0 <= i < |s.manifest| && s.manifest[i].path == p;
      assert s.manifest[i] in s.manifest;
    }
  }

  /** What was recorded stays recorded, so the account above covers every record of the run. */
  lemma {:induction false} RecordedGrows(s: State, es: seq<Event>, more: seq<Event>)
    ensures After(s, es).recorded <= After(s, es + more).recorded
    decreases |more|
  {
    if more == [] {
      assert es + more == es;
    } else {
      assert (es + more)[..|es + more| - 1] == es + more[..|more| - 1];
      RecordedGrows(s, es, more[..|more| - 1]);
    }
  }

  /**
   * Why the manifest is read before the pending buffer: read the other way round, a flush in
   * between makes the scan see its records twice.
   */
  lemma PendingFirstWouldRepeat(r: Rec)
    ensures exists es, more ::
      var s0, s1 := After(INIT, es), After(INIT, es + more);
      && s1.manifest != [] && s1.manifest[0].path in s1.disk
      && !(multiset(s0.pending + s1.disk[s1.manifest[0].path]) <= s1.recorded)
  {
    hide After, Next, Enabled;
    var taken, written := FlushHalfway(r);
    var s1 := FlushRest(r, written);
    var es := [Record(r)];
    var more := [FlushTake(0), FlushWrite(0, "f"), FlushLock(0), FlushLoad(0, true), FlushStore(0)];
    var s0 := After(INIT, es);
    assert es + more == taken + [FlushLock(0), FlushLoad(0, true), FlushStore(0)];
    assert After(INIT, es + more) == s1;
    assert multiset(s0.pending + s1.disk["f"])[r] == 2;
  }

  /** One record taken and written to a file. */
  lemma FlushHalfway(r: Rec) returns (es: seq<Event>, s: State)
    ensures After(INIT, [Record(r)]).pending == [r]
    ensures es == [Record(r), FlushTake(0), FlushWrite(0, "f")] && s == After(INIT, es)
    ensures s == INIT.(disk := map["f" := [r]], used := {"f"}, recorded := multiset{r},
                       tasks := map[0 := Flushing([r], Written("f"))])
  {
    hide After;
    OneMoreEvent(INIT, [], Record(r));
    OneMoreEvent(INIT, [Record(r)], FlushTake(0));
    OneMoreEvent(INIT, [Record(r), FlushTake(0)], FlushWrite(0, "f"));
    NoEvents(INIT);
    assert [] + [Record(r)] == [Record(r)];
    assert [Record(r)] + [FlushTake(0)] == [Record(r), FlushTake(0)];
    es := [Record(r), FlushTake(0)] + [FlushWrite(0, "f")];
    s := After(INIT, es);
  }

  lemma NoEvents(s: State)
    ensures After(s, []) == s
  {}

  /** The rest of the flush lists the file. */
  lemma FlushRest(r: Rec, s: State) returns (s': State)
    requires s == INIT.(disk := map["f" := [r]], used := {"f"}, recorded := multiset{r},
                        tasks := map[0 := Flushing([r], Written("f"))])
    ensures s' == After(INIT, [Record(r), FlushTake(0), FlushWrite(0, "f")] +
                              [FlushLock(0), FlushLoad(0, true), FlushStore(0)])
    ensures s'.manifest == [EntryFor("f", [r])] && s'.disk == map["f" := [r]] && s'.recorded == multiset{r}
  {
    hide After;
    var es, w := FlushHalfway(r);
    OneMoreEvent(INIT, es, FlushLock(0));
    OneMoreEvent(INIT, es + [FlushLock(0)], FlushLoad(0, true));
    OneMoreEvent(INIT, es + [FlushLock(0)] + [FlushLoad(0, true)], FlushStore(0));
    assert es + [FlushLock(0)] + [FlushLoad(0, true)] + [FlushStore(0)]
           == es + [FlushLock(0), FlushLoad(0, true), FlushStore(0)];
    s' := After(INIT, es + [FlushLock(0), FlushLoad(0, true), FlushStore(0)]);
  }

  lemma OneMoreEvent(s: State, es: seq<Event>, e: Event)
    ensures After(s, es + [e]) == if Enabled(After(s, es), e) then Next(After(s, es), e) else After(s, es)
  {
    assert (es + [e])[..|es + [e]| - 1] == es;
  }
}
