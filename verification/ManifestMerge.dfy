/**
 * Any number of cache managers over one root (`with_locked_manifest`, `new`,
 * crates/pawrly-engine/src/cache.rs) as a step system. Each update locks, reads the disk,
 * applies its delta, writes a temporary file, renames it into place, refreshes its memory and
 * unlocks; any step may be the last of a process that dies, any write may fail, and so may any read,
 * which then finds an empty manifest.
 *
 * The lock is exclusive and freed when its holder dies; a rename is atomic.
 */
module ManifestMerge {
  import opened Prelude
  import opened Manifest

  type Pid = nat

  datatype Phase =
    | Idle
    | Locked(d: Delta)
    | Loaded(c: Commit, m: seq<Entry>)
    | Writing(c: Commit, m: seq<Entry>, tmp: Content)
    | Renamed(m: seq<Entry>)
    | Installed

  /** A live manager: its memory copy, the number of commits that copy includes, and its update. */
  datatype Proc = Proc(memory: seq<Entry>, version: nat, phase: Phase)

  /** `log` records the commits in the order of their renames. */
  datatype State = State(
    file: Option<Content>,
    lock: Option<Pid>,
    procs: map<Pid, Proc>,
    log: seq<Commit>)

  const INIT := State(None, None, map[], [])

  datatype Event =
    | Open(p: Pid, ok: bool)
    | Lock(p: Pid, d: Delta)
    | Read(p: Pid, ok: bool)
    | CreateTmp(p: Pid)
    | FillTmp(p: Pid)
    | WriteFails(p: Pid)
    | Rename(p: Pid)
    | Install(p: Pid)
    | Unlock(p: Pid)
    | Die(p: Pid)

  predicate Enabled(s: State, e: Event) {
    match e
    case Open(p, _) => p !in s.procs
    case Lock(p, _) => p in s.procs && s.procs[p].phase.Idle? && s.lock == None
    case Read(p, _) => p in s.procs && s.procs[p].phase.Locked?
    case CreateTmp(p) => p in s.procs && s.procs[p].phase.Loaded?
    case FillTmp(p) => p in s.procs && s.procs[p].phase.Writing? && s.procs[p].phase.tmp.Torn?
    case WriteFails(p) => p in s.procs && (s.procs[p].phase.Loaded? || s.procs[p].phase.Writing?)
    case Rename(p) => p in s.procs && s.procs[p].phase.Writing? && s.procs[p].phase.tmp.Whole?
    case Install(p) => p in s.procs && s.procs[p].phase.Renamed?
    case Unlock(p) => p in s.procs && s.procs[p].phase.Installed?
    case Die(p) => p in s.procs
  }

  function To(s: State, p: Pid, phase: Phase): State
    requires p in s.procs
  {
    s.(procs := s.procs[p := s.procs[p].(phase := phase)])
  }

  function Next(s: State, e: Event): State
    requires Enabled(s, e)
  {
    match e
    case Open(p, ok) =>
      s.(procs := s.procs[p := if ok then Proc(ReadFile(s.file), |s.log|, Idle) else Proc([], 0, Idle)])
    case Lock(p, d) => To(s, p, Locked(d)).(lock := Some(p))
    case Read(p, ok) =>
      To(s, p, Loaded(Commit(s.procs[p].phase.d, !ok), if ok then ReadFile(s.file) else []))
    case CreateTmp(p) =>
      var phase := s.procs[p].phase;
      To(s, p, Writing(phase.c, Apply(phase.c.d, phase.m), Torn))
    case FillTmp(p) =>
      var phase := s.procs[p].phase;
      To(s, p, Writing(phase.c, phase.m, Whole(phase.m)))
    case WriteFails(p) => To(s, p, Idle).(lock := None)
    case Rename(p) =>
      var phase := s.procs[p].phase;
      To(s, p, Renamed(phase.m)).(file := Some(phase.tmp), log := s.log + [phase.c])
    case Install(p) =>
      s.(procs := s.procs[p := Proc(s.procs[p].phase.m, |s.log|, Installed)])
    case Unlock(p) => To(s, p, Idle).(lock := None)
    case Die(p) => s.(procs := s.procs - {p}, lock := if s.lock == Some(p) then None else s.lock)
  }

  // -------------------------------------------------------------------- the invariant

  /** The file is whole and holds the commits in lock order. */
  ghost predicate FileOk(s: State) {
    && s.file != Some(Torn)
    && ReadFile(s.file) == Replay(s.log)
  }

  ghost predicate LockOk(s: State) {
    && (forall p | p in s.procs && !s.procs[p].phase.Idle? :: s.lock == Some(p))
    && (s.lock.Some? ==> s.lock.value in s.procs)
  }

  /** What the holder of the lock carries from step to step. */
  ghost predicate PhaseOk(log: seq<Commit>, phase: Phase) {
    match phase
    case Loaded(c, m) => m == if c.blind then [] else Replay(log)
    case Writing(c, m, tmp) => m == Commits(c, Replay(log)) && (tmp.Whole? ==> tmp.entries == m)
    case Renamed(m) => m == Replay(log)
    case _ => true
  }

  /** Every memory copy is the manifest as it was after some number of deltas. */
  ghost predicate ProcOk(log: seq<Commit>, proc: Proc) {
    && proc.version <= |log| && proc.memory == Replay(log[..proc.version])
    && PhaseOk(log, proc.phase)
  }

  ghost predicate Inv(s: State) {
    FileOk(s) && LockOk(s) && forall p | p in s.procs :: ProcOk(s.log, s.procs[p])
  }

  /** A commit leaves the other processes' copies what they were. */
  lemma LogGrows(log: seq<Commit>, c: Commit, proc: Proc)
    requires ProcOk(log, proc) && proc.phase.Idle?
    ensures ProcOk(log + [c], proc)
  {
    assert (log + [c])[..proc.version] == log[..proc.version];
  }

  lemma StepInv(s: State, e: Event)
    requires Inv(s) && Enabled(s, e)
    ensures Inv(Next(s, e))
  {
    hide Apply;
    var s' := Next(s, e);
    assert s.log[..|s.log|] == s.log && s'.log[..|s'.log|] == s'.log;
    if e.Rename? {
      var c := s.procs[e.p].phase.c;
      assert (s.log + [c])[..|s.log|] == s.log;
      assert (s.log + [c])[..s.procs[e.p].version] == s.log[..s.procs[e.p].version];
      forall p | p in s'.procs && p != e.p ensures ProcOk(s'.log, s'.procs[p]) {
        LogGrows(s.log, c, s.procs[p]);
      }
    }
  }

  // ----------------------------------------------------------------------- whole runs

  /** The state after a run; an event that is not enabled does nothing. */
  function After(s: State, es: seq<Event>): State
    decreases |es|
  {
    if es == [] then s else
      var before := After(s, es[..|es| - 1]);
      if Enabled(before, es[|es| - 1]) then Next(before, es[|es| - 1]) else before
  }

  lemma {:induction false} RunsKeepInv(es: seq<Event>)
    ensures Inv(After(INIT, es))
    decreases |es|
  {
    hide Next, Enabled, Replay;
    if es == [] {
      EmptyReplay();
    } else {
      RunsKeepInv(es[..|es| - 1]);
      var before := After(INIT, es[..|es| - 1]);
      if Enabled(before, es[|es| - 1]) {
        StepInv(before, es[|es| - 1]);
      }
    }
  }

  lemma EmptyReplay()
    ensures Replay([]) == []
  {}

  /**
   * Whatever the managers do, whatever fails and whenever they die: the manifest file is never torn
   * and equals the committed deltas applied in lock order, each to what its update had read, with at
   * most one entry per key; every memory copy equals the manifest as it stood after some of them.
   */
  lemma EveryRun(es: seq<Event>)
    ensures var s := After(INIT, es);
      && s.file != Some(Torn)
      && ReadFile(s.file) == Replay(s.log) && UniqueKeys(ReadFile(s.file))
      && forall p | p in s.procs ::
           s.procs[p].version <= |s.log| && s.procs[p].memory == Replay(s.log[..s.procs[p].version])
  {
    RunsKeepInv(es);
    ReplayUnique(After(INIT, es).log);
  }

  /** No committed entry is lost, except to a later commit that removes it or could not read it. */
  lemma CommittedEntriesStay(es: seq<Event>, e: Entry)
    ensures var s := After(INIT, es);
            e in ReadFile(s.file) <==> exists i: nat :: LastsFrom(s.log, i, e)
  {
    RunsKeepInv(es);
    ReplayMeans(After(INIT, es).log, e);
  }

  /** A committed entry that nothing takes out stays exactly when no later update fails to read it. */
  lemma LostOnlyUnread(es: seq<Event>, i: nat, e: Entry)
    requires var log := After(INIT, es).log;
             i < |log| && log[i].d == Upsert(e) && forall j :: i < j < |log| ==> !Kills(log[j].d, e)
    ensures var s := After(INIT, es);
            e in ReadFile(s.file) <==> forall j :: i < j < |s.log| ==> !s.log[j].blind
  {
    RunsKeepInv(es);
    LostExactly(After(INIT, es).log, i, e);
  }

  /** An update that meets no failure commits its delta, applied to what it read, and remembers the result. */
  lemma UpdateCommits(es: seq<Event>, p: Pid, d: Delta, ok: bool)
    requires var s := After(INIT, es); p in s.procs && s.procs[p].phase.Idle? && s.lock == None
    ensures var s := After(INIT, es);
      var s' := After(INIT, es + [Lock(p, d), Read(p, ok), CreateTmp(p), FillTmp(p), Rename(p), Install(p), Unlock(p)]);
      var m := Apply(d, if ok then ReadFile(s.file) else []);
      && s'.file == Some(Whole(m)) && s'.log == s.log + [Commit(d, !ok)] && s'.lock == None
      && s'.procs == s.procs[p := Proc(m, |s.log| + 1, Idle)]
  {
    hide Apply, After;
    OneMoreEvent(es, Lock(p, d));
    OneMoreEvent(es + [Lock(p, d)], Read(p, ok));
    OneMoreEvent(es + [Lock(p, d)] + [Read(p, ok)], CreateTmp(p));
    var es3 := es + [Lock(p, d)] + [Read(p, ok)] + [CreateTmp(p)];
    OneMoreEvent(es3, FillTmp(p));
    OneMoreEvent(es3 + [FillTmp(p)], Rename(p));
    OneMoreEvent(es3 + [FillTmp(p)] + [Rename(p)], Install(p));
    OneMoreEvent(es3 + [FillTmp(p)] + [Rename(p)] + [Install(p)], Unlock(p));
    assert es3 + [FillTmp(p)] + [Rename(p)] + [Install(p)] + [Unlock(p)]
           == es + [Lock(p, d), Read(p, ok), CreateTmp(p), FillTmp(p), Rename(p), Install(p), Unlock(p)];
  }

  lemma OneMoreEvent(es: seq<Event>, e: Event)
    ensures var s := After(INIT, es); After(INIT, es + [e]) == if Enabled(s, e) then Next(s, e) else s
  {
    assert (es + [e])[..|es|] == es;
  }

  /** The history only grows, and a manager's copy never goes back to an older one. */
  lemma StepMonotone(s: State, e: Event)
    requires Inv(s) && Enabled(s, e)
    ensures s.log <= Next(s, e).log
    ensures forall p | p in s.procs && p in Next(s, e).procs :: s.procs[p].version <= Next(s, e).procs[p].version
  {}
}
