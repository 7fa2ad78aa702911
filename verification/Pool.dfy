/**
 * The DuckDB connection pool (crates/pawrly-engine/src/duckdb_pool.rs) as a step system. Tasks run
 * operations or `ensure_extension`; every lock, semaphore or fallible call is its own step, and
 * any clone, LOAD or INSTALL may fail.
 *
 * Popping the free list keeps its lock until the match on the result is over, so a task that
 * found the list empty clones while it still holds the lock.
 */
module Pool {
  import opened Prelude

  type Ext = string
  type Tid = nat

  /** A pooled connection is known by the extensions loaded on it. */
  datatype Conn = Conn(loaded: set<Ext>)

  datatype Task =
    // an operation: permit, connection, required list, LOADs, SQL, back to the free list
    | OpReady
    | OpCloning
    | OpFresh(conn: Conn)
    | OpLoading(conn: Conn, todo: seq<Ext>, must: set<Ext>)
    | OpRunning(conn: Conn, must: set<Ext>)
    // ensure_extension
    | EnsureWaiting(x: Ext)
    | EnsureReady(x: Ext)
    | EnsureLocked(x: Ext)
    | EnsureInstalled(x: Ext)
    | EnsureInserted(x: Ext)
    | EnsureLoaded(x: Ext)
    | EnsurePushing(x: Ext)
    | EnsureDone(x: Ext)
    // the end of either: the permit is given back
    | Leaving

  /**
   * The pool, its tasks, and a ledger for the proofs: the extensions for which some
   * `ensure_extension` returned Ok, and the INSTALLs that succeeded.
   */
  datatype State = State(
    size: nat,
    offline: bool,
    permits: nat,
    free: seq<Conn>,
    freeLock: Option<Tid>,
    installLock: Option<Tid>,
    required: seq<Ext>,
    installed: set<Ext>,
    tasks: map<Tid, Task>,
    ensured: set<Ext>,
    installs: multiset<Ext>)

  /** `with_offline`: at least one connection, all of them idle and bare. */
  function New(size: nat, offline: bool): State {
    var n := if size == 0 then 1 else size;
    State(n, offline, n, seq(n, _ => Conn({})), None, None, [], {}, map[], {}, multiset{})
  }

  datatype Event =
    | OpStart(t: Tid)
    | Pop(t: Tid)
    | FoundEmpty(t: Tid)
    | Clone(t: Tid, ok: bool)
    | ReadRequired(t: Tid)
    | LoadNext(t: Tid, ok: bool)
    | CheckoutDone(t: Tid)
    | Checkin(t: Tid)
    | Leave(t: Tid)
    | EnsureFast(x: Ext)
    | EnsureStart(t: Tid, x: Ext)
    | EnsurePermit(t: Tid)
    | InstallLock(t: Tid)
    | Install(t: Tid, ok: bool)
    | InstallInsert(t: Tid)
    | LoadFree(t: Tid, upTo: nat)
    | RequiredCheck(t: Tid)
    | RequiredPush(t: Tid)
    | EnsureReturn(t: Tid)

  // ------------------------------------------------------------------------ the steps

  function Phase(s: State, t: Tid): Option<Task> {
    if t in s.tasks then Some(s.tasks[t]) else None
  }

  predicate Enabled(s: State, e: Event) {
    match e
    case OpStart(t) => t !in s.tasks && s.permits > 0
    case Pop(t) => Phase(s, t) == Some(OpReady) && s.freeLock == None && s.free != []
    case FoundEmpty(t) => Phase(s, t) == Some(OpReady) && s.freeLock == None && s.free == []
    case Clone(t, _) => Phase(s, t) == Some(OpCloning)
    case ReadRequired(t) => t in s.tasks && s.tasks[t].OpFresh?
    case LoadNext(t, _) => t in s.tasks && s.tasks[t].OpLoading? && s.tasks[t].todo != []
    case CheckoutDone(t) => t in s.tasks && s.tasks[t].OpLoading? && s.tasks[t].todo == []
    case Checkin(t) => t in s.tasks && s.tasks[t].OpRunning? && s.freeLock == None
    case Leave(t) => Phase(s, t) == Some(Leaving)
    case EnsureFast(x) => x in s.required
    case EnsureStart(t, x) => t !in s.tasks && x !in s.required
    case EnsurePermit(t) => t in s.tasks && s.tasks[t].EnsureWaiting? && s.permits > 0
    case InstallLock(t) => t in s.tasks && s.tasks[t].EnsureReady? && s.installLock == None
    case Install(t, _) => t in s.tasks && s.tasks[t].EnsureLocked?
    case InstallInsert(t) => t in s.tasks && s.tasks[t].EnsureInstalled?
    case LoadFree(t, n) => t in s.tasks && s.tasks[t].EnsureInserted? && s.freeLock == None && n <= |s.free|
    case RequiredCheck(t) => t in s.tasks && s.tasks[t].EnsureLoaded?
    case RequiredPush(t) => t in s.tasks && s.tasks[t].EnsurePushing?
    case EnsureReturn(t) => t in s.tasks && s.tasks[t].EnsureDone?
  }

  function Load(c: Conn, x: Ext): Conn {
    Conn(c.loaded + {x})
  }

  function To(s: State, t: Tid, task: Task): State {
    s.(tasks := s.tasks[t := task])
  }

  function Next(s: State, e: Event): State
    requires Enabled(s, e)
  {
    match e
    case OpStart(t) => To(s, t, OpReady).(permits := s.permits - 1)
    case Pop(t) => To(s, t, OpFresh(s.free[|s.free| - 1])).(free := s.free[..|s.free| - 1])
    case FoundEmpty(t) => To(s, t, OpCloning).(freeLock := Some(t))
    case Clone(t, ok) => To(s, t, if ok then OpFresh(Conn({})) else Leaving).(freeLock := None)
    case ReadRequired(t) => To(s, t, OpLoading(s.tasks[t].conn, s.required, s.ensured))
    case LoadNext(t, ok) =>
      var OpLoading(conn, todo, must) := s.tasks[t];
      if todo[0] in conn.loaded then To(s, t, OpLoading(conn, todo[1..], must))
      else if ok then To(s, t, OpLoading(Load(conn, todo[0]), todo[1..], must))
      else To(s, t, Leaving)
    case CheckoutDone(t) => To(s, t, OpRunning(s.tasks[t].conn, s.tasks[t].must))
    case Checkin(t) => To(s, t, Leaving).(free := s.free + [s.tasks[t].conn])
    case Leave(t) => s.(tasks := s.tasks - {t}, permits := s.permits + 1)
    case EnsureFast(x) => s.(ensured := s.ensured + {x})
    case EnsureStart(t, x) => To(s, t, EnsureWaiting(x))
    case EnsurePermit(t) => To(s, t, EnsureReady(s.tasks[t].x)).(permits := s.permits - 1)
    case InstallLock(t) => To(s, t, EnsureLocked(s.tasks[t].x)).(installLock := Some(t))
    case Install(t, ok) =>
      var x := s.tasks[t].x;
      if s.offline || x in s.installed then To(s, t, EnsureInstalled(x))
      else if ok then To(s, t, EnsureInstalled(x)).(installs := s.installs + multiset{x})
      else To(s, t, Leaving).(installLock := None)
    case InstallInsert(t) =>
      To(s, t, EnsureInserted(s.tasks[t].x)).(installed := s.installed + {s.tasks[t].x}, installLock := None)
    case LoadFree(t, n) =>
      var x := s.tasks[t].x;
      To(s, t, if n == |s.free| then EnsureLoaded(x) else Leaving)
        .(free := seq(|s.free|, i requires 0 <= i < |s.free| => if i < n then Load(s.free[i], x) else s.free[i]))
    case RequiredCheck(t) =>
      To(s, t, if s.tasks[t].x in s.required then EnsureDone(s.tasks[t].x) else EnsurePushing(s.tasks[t].x))
    case RequiredPush(t) => To(s, t, EnsureDone(s.tasks[t].x)).(required := s.required + [s.tasks[t].x])
    case EnsureReturn(t) =>
      s.(tasks := s.tasks - {t}, permits := s.permits + 1, ensured := s.ensured + {s.tasks[t].x})
  }

  // -------------------------------------------------------------------- the invariant

  predicate HoldsPermit(task: Task) { !task.EnsureWaiting? }

  /** The task has a connection out of the pool, or is about to clone one. */
  predicate Carries(task: Task) {
    task.OpCloning? || task.OpFresh? || task.OpLoading? || task.OpRunning?
  }

  function Holders(s: State): set<Tid> { set t | t in s.tasks && HoldsPermit(s.tasks[t]) }

  function Carriers(s: State): set<Tid> { set t | t in s.tasks && Carries(s.tasks[t]) }

  ghost predicate Bounded(s: State) {
    && s.permits + |Holders(s)| == s.size
    && |s.free| + |Carriers(s)| <= s.size
  }

  /** Only the task that found the free list empty holds its lock between steps. */
  ghost predicate FreeLockOk(s: State) {
    && (forall t | t in s.tasks && s.tasks[t].OpCloning? :: s.freeLock == Some(t))
    && (s.freeLock.Some? ==> s.freeLock.value in s.tasks && s.tasks[s.freeLock.value].OpCloning?)
  }

  predicate HoldsInstall(task: Task) {
    task.EnsureLocked? || task.EnsureInstalled?
  }

  ghost predicate InstallLockOk(s: State) {
    HoldersHaveLock(s) && LockHasHolder(s)
  }

  ghost predicate HoldersHaveLock(s: State) {
    forall t | t in s.tasks && HoldsInstall(s.tasks[t]) :: s.installLock == Some(t)
  }

  ghost predicate LockHasHolder(s: State) {
    s.installLock.Some? ==> s.installLock.value in s.tasks && HoldsInstall(s.tasks[s.installLock.value])
  }

  /** A successful INSTALL is remembered, at the latest before its lock is released. */
  ghost predicate InstallsOk(s: State) {
    && (s.offline ==> s.installs == multiset{})
    && (forall x | x in s.installs :: s.installs[x] == 1 && (x in s.installed || InsertPending(s, x)))
  }

  predicate InsertPending(s: State, x: Ext) {
    s.installLock.Some? && Phase(s, s.installLock.value) == Some(EnsureInstalled(x))
  }

  /** What `ensure_extension` promised is on the list every later checkout reads. */
  ghost predicate RequiredOk(s: State) {
    && (forall x | x in s.ensured :: x in s.required)
    && (forall t | t in s.tasks && s.tasks[t].EnsureDone? :: s.tasks[t].x in s.required)
  }

  /** A connection will have loaded what was promised when its checkout read the list. */
  ghost predicate TaskLoadsOk(task: Task) {
    && (task.OpLoading? ==> forall x | x in task.must :: x in task.conn.loaded || x in task.todo)
    && (task.OpRunning? ==> task.must <= task.conn.loaded)
  }

  ghost predicate LoadsOk(s: State) {
    forall t | t in s.tasks :: TaskLoadsOk(s.tasks[t])
  }

  ghost predicate Inv(s: State) {
    Bounded(s) && FreeLockOk(s) && InstallLockOk(s) && InstallsOk(s) && RequiredOk(s) && LoadsOk(s)
  }

  lemma NewInv(size: nat, offline: bool)
    ensures Inv(New(size, offline))
  {
    assert Holders(New(size, offline)) == {} && Carriers(New(size, offline)) == {};
  }

  // --------------------------------------------------------------- every step keeps it

  lemma CountPut(a: set<Tid>, t: Tid, stays: bool)
    ensures |a - {t} + (if stays then {t} else {})| == |a| + (if stays then 1 else 0) - (if t in a then 1 else 0)
  {
    assert t in a ==> |a - {t}| == |a| - 1;
    assert t !in a ==> a - {t} == a;
    assert stays ==> |a - {t} + {t}| == |a - {t}| + 1;
    assert !stays ==> a - {t} + {} == a - {t};
  }

  lemma MoveSets(s: State, t: Tid, task: Task)
    ensures Holders(To(s, t, task)) == Holders(s) - {t} + (if HoldsPermit(task) then {t} else {})
    ensures Carriers(To(s, t, task)) == Carriers(s) - {t} + (if Carries(task) then {t} else {})
  {
    hide HoldsPermit, Carries;
  }

  /** How moving one task changes the two counts. */
  lemma CountMove(s: State, t: Tid, task: Task)
    ensures |Holders(To(s, t, task))| ==
            |Holders(s)| + (if HoldsPermit(task) then 1 else 0) - (if t in Holders(s) then 1 else 0)
    ensures |Carriers(To(s, t, task))| ==
            |Carriers(s)| + (if Carries(task) then 1 else 0) - (if t in Carriers(s) then 1 else 0)
  {
    hide HoldsPermit, Carries;
    var h, c := HoldsPermit(task), Carries(task);
    MoveSets(s, t, task);
    CountPut(Holders(s), t, h);
    CountPut(Carriers(s), t, c);
  }

  lemma CountRemove(s: State, t: Tid)
    requires t in s.tasks
    ensures var s' := s.(tasks := s.tasks - {t});
      && |Holders(s')| == |Holders(s)| - (if t in Holders(s) then 1 else 0)
      && |Carriers(s')| == |Carriers(s)| - (if t in Carriers(s) then 1 else 0)
  {
    var s' := s.(tasks := s.tasks - {t});
    assert Holders(s') == Holders(s) - {t};
    assert Carriers(s') == Carriers(s) - {t};
  }

  /** Holding a permit is needed to carry a connection, so finding none free leaves room. */
  lemma CarriersHold(s: State, t: Tid)
    requires t in Holders(s) && t !in Carriers(s)
    ensures |Carriers(s)| + 1 <= |Holders(s)|
  {
    assert Carriers(s) + {t} <= Holders(s);
    Subset(Carriers(s) + {t}, Holders(s));
  }

  lemma {:induction false} Subset(a: set<Tid>, b: set<Tid>)
    requires a <= b
    ensures |a| <= |b|
    decreases a
  {
    if a != {} {
      var x :| x in a;
      Subset(a - {x}, b - {x});
    }
  }

  lemma SameTasks(s: State, s': State)
    requires s.tasks == s'.tasks
    ensures Holders(s) == Holders(s') && Carriers(s) == Carriers(s')
  {}

  lemma StepBounded(s: State, e: Event)
    requires Inv(s) && Enabled(s, e)
    ensures Bounded(Next(s, e))
  {
    hide Holders, Carriers, FreeLockOk, InstallLockOk, InstallsOk, RequiredOk, LoadsOk;
    var s' := Next(s, e);
    if e.EnsureFast? {
      SameTasks(s, s');
    } else if e.Leave? || e.EnsureReturn? {
      CountRemove(s, e.t);
      SameTasks(s', s.(tasks := s.tasks - {e.t}));
      InSets(s, e.t);
    } else {
      CountMove(s, e.t, s'.tasks[e.t]);
      SameTasks(s', To(s, e.t, s'.tasks[e.t]));
      InSets(s, e.t);
      if e.FoundEmpty? {
        CarriersHold(s, e.t);
      }
    }
  }

  lemma InSets(s: State, t: Tid)
    ensures t in Holders(s) <==> t in s.tasks && HoldsPermit(s.tasks[t])
    ensures t in Carriers(s) <==> t in s.tasks && Carries(s.tasks[t])
  {}

  lemma StepFreeLock(s: State, e: Event)
    requires FreeLockOk(s) && Enabled(s, e)
    ensures FreeLockOk(Next(s, e))
  {}

  lemma StepInstallLock(s: State, e: Event)
    requires InstallLockOk(s) && Enabled(s, e)
    ensures InstallLockOk(Next(s, e))
  {
    hide Enabled, Next;
    StepHoldersHaveLock(s, e);
    StepLockHasHolder(s, e);
  }

  lemma StepHoldersHaveLock(s: State, e: Event)
    requires InstallLockOk(s) && Enabled(s, e)
    ensures HoldersHaveLock(Next(s, e))
  {}

  lemma StepLockHasHolder(s: State, e: Event)
    requires InstallLockOk(s) && Enabled(s, e)
    ensures LockHasHolder(Next(s, e))
  {}

  lemma StepInstalls(s: State, e: Event)
    requires Inv(s) && Enabled(s, e)
    ensures InstallsOk(Next(s, e))
  {
    hide Bounded, FreeLockOk, RequiredOk, LoadsOk;
    var s' := Next(s, e);
    forall x | x in s'.installs ensures s'.installs[x] == 1 && (x in s'.installed || InsertPending(s', x)) {
      if x in s.installs && x !in s.installed {
        assert InsertPending(s, x);
      }
    }
  }

  lemma StepRequired(s: State, e: Event)
    requires Inv(s) && Enabled(s, e)
    ensures RequiredOk(Next(s, e))
  {
    hide Bounded, FreeLockOk, InstallLockOk, InstallsOk, LoadsOk;
  }

  lemma StepLoads(s: State, e: Event)
    requires RequiredOk(s) && LoadsOk(s) && Enabled(s, e)
    ensures LoadsOk(Next(s, e))
  {
    var s' := Next(s, e);
    forall t | t in s'.tasks ensures TaskLoadsOk(s'.tasks[t]) {
      if t in s.tasks && s.tasks[t] == s'.tasks[t] {
        assert TaskLoadsOk(s.tasks[t]);
      } else if e.LoadNext? && s'.tasks[t].OpLoading? {
        LoadOne(s.tasks[t], s'.tasks[t]);
      }
    }
  }

  lemma LoadOne(task: Task, task': Task)
    requires task.OpLoading? && TaskLoadsOk(task) && task.todo != []
    requires task'.OpLoading? && task'.todo == task.todo[1..] && task'.must == task.must
    requires task'.conn.loaded == task.conn.loaded + {task.todo[0]}
    ensures TaskLoadsOk(task')
  {
    assert task.todo == [task.todo[0]] + task.todo[1..];
  }

  lemma StepInv(s: State, e: Event)
    requires Inv(s) && Enabled(s, e)
    ensures Inv(Next(s, e))
  {
    hide Bounded, FreeLockOk, InstallLockOk, InstallsOk, RequiredOk, LoadsOk, Next;
    StepBounded(s, e);
    StepFreeLock(s, e);
    StepInstallLock(s, e);
    StepInstalls(s, e);
    StepRequired(s, e);
    StepLoads(s, e);
  }

  // ----------------------------------------------------------------------- whole runs

  /** The state after a run; an event that is not enabled does nothing. */
  function After(s: State, es: seq<Event>): State
    decreases |es|
  {
    if es == [] then s else
      var before := After(s, es[..|es| - 1]);
      if Enabled(before, es[|es| - 1]) then Next(before, es[|es| - 1]) else before
  }

  lemma {:induction false} RunsKeepInv(s: State, es: seq<Event>)
    requires Inv(s)
    ensures Inv(After(s, es))
    ensures After(s, es).size == s.size && After(s, es).offline == s.offline
    decreases |es|
  {
    hide Inv, Next, Enabled;
    if es != [] {
      var before := After(s, es[..|es| - 1]);
      RunsKeepInv(s, es[..|es| - 1]);
      if Enabled(before, es[|es| - 1]) {
        StepInv(before, es[|es| - 1]);
        StepKeepsSize(before, es[|es| - 1]);
      }
    }
  }

  lemma StepKeepsSize(s: State, e: Event)
    requires Enabled(s, e)
    ensures Next(s, e).size == s.size && Next(s, e).offline == s.offline && s.ensured <= Next(s, e).ensured
  {}

  /**
   * Over every interleaving and any failures: idle connections, connections in use and tasks
   * about to clone never exceed the pool size; an operation runs with every extension for which
   * `ensure_extension` had returned Ok when its checkout read the required list; and no
   * extension is installed twice, or at all when offline.
   */
  lemma EveryRun(size: nat, offline: bool, es: seq<Event>)
    ensures var s := After(New(size, offline), es);
      && |s.free| + |Carriers(s)| <= (if size == 0 then 1 else size)
      && (forall t | t in s.tasks && s.tasks[t].OpRunning? :: s.tasks[t].must <= s.tasks[t].conn.loaded)
      && (forall x :: s.installs[x] <= 1)
      && (offline ==> s.installs == multiset{})
  {
    NewInv(size, offline);
    RunsKeepInv(New(size, offline), es);
  }

  /** The promises a running operation answers for include all those made before it started. */
  ghost predicate Owes(s: State, t: Tid, promised: set<Ext>) {
    t in s.tasks && (
      || s.tasks[t].OpReady? || s.tasks[t].OpCloning? || s.tasks[t].OpFresh? || s.tasks[t].Leaving?
      || (s.tasks[t].OpLoading? && promised <= s.tasks[t].must)
      || (s.tasks[t].OpRunning? && promised <= s.tasks[t].must))
  }

  lemma {:induction false} EnsuredGrows(s: State, es: seq<Event>)
    ensures s.ensured <= After(s, es).ensured
    decreases |es|
  {
    hide Next, Enabled;
    if es != [] {
      var before := After(s, es[..|es| - 1]);
      EnsuredGrows(s, es[..|es| - 1]);
      if Enabled(before, es[|es| - 1]) {
        StepKeepsSize(before, es[|es| - 1]);
      }
    }
  }

  /** Until it leaves, an operation started in `s` owes what was promised in `s`. */
  lemma {:induction false} OperationOwes(s: State, t: Tid, es: seq<Event>)
    requires Phase(s, t) == Some(OpReady)
    requires forall e | e in es :: e != Leave(t)
    ensures Owes(After(s, es), t, s.ensured)
    decreases |es|
  {
    if es == [] {
      return;
    }
    hide Next, Enabled, Owes;
    var shorter, e := es[..|es| - 1], es[|es| - 1];
    assert forall e | e in shorter :: e in es;
    OperationOwes(s, t, shorter);
    EnsuredGrows(s, shorter);
    assert e in es;
    if Enabled(After(s, shorter), e) {
      StillOwes(After(s, shorter), t, s.ensured, e);
    }
  }

  lemma StillOwes(s: State, t: Tid, promised: set<Ext>, e: Event)
    requires Owes(s, t, promised) && promised <= s.ensured && Enabled(s, e) && e != Leave(t)
    ensures Owes(Next(s, e), t, promised)
  {}

  /** So an operation that starts after `ensure_extension(x)` returned Ok runs with `x` loaded. */
  lemma LaterOperationsHaveIt(size: nat, offline: bool, before: seq<Event>, t: Tid, after: seq<Event>, x: Ext)
    requires x in After(New(size, offline), before).ensured
    requires Enabled(After(New(size, offline), before), OpStart(t))
    requires forall e | e in after :: e != Leave(t)
    ensures var s := After(Next(After(New(size, offline), before), OpStart(t)), after);
            t in s.tasks && s.tasks[t].OpRunning? ==> x in s.tasks[t].conn.loaded
  {
    var s0 := After(New(size, offline), before);
    var s1 := Next(s0, OpStart(t));
    NewInv(size, offline);
    RunsKeepInv(New(size, offline), before);
    StepInv(s0, OpStart(t));
    RunsKeepInv(s1, after);
    OperationOwes(s1, t, after);
  }

  /** From reading the required list to its end, an operation is on its way to exactly `target`. */
  ghost predicate HeadsFor(s: State, t: Tid, target: set<Ext>) {
    t in s.tasks && (
      || s.tasks[t].Leaving?
      || (s.tasks[t].OpLoading? && s.tasks[t].conn.loaded + Elements(s.tasks[t].todo) == target)
      || (s.tasks[t].OpRunning? && s.tasks[t].conn.loaded == target))
  }

  lemma StillHeads(s: State, t: Tid, target: set<Ext>, e: Event)
    requires HeadsFor(s, t, target) && Enabled(s, e) && e != Leave(t)
    ensures HeadsFor(Next(s, e), t, target)
  {
    if e.LoadNext? && e.t == t {
      ElementsHead(s.tasks[t].todo);
    } else if e == CheckoutDone(t) {
      ElementsHead(s.tasks[t].todo);
    } else {
      StillLoading(s, t, e);
    }
  }

  /** Only its own LOADs and the end of its checkout change what a loading operation has. */
  lemma StillLoading(s: State, t: Tid, e: Event)
    requires t in s.tasks && (s.tasks[t].OpLoading? || s.tasks[t].OpRunning? || s.tasks[t].Leaving?)
    requires Enabled(s, e) && e != Leave(t) && !(e.LoadNext? && e.t == t) && e != CheckoutDone(t)
    ensures t in Next(s, e).tasks
    ensures Next(s, e).tasks[t] == s.tasks[t] || Next(s, e).tasks[t].Leaving?
  {}

  lemma ElementsHead(xs: seq<Ext>)
    ensures xs == [] ==> Elements(xs) == {}
    ensures xs != [] ==> Elements(xs) == {xs[0]} + Elements(xs[1..])
  {}

  /**
   * What an operation runs with is settled when its checkout reads the required list: what its
   * connection had, and the list at that moment; nothing else, whatever happens meanwhile.
   */
  lemma {:induction false} LoadedExactly(s: State, t: Tid, es: seq<Event>)
    requires Enabled(s, ReadRequired(t))
    requires forall e | e in es :: e != Leave(t)
    ensures HeadsFor(After(Next(s, ReadRequired(t)), es), t, s.tasks[t].conn.loaded + Elements(s.required))
    decreases |es|
  {
    if es != [] {
      hide Next, Enabled, HeadsFor;
      var s1 := Next(s, ReadRequired(t));
      var shorter, e := es[..|es| - 1], es[|es| - 1];
      assert forall e | e in shorter :: e in es;
      LoadedExactly(s, t, shorter);
      assert e in es;
      if Enabled(After(s1, shorter), e) {
        StillHeads(After(s1, shorter), t, s.tasks[t].conn.loaded + Elements(s.required), e);
      }
    }
  }

  // ------------------------------------------------- an operation that meets no failure

  function Loads(t: Tid, n: nat): (es: seq<Event>)
    ensures |es| == n && forall i :: 0 <= i < n ==> es[i] == LoadNext(t, true)
  {
    seq(n, _ => LoadNext(t, true))
  }

  lemma {:induction false} LoadsAll(s: State, es: seq<Event>, t: Tid)
    requires t in After(s, es).tasks && After(s, es).tasks[t].OpLoading?
    ensures var a := After(s, es);
      var OpLoading(conn, todo, must) := a.tasks[t];
      After(s, es + Loads(t, |todo|)) == To(a, t, OpLoading(Conn(conn.loaded + Elements(todo)), [], must))
    decreases |After(s, es).tasks[t].todo|
  {
    hide After;
    var a := After(s, es);
    var OpLoading(conn, todo, must) := a.tasks[t];
    if todo == [] {
      assert es + Loads(t, 0) == es && conn.loaded + Elements(todo) == conn.loaded;
      assert a.tasks[t := a.tasks[t]] == a.tasks;
    } else {
      var e := LoadNext(t, true);
      Then(s, es, e);
      assert es + Loads(t, |todo|) == es + [e] + Loads(t, |todo| - 1);
      LoadsAll(s, es + [e], t);
      assert Elements(todo) == {todo[0]} + Elements(todo[1..]);
      assert (if todo[0] in conn.loaded then conn.loaded else conn.loaded + {todo[0]}) + Elements(todo[1..])
             == conn.loaded + Elements(todo);
    }
  }

  lemma CheckoutStarts(s: State, t: Tid)
    requires t !in s.tasks && s.permits > 0 && s.freeLock == None && s.free != []
    ensures var last := s.free[|s.free| - 1];
      After(s, [OpStart(t)] + [Pop(t)] + [ReadRequired(t)])
      == To(s, t, OpLoading(last, s.required, s.ensured))
           .(permits := s.permits - 1, free := s.free[..|s.free| - 1])
  {
    hide After;
    NoEvents(s);
    Then(s, [], OpStart(t));
    assert [] + [OpStart(t)] == [OpStart(t)];
    Then(s, [OpStart(t)], Pop(t));
    Then(s, [OpStart(t)] + [Pop(t)], ReadRequired(t));
  }

  /** It takes the last idle connection, and puts it back with all that is required loaded. */
  lemma OperationReturns(s: State, t: Tid)
    requires t !in s.tasks && s.permits > 0 && s.freeLock == None && s.free != []
    ensures var checkout := [OpStart(t)] + [Pop(t)] + [ReadRequired(t)] + Loads(t, |s.required|);
      var last := s.free[|s.free| - 1];
      After(s, checkout + [CheckoutDone(t)] + [Checkin(t)] + [Leave(t)])
      == s.(free := s.free[..|s.free| - 1] + [Conn(last.loaded + Elements(s.required))])
  {
    hide After, Enabled, Next;
    CheckoutStarts(s, t);
    var es := [OpStart(t)] + [Pop(t)] + [ReadRequired(t)];
    LoadsAll(s, es, t);
    Returns(s, es + Loads(t, |s.required|), t);
    assert After(s, es + Loads(t, |s.required|)).tasks - {t} == s.tasks;
  }

  /** With no idle connection it opens one, which stays in the pool. */
  lemma OperationAdds(s: State, t: Tid)
    requires t !in s.tasks && s.permits > 0 && s.freeLock == None && s.free == []
    ensures var checkout := [OpStart(t)] + [FoundEmpty(t)] + [Clone(t, true)] + [ReadRequired(t)]
                            + Loads(t, |s.required|);
      After(s, checkout + [CheckoutDone(t)] + [Checkin(t)] + [Leave(t)])
      == s.(free := [Conn(Elements(s.required))])
  {
    hide After;
    NoEvents(s);
    Then(s, [], OpStart(t));
    assert [] + [OpStart(t)] == [OpStart(t)];
    Then(s, [OpStart(t)], FoundEmpty(t));
    Then(s, [OpStart(t)] + [FoundEmpty(t)], Clone(t, true));
    Then(s, [OpStart(t)] + [FoundEmpty(t)] + [Clone(t, true)], ReadRequired(t));
    var es := [OpStart(t)] + [FoundEmpty(t)] + [Clone(t, true)] + [ReadRequired(t)];
    LoadsAll(s, es, t);
    assert {} + Elements(s.required) == Elements(s.required);
    Returns(s, es + Loads(t, |s.required|), t);
    assert After(s, es + Loads(t, |s.required|)).tasks - {t} == s.tasks;
  }

  /** The end of a checkout, the operation, and the way back. */
  lemma Returns(s: State, es: seq<Event>, t: Tid)
    requires var a := After(s, es); t in a.tasks && a.tasks[t].OpLoading? && a.tasks[t].todo == [] && a.freeLock == None
    ensures var a := After(s, es);
      After(s, es + [CheckoutDone(t)] + [Checkin(t)] + [Leave(t)])
      == a.(free := a.free + [a.tasks[t].conn], tasks := a.tasks - {t}, permits := a.permits + 1)
  {
    hide After;
    Then(s, es, CheckoutDone(t));
    Then(s, es + [CheckoutDone(t)], Checkin(t));
    Then(s, es + [CheckoutDone(t)] + [Checkin(t)], Leave(t));
    assert After(s, es).tasks[t := Leaving] - {t} == After(s, es).tasks - {t};
  }

  /** Asking again for what is required already succeeds at once, and promises it. */
  lemma EnsuredAtOnce(s: State, es: seq<Event>, x: Ext)
    requires x in After(s, es).required
    ensures After(s, es + [EnsureFast(x)]) == After(s, es).(ensured := After(s, es).ensured + {x})
  {
    hide After;
    Then(s, es, EnsureFast(x));
  }

  // --------------------------------------------------------- where the promise stops

  lemma Then(s: State, es: seq<Event>, e: Event)
    requires Enabled(After(s, es), e)
    ensures After(s, es + [e]) == Next(After(s, es), e)
  {
    assert (es + [e])[..|es + [e]| - 1] == es;
  }

  lemma NoEvents(s: State)
    ensures After(s, []) == s
  {}

  /** Task 0 is between reading the required list and using its connection. */
  lemma CheckoutUnderway() returns (es: seq<Event>)
    ensures After(New(2, false), es) ==
            New(2, false).(permits := 1, free := [Conn({})], tasks := map[0 := OpLoading(Conn({}), [], {})])
  {
    hide After;
    var s := New(2, false);
    NoEvents(s);
    Then(s, [], OpStart(0));
    Then(s, [] + [OpStart(0)], Pop(0));
    assert s.free[..1] == [Conn({})];
    Then(s, [] + [OpStart(0)] + [Pop(0)], ReadRequired(0));
    es := [] + [OpStart(0)] + [Pop(0)] + [ReadRequired(0)];
  }

  /** Meanwhile task 1 installs `x`. */
  lemma InstallMeanwhile(x: Ext, before: seq<Event>) returns (es: seq<Event>)
    requires After(New(2, false), before) ==
             New(2, false).(permits := 1, free := [Conn({})], tasks := map[0 := OpLoading(Conn({}), [], {})])
    ensures After(New(2, false), es) ==
            New(2, false).(permits := 0, free := [Conn({})], installed := {x}, installs := multiset{x},
                           tasks := map[0 := OpLoading(Conn({}), [], {}), 1 := EnsureInserted(x)])
  {
    hide After;
    var s := New(2, false);
    es := before + [EnsureStart(1, x)];
    Then(s, before, EnsureStart(1, x));
    Then(s, es, EnsurePermit(1));
    es := es + [EnsurePermit(1)];
    Then(s, es, InstallLock(1));
    es := es + [InstallLock(1)];
    Then(s, es, Install(1, true));
    es := es + [Install(1, true)];
    Then(s, es, InstallInsert(1));
    es := es + [InstallInsert(1)];
  }

  /** It loads `x` on the idle connection. */
  lemma LoadMeanwhile(x: Ext) returns (es: seq<Event>)
    ensures After(New(2, false), es) ==
            New(2, false).(permits := 0, free := [Conn({x})], installed := {x}, installs := multiset{x},
                           tasks := map[0 := OpLoading(Conn({}), [], {}), 1 := EnsureLoaded(x)])
  {
    hide After;
    var s := New(2, false);
    es := CheckoutUnderway();
    es := InstallMeanwhile(x, es);
    Then(s, es, LoadFree(1, 1));
    es := es + [LoadFree(1, 1)];
    assert Load(Conn({}), x) == Conn({x});
    assert After(s, es).free == [Conn({x})];
  }

  /** Task 1 returns Ok while task 0 stays where it was. */
  lemma PromiseMeanwhile(x: Ext) returns (es: seq<Event>)
    ensures var s := After(New(2, false), es);
            x in s.ensured && 0 in s.tasks && s.tasks[0] == OpLoading(Conn({}), [], {})
  {
    hide After;
    var s := New(2, false);
    es := LoadMeanwhile(x);
    Then(s, es, RequiredCheck(1));
    es := es + [RequiredCheck(1)];
    Then(s, es, RequiredPush(1));
    es := es + [RequiredPush(1)];
    Then(s, es, EnsureReturn(1));
    es := es + [EnsureReturn(1)];
  }

  /**
   * A checkout that read the required list before `ensure_extension(x)` returned Ok may succeed
   * after it and still lack `x`; the list must be read after the return.
   */
  lemma EarlierReadMayMiss(x: Ext)
    ensures exists es :: LacksPromised(After(New(2, false), es), 0, x)
  {
    hide After;
    var es := PromiseMeanwhile(x);
    assert LacksPromised(After(New(2, false), es), 0, x);
  }

  /** `x` has been promised, and the checkout of `t` now succeeds with a connection without it. */
  ghost predicate LacksPromised(s: State, t: Tid, x: Ext) {
    && x in s.ensured && Enabled(s, CheckoutDone(t))
    && var s' := Next(s, CheckoutDone(t));
       t in s'.tasks && s'.tasks[t].OpRunning? && x !in s'.tasks[t].conn.loaded
  }
}
