/**
 * The life of a query (crates/pawrly-engine/src/stream.rs and local.rs) as a step system: a guard
 * counts it while it lives and settles everything when dropped; the result stream looks at a
 * cancel flag before it polls the wrapped stream. A step is one access to what queries share (the
 * active count, the registry, the cancel flag, the completion slot) or one answer of the wrapped
 * stream, so a cancellation may land anywhere in a poll or in the drop of a guard.
 */
module Lifecycle {
  import opened Prelude

  type QueryId = string

  /** What a consumer sees from one poll (a pending poll shows nothing). */
  datatype Item = Rows(n: nat) | Failed | Cancelled | End

  /** What the wrapped stream answers to one poll. */
  datatype Inner = InnerPending | InnerRows(n: nat) | InnerError | InnerEnd

  /** What a guard reports when it is dropped. */
  datatype Guard = Guard(rows: nat, ok: bool, error: bool)

  /** Dropping a guard: count down and report the status, then fill the slot, then deregister. */
  datatype Stage = CountDown | FillSlot | Deregister

  /**
   * Where a query is: registered but not counted, before its stream exists, with a stream between
   * polls, within a poll after the look at the flag, within the drop of its guard (at the end of
   * a poll, which then yields the end, or not), or out of hand.
   */
  datatype Phase =
    | Registered
    | Starting
    | Idle
    | Asking
    | Dropping(g: Guard, stage: Stage, ends: bool)
    | Gone

  /**
   * One query: the fields of its stream, its cancel flag, its completion slot with the number of
   * times it was filled, the status its guard reported, and the items it has yielded.
   */
  datatype Query = Query(
    at: Phase,
    guard: Option<Guard>,
    rows: nat,
    cancelEmitted: bool,
    ended: bool,
    flag: bool,
    slot: Option<nat>,
    fills: nat,
    report: Option<Guard>,
    items: seq<Item>)

  /** The shared state: the active count, the cancel registry, and every query so far. */
  datatype State = State(active: int, registry: set<QueryId>, queries: map<QueryId, Query>)

  const INIT := State(0, {}, map[])
  const NEW_GUARD := Guard(0, false, false)
  const NEW_QUERY := Query(Registered, None, 0, false, false, false, None, 0, None, [])

  datatype Act =
    | Register
    | CountUp
    | FailEarly
    | Ready
    | Poll
    | Answer(inner: Inner)
    | Cancel
    | Drop
    | DropStep

  datatype Event = Event(id: QueryId, act: Act)

  // ----------------------------------------------------------------------- one query

  function MarkError(g: Option<Guard>): Option<Guard> {
    match g
    case None => None
    case Some(guard) => Some(guard.(error := true))
  }

  function Yield(q: Query, item: Item): Query {
    q.(at := Idle, items := q.items + [item])
  }

  /** Give the guard up: its drop comes next, if there is one. */
  function Release(q: Query, ends: bool): Query {
    match q.guard
    case None => if ends then Yield(q, End) else q.(at := Gone)
    case Some(g) => q.(at := Dropping(g, CountDown, ends), guard := None)
  }

  predicate CanAct(q: Query, act: Act) {
    match act
    case Register => false
    case CountUp => q.at.Registered?
    case FailEarly => q.at.Starting?
    case Ready => q.at.Starting?
    case Poll => q.at.Idle?
    case Answer(inner) => q.at.Asking? && (q.ended ==> inner == InnerEnd)
    case Cancel => true
    case Drop => q.at.Idle?
    case DropStep => q.at.Dropping?
  }

  /** The steps of `query`, `poll_next` and `Drop for QueryGuard`, as far as they concern the query. */
  function After(q: Query, act: Act): Query
    requires CanAct(q, act)
  {
    match act
    case CountUp => q.(at := Starting, guard := Some(NEW_GUARD))
    case FailEarly => Release(q.(guard := MarkError(q.guard)), false)
    case Ready => q.(at := Idle)
    case Poll => Begin(q)
    case Answer(inner) => Answered(q, inner)
    case Cancel => q.(flag := true)
    case Drop => Release(q, false)
    case DropStep => Dropped(q)
  }

  /** A poll up to and including the look at the flag. */
  function Begin(q: Query): Query {
    if q.cancelEmitted then Release(q, true)
    else if q.flag then Yield(q.(guard := MarkError(q.guard), cancelEmitted := true), Cancelled)
    else q.(at := Asking)
  }

  /** The rest of the poll. */
  function Answered(q: Query, inner: Inner): Query {
    match inner
    case InnerPending => q.(at := Idle)
    case InnerRows(n) => Yield(q.(rows := q.rows + n), Rows(n))
    case InnerError => Yield(q.(guard := MarkError(q.guard)), Failed)
    case InnerEnd =>
      var marked := match q.guard
        case None => None
        case Some(g) => Some(g.(rows := q.rows, ok := true));
      Release(q.(guard := marked, ended := true), true)
  }

  function Dropped(q: Query): Query
    requires q.at.Dropping?
  {
    var Dropping(g, stage, ends) := q.at;
    match stage
    case CountDown => q.(at := Dropping(g, FillSlot, ends), report := Some(g))
    case FillSlot =>
      q.(at := Dropping(g, Deregister, ends),
         slot := if q.slot.Some? then q.slot else Some(g.rows), fills := q.fills + 1)
    case Deregister => if ends then Yield(q, End) else q.(at := Gone)
  }

  // ---------------------------------------------------------------------- the engine

  /** Ids are fresh; a cancellation may name any id. */
  predicate Enabled(s: State, e: Event) {
    match e.act
    case Register => e.id !in s.queries
    case Cancel => true
    case _ => e.id in s.queries && CanAct(s.queries[e.id], e.act)
  }

  /** `cancel` reaches only registered queries. */
  function Next(s: State, e: Event): State
    requires Enabled(s, e)
  {
    if e.act.Register? then State(s.active, s.registry + {e.id}, s.queries[e.id := NEW_QUERY])
    else if e.act.Cancel? && (e.id !in s.registry || e.id !in s.queries) then s
    else
      var q := s.queries[e.id];
      State(
        s.active + (if e.act.CountUp? then 1 else if e.act.DropStep? && q.at.stage.CountDown? then -1 else 0),
        if e.act.DropStep? && q.at.stage.Deregister? then s.registry - {e.id} else s.registry,
        s.queries[e.id := After(q, e.act)])
  }

  // -------------------------------------------------------------------- the invariant

  /** The query is in the active count: its guard lives, or has not counted down yet. */
  predicate Counted(q: Query) {
    q.guard.Some? || (q.at.Dropping? && q.at.stage.CountDown?)
  }

  /** The query is in the registry: until its guard has deregistered it. */
  predicate Listed(q: Query) {
    q.at.Registered? || q.guard.Some? || q.at.Dropping?
  }

  /** The completion slot has been filled. */
  predicate Filled(q: Query) {
    !Listed(q) || (q.at.Dropping? && q.at.stage.Deregister?)
  }

  function CountedIds(s: State): set<QueryId> {
    set id | id in s.queries && Counted(s.queries[id])
  }

  function ListedIds(s: State): set<QueryId> {
    set id | id in s.queries && Listed(s.queries[id])
  }

  function TotalRows(items: seq<Item>): nat {
    if items == [] then 0 else
      var last := items[|items| - 1];
      TotalRows(items[..|items| - 1]) + (if last.Rows? then last.n else 0)
  }

  /** Nothing but ends follows a cancellation. */
  ghost predicate CancelsOnce(items: seq<Item>) {
    forall i, j :: 0 <= i < j < |items| && items[i] == Cancelled ==> items[j] == End
  }

  /** The consumer stopped polling at the first error or end. */
  ghost predicate StopsInTime(items: seq<Item>) {
    forall i :: 0 <= i < |items| - 1 ==> items[i].Rows?
  }

  /** The guard and what it reports: rows, and ok, exactly for an end that was seen. */
  ghost predicate GuardOk(q: Query) {
    && (q.guard.Some? ==> !q.at.Registered? && !q.at.Dropping? && !q.at.Gone? && !q.ended
                          && q.guard.value.rows == 0 && !q.guard.value.ok)
    && (q.at.Starting? ==> q.guard.Some?)
    && ((q.at.Idle? || q.at.Asking?) && q.guard.None? ==> q.ended || q.cancelEmitted)
    && (q.at.Dropping? ==> Reports(q, q.at.g) && (if q.at.ends then q.ended || q.cancelEmitted else !q.ended))
    && (q.report.Some? <==> !q.at.Registered? && !Counted(q))
    && (q.report.Some? ==> Reports(q, q.report.value))
  }

  ghost predicate Reports(q: Query, g: Guard) {
    g.ok == q.ended && g.rows == if q.ended then q.rows else 0
  }

  ghost predicate SlotOk(q: Query) {
    && (q.slot.Some? <==> Filled(q))
    && q.fills == (if Filled(q) then 1 else 0)
    && (q.slot.Some? ==> q.slot.value == if q.ended then q.rows else 0)
  }

  ghost predicate ItemsOk(q: Query) {
    && CancelsOnce(q.items) && q.rows == TotalRows(q.items)
    && (Cancelled in q.items <==> q.cancelEmitted)
    && (q.at.Registered? || q.at.Starting? ==> q.items == [] && !q.ended)
    && (q.at.Asking? ==> !q.cancelEmitted)
    && (q.ended && !q.at.Dropping? ==> End in q.items)
    && (End in q.items ==> q.ended || q.cancelEmitted)
  }

  ghost predicate QueryOk(q: Query) {
    GuardOk(q) && SlotOk(q) && ItemsOk(q)
  }

  lemma OneMoreItem(items: seq<Item>, item: Item)
    ensures TotalRows(items + [item]) == TotalRows(items) + (if item.Rows? then item.n else 0)
    ensures CancelsOnce(items) && (Cancelled !in items || item == End) ==> CancelsOnce(items + [item])
    ensures Cancelled in items + [item] <==> Cancelled in items || item == Cancelled
    ensures End in items + [item] <==> End in items || item == End
  {
    assert (items + [item])[..|items|] == items;
  }

  /** A step keeps a query in order; only counting up and down and deregistering move it. */
  lemma ActOk(q: Query, act: Act)
    requires QueryOk(q) && CanAct(q, act) && (act.Cancel? ==> Listed(q))
    ensures QueryOk(After(q, act))
    ensures Counted(After(q, act)) <==>
            act.CountUp? || (Counted(q) && !(act.DropStep? && q.at.stage.CountDown?))
    ensures Listed(After(q, act)) <==> Listed(q) && !(act.DropStep? && q.at.stage.Deregister?)
  {
    hide After, GuardOk, SlotOk, ItemsOk, Counted, Listed, Filled;
    ActMoves(q, act);
    ActGuard(q, act);
    ActSlot(q, act);
    ActItems(q, act);
  }

  lemma ActMoves(q: Query, act: Act)
    requires GuardOk(q) && CanAct(q, act) && (act.Cancel? ==> Listed(q))
    ensures Counted(After(q, act)) <==>
            act.CountUp? || (Counted(q) && !(act.DropStep? && q.at.stage.CountDown?))
    ensures Listed(After(q, act)) <==> Listed(q) && !(act.DropStep? && q.at.stage.Deregister?)
  {}

  lemma ActGuard(q: Query, act: Act)
    requires GuardOk(q) && ItemsOk(q) && CanAct(q, act)
    ensures GuardOk(After(q, act))
  {
    hide TotalRows, CancelsOnce;
  }

  lemma ActSlot(q: Query, act: Act)
    requires GuardOk(q) && SlotOk(q) && ItemsOk(q) && CanAct(q, act)
    ensures SlotOk(After(q, act))
  {
    hide TotalRows, CancelsOnce;
  }

  lemma ActItems(q: Query, act: Act)
    requires GuardOk(q) && ItemsOk(q) && CanAct(q, act)
    ensures ItemsOk(After(q, act))
  {
    hide TotalRows, CancelsOnce, Answered, Begin;
    match act
    case Poll => BeginItems(q);
    case Answer(inner) => AnsweredItems(q, inner);
    case DropStep => DroppedItems(q);
    case _ =>
  }

  lemma BeginItems(q: Query)
    requires GuardOk(q) && ItemsOk(q) && q.at.Idle?
    ensures ItemsOk(Begin(q))
  {
    hide TotalRows, CancelsOnce;
    OneMoreItem(q.items, if q.cancelEmitted then End else Cancelled);
  }

  lemma AnsweredItems(q: Query, inner: Inner)
    requires GuardOk(q) && ItemsOk(q) && CanAct(q, Answer(inner))
    ensures ItemsOk(Answered(q, inner))
  {
    hide TotalRows, CancelsOnce;
    match inner
    case InnerPending =>
    case InnerRows(n) => OneMoreItem(q.items, Rows(n));
    case InnerError => OneMoreItem(q.items, Failed);
    case InnerEnd => OneMoreItem(q.items, End);
  }

  lemma DroppedItems(q: Query)
    requires GuardOk(q) && ItemsOk(q) && q.at.Dropping?
    ensures ItemsOk(Dropped(q))
  {
    hide TotalRows, CancelsOnce;
    OneMoreItem(q.items, End);
  }

  lemma NewQueryOk()
    ensures QueryOk(NEW_QUERY) && !Counted(NEW_QUERY) && Listed(NEW_QUERY)
  {}

  ghost predicate Inv(s: State) {
    && s.registry == ListedIds(s) && s.active == |CountedIds(s)|
    && forall id | id in s.queries :: QueryOk(s.queries[id])
  }

  /** How one query's change shows in the two sets. */
  lemma IdsMove(s: State, s': State, id: QueryId, q: Query)
    requires s'.queries == s.queries[id := q]
    ensures CountedIds(s') == if Counted(q) then CountedIds(s) + {id} else CountedIds(s) - {id}
    ensures ListedIds(s') == if Listed(q) then ListedIds(s) + {id} else ListedIds(s) - {id}
  {}

  lemma SetMove(ids: set<QueryId>, id: QueryId)
    ensures id in ids ==> ids + {id} == ids && |ids - {id}| == |ids| - 1
    ensures id !in ids ==> ids - {id} == ids && |ids + {id}| == |ids| + 1
  {}

  lemma StepInv(s: State, e: Event)
    requires Inv(s) && Enabled(s, e)
    ensures Inv(Next(s, e))
  {
    hide QueryOk, Counted, Listed, After;
    var s' := Next(s, e);
    SetMove(CountedIds(s), e.id);
    SetMove(ListedIds(s), e.id);
    if e.act.Register? {
      NewQueryOk();
      IdsMove(s, s', e.id, NEW_QUERY);
    } else if !e.act.Cancel? || (e.id in s.registry && e.id in s.queries) {
      ActOk(s.queries[e.id], e.act);
      IdsMove(s, s', e.id, After(s.queries[e.id], e.act));
      MovesOnce(s.queries[e.id], e.act);
    }
  }

  lemma MovesOnce(q: Query, act: Act)
    requires QueryOk(q) && CanAct(q, act)
    ensures act.CountUp? ==> !Counted(q)
    ensures act.DropStep? && q.at.stage.CountDown? ==> Counted(q)
  {}

  // ----------------------------------------------------------------------- whole runs

  /** The state after a run; an event that is not enabled does nothing. */
  function Run(s: State, es: seq<Event>): State
    decreases |es|
  {
    if es == [] then s else
      var before := Run(s, es[..|es| - 1]);
      if Enabled(before, es[|es| - 1]) then Next(before, es[|es| - 1]) else before
  }

  lemma {:induction false} RunsKeepInv(es: seq<Event>)
    ensures Inv(Run(INIT, es))
    decreases |es|
  {
    hide Inv, Next, Enabled;
    if es == [] {
      InitInv();
    } else {
      var before := Run(INIT, es[..|es| - 1]);
      RunsKeepInv(es[..|es| - 1]);
      if Enabled(before, es[|es| - 1]) {
        StepInv(before, es[|es| - 1]);
      }
    }
  }

  lemma InitInv()
    ensures Inv(INIT)
  {
    assert CountedIds(INIT) == {} && ListedIds(INIT) == {};
  }

  /** What holds of each query at every moment. */
  ghost predicate Settles(q: Query) {
    && (q.slot.Some? <==> Filled(q)) && q.fills == (if Filled(q) then 1 else 0)
    && (q.slot.Some? ==> q.slot.value == if q.ended then TotalRows(q.items) else 0)
    && CancelsOnce(q.items)
    && (q.report.Some? ==> q.report.value.ok == q.ended)
  }

  /**
   * Over every run: the active count is the number of guards that have not counted down, and the
   * registry holds exactly the queries not yet deregistered; each slot is filled once, late in
   * the drop of the guard; it and the reported status tell whether the end of the results was
   * seen, and then the sum of the yielded rows; at most one cancellation is yielded and only
   * ends follow it.
   */
  lemma EveryRun(es: seq<Event>)
    ensures var s := Run(INIT, es);
      && s.active == |CountedIds(s)| && s.registry == ListedIds(s)
      && forall id | id in s.queries :: Settles(s.queries[id])
  {
    hide Run, TotalRows, CancelsOnce;
    RunsKeepInv(es);
  }

  /** No query is being registered or having its guard dropped. */
  predicate AtRest(s: State) {
    forall id | id in s.queries :: !s.queries[id].at.Registered? && !s.queries[id].at.Dropping?
  }

  /** Between such moments the two agree: each live guard is counted and registered. */
  lemma CountIsRegistry(es: seq<Event>)
    requires AtRest(Run(INIT, es))
    ensures var s := Run(INIT, es);
      && s.active == |s.registry|
      && forall id :: id in s.registry <==> id in s.queries && s.queries[id].guard.Some?
  {
    hide Run, QueryOk;
    RunsKeepInv(es);
    assert CountedIds(Run(INIT, es)) == ListedIds(Run(INIT, es));
  }

  /** When every query has been drained or dropped, nothing is left behind. */
  lemma NothingLeaks(es: seq<Event>)
    requires forall id | id in Run(INIT, es).queries :: !Listed(Run(INIT, es).queries[id])
    ensures Run(INIT, es).active == 0 && Run(INIT, es).registry == {}
  {
    hide Run, QueryOk;
    RunsKeepInv(es);
    assert CountedIds(Run(INIT, es)) == {} && ListedIds(Run(INIT, es)) == {};
  }

  /**
   * With a consumer that stops at the first error or end, a query reports ok exactly when it
   * yielded its end, and then it yielded neither an error nor a cancellation.
   */
  lemma StatusExactly(es: seq<Event>, id: QueryId)
    requires id in Run(INIT, es).queries
    ensures var q := Run(INIT, es).queries[id];
      q.report.Some? && !q.at.Dropping? && StopsInTime(q.items) ==>
        (q.report.value.ok <==> End in q.items && Failed !in q.items && Cancelled !in q.items)
  {
    hide Run, TotalRows;
    RunsKeepInv(es);
    var q := Run(INIT, es).queries[id];
    if q.report.Some? && !q.at.Dropping? && StopsInTime(q.items) && End in q.items {
      EndIsLast(q.items);
    }
  }

  lemma EndIsLast(items: seq<Item>)
    requires StopsInTime(items) && End in items
    ensures Failed !in items && Cancelled !in items
  {
    var k :| 0 <= k < |items| && items[k] == End;
    assert forall i | 0 <= i < |items| && i != k :: items[i].Rows?;
  }

  /** A consumer that polls on after an error may still end with an ok status. */
  lemma OkAfterError()
    ensures exists es :: OkWithFailure(Run(INIT, es), "q")
  {
    hide Run, Next, Enabled;
    var es := ErrorSeen();
    var failed := FAILED_QUERY;
    var s := State(1, {"q"}, map["q" := failed]);
    var ended := Answered(failed.(at := Asking), InnerEnd);
    FailedSteps();
    Take(es, Poll, s, s.(queries := map["q" := failed.(at := Asking)]));
    es := es + [Event("q", Poll)];
    Take(es, Answer(InnerEnd), Run(INIT, es), s.(queries := map["q" := ended]));
    es := es + [Event("q", Answer(InnerEnd))];
    Take(es, DropStep, Run(INIT, es), State(0, {"q"}, map["q" := Dropped(ended)]));
    es := es + [Event("q", DropStep)];
    assert FAILED_QUERY.items[0] == Failed && Dropped(ended).items == FAILED_QUERY.items;
    assert OkWithFailure(Run(INIT, es), "q");
  }

  const FAILED_QUERY := NEW_QUERY.(at := Idle, guard := Some(Guard(0, false, true)), items := [Failed])

  lemma FailedSteps()
    ensures var s := State(1, {"q"}, map["q" := FAILED_QUERY]);
            var asking := FAILED_QUERY.(at := Asking);
            var ended := Answered(asking, InnerEnd);
      && Enabled(s, Event("q", Poll))
      && Next(s, Event("q", Poll)) == s.(queries := map["q" := asking])
      && Enabled(s.(queries := map["q" := asking]), Event("q", Answer(InnerEnd)))
      && Next(s.(queries := map["q" := asking]), Event("q", Answer(InnerEnd))) == s.(queries := map["q" := ended])
      && Enabled(s.(queries := map["q" := ended]), Event("q", DropStep))
      && Next(s.(queries := map["q" := ended]), Event("q", DropStep)) == State(0, {"q"}, map["q" := Dropped(ended)])
  {}

  /** A query starts and yields an error. */
  lemma ErrorSeen() returns (es: seq<Event>)
    ensures Run(INIT, es) == State(1, {"q"}, map["q" := FAILED_QUERY])
  {
    hide Run;
    var q := NEW_QUERY.(at := Idle, guard := Some(NEW_GUARD));
    NoEvents();
    Take([], Register, INIT, State(0, {"q"}, map["q" := NEW_QUERY]));
    es := [] + [Event("q", Register)];
    var s := State(1, {"q"}, map["q" := q]);
    Take(es, CountUp, Run(INIT, es), s.(queries := map["q" := q.(at := Starting)]));
    es := es + [Event("q", CountUp)];
    Take(es, Ready, Run(INIT, es), s);
    es := es + [Event("q", Ready)];
    Take(es, Poll, s, s.(queries := map["q" := q.(at := Asking)]));
    es := es + [Event("q", Poll)];
    assert [] + [Failed] == [Failed];
    Take(es, Answer(InnerError), Run(INIT, es), s.(queries := map["q" := FAILED_QUERY]));
    es := es + [Event("q", Answer(InnerError))];
  }

  /** The query reported ok although it yielded an error. */
  predicate OkWithFailure(s: State, id: QueryId) {
    id in s.queries && s.queries[id].report.Some? && s.queries[id].report.value.ok && Failed in s.queries[id].items
  }

  /** One more event of a run, on a query `q`. */
  lemma Take(es: seq<Event>, act: Act, s: State, s': State)
    requires Run(INIT, es) == s && Enabled(s, Event("q", act)) && Next(s, Event("q", act)) == s'
    ensures Run(INIT, es + [Event("q", act)]) == s'
  {
    assert (es + [Event("q", act)])[..|es|] == es;
  }

  lemma NoEvents()
    ensures Run(INIT, []) == INIT
  {}

  /** A cancellation that lands after the look at the flag is seen by the next poll, or never. */
  lemma LateCancelUnseen(q: Query, inner: Inner)
    requires CanAct(q, Poll) && Begin(q).at.Asking? && CanAct(Begin(q), Answer(inner))
    ensures var late := After(After(After(q, Poll), Cancel), Answer(inner));
            late == After(After(q, Poll), Answer(inner)).(flag := true)
  {}

  // ------------------------------------------------------------ cancellation, over runs

  /** Neither within a poll nor within the drop of the guard. */
  predicate BetweenPolls(q: Query) {
    q.at.Registered? || q.at.Starting? || q.at.Idle?
  }

  /** After `before`, one cancellation unless there was one, and then nothing but ends. */
  ghost predicate StopsAfter(before: seq<Item>, items: seq<Item>) {
    && before <= items
    && (|items| > |before| ==> items[|before|] == if Cancelled in before then End else Cancelled)
    && forall j :: |before| < j < |items| ==> items[j] == End
  }

  /**
   * A cancellation that reaches a registered query between polls stops it: whatever happens
   * afterwards, the next item is the cancellation, unless there was one, and all others are ends.
   */
  lemma CancelStops(es: seq<Event>, id: QueryId, more: seq<Event>)
    requires var s := Run(INIT, es); id in s.registry && id in s.queries && BetweenPolls(s.queries[id])
    ensures var s, s' := Run(INIT, es), Run(INIT, es + [Event(id, Cancel)] + more);
      id in s'.queries && StopsAfter(s.queries[id].items, s'.queries[id].items)
  {
    hide Run, WillStop;
    var before := Run(INIT, es).queries[id].items;
    CancelWillStop(es, id);
    WillStopStays(es + [Event(id, Cancel)], id, more, before);
    WillStopMeans(Run(INIT, es + [Event(id, Cancel)] + more).queries[id], before);
  }

  /** The next poll after it yields the cancellation, whatever happens in between. */
  lemma CancelSeen(es: seq<Event>, id: QueryId, more: seq<Event>)
    requires var s := Run(INIT, es); id in s.registry && id in s.queries && BetweenPolls(s.queries[id])
    requires Cancelled !in Run(INIT, es).queries[id].items
    requires forall e | e in more && e.id == id :: e.act != Poll
    ensures var s := Run(INIT, es + [Event(id, Cancel)] + more);
      id in s.queries && (s.queries[id].at.Idle? ==>
        var polled := Run(INIT, es + [Event(id, Cancel)] + more + [Event(id, Poll)]);
        && id in polled.queries && polled.queries[id].at.Idle?
        && polled.queries[id].items == Run(INIT, es).queries[id].items + [Cancelled])
  {
    hide Run, WillStop;
    var q := Run(INIT, es).queries[id];
    CancelWillStop(es, id);
    RunsKeepInv(es);
    assert !q.cancelEmitted;
    WillStopStays(es + [Event(id, Cancel)], id, more, q.items);
    WillStopMeans(Run(INIT, es + [Event(id, Cancel)] + more).queries[id], q.items);
    OneMoreEvent(es + [Event(id, Cancel)] + more, Event(id, Poll));
  }

  /** The poll after the cancellation was yielded yields the end, once the guard is dropped. */
  lemma PollAfterCancel(es: seq<Event>, id: QueryId, more: seq<Event>)
    requires id in Run(INIT, es).queries
    requires var q := Run(INIT, es).queries[id]; q.at.Idle? && Cancelled in q.items
    ensures var before, s := Run(INIT, es).queries[id].items, Run(INIT, es + [Event(id, Poll)] + more);
      id in s.queries && (s.queries[id].at.Idle? ==>
        && before + [End] <= s.queries[id].items
        && s.queries[id].guard == None && s.queries[id].slot.Some? && id !in s.registry)
  {
    hide Run, Ending;
    var q := Run(INIT, es).queries[id];
    RunsKeepInv(es);
    OneMoreEvent(es, Event(id, Poll));
    EndingBegins(q);
    EndingStays(es + [Event(id, Poll)], id, more, q.items);
    RunsKeepInv(es + [Event(id, Poll)] + more);
    if Run(INIT, es + [Event(id, Poll)] + more).queries[id].at.Idle? {
      EndingMeans(Run(INIT, es + [Event(id, Poll)] + more), id, q.items);
    }
  }

  /** It takes no more than the three steps of the drop. */
  lemma CancelledEnds(es: seq<Event>, id: QueryId)
    requires id in Run(INIT, es).queries
    requires var q := Run(INIT, es).queries[id]; q.at.Idle? && Cancelled in q.items
    ensures var drop := Event(id, DropStep);
      var s := Run(INIT, es + [Event(id, Poll)] + [drop, drop, drop]);
      id in s.queries && s.queries[id].at.Idle? && s.queries[id].items == Run(INIT, es).queries[id].items + [End]
  {
    hide Run;
    var q := Run(INIT, es).queries[id];
    RunsKeepInv(es);
    assert q.cancelEmitted;
    var drop := Event(id, DropStep);
    var es1 := es + [Event(id, Poll)];
    OneMoreEvent(es, Event(id, Poll));
    OneMoreEvent(es1, drop);
    OneMoreEvent(es1 + [drop], drop);
    OneMoreEvent(es1 + [drop] + [drop], drop);
    assert es1 + [drop] + [drop] + [drop] == es1 + [drop, drop, drop];
  }

  /** A query that no cancellation names never yields one. */
  lemma {:induction false} NeverCancelled(es: seq<Event>, id: QueryId)
    requires forall e | e in es && e.id == id :: e.act != Cancel
    ensures id in Run(INIT, es).queries ==> Cancelled !in Run(INIT, es).queries[id].items
    ensures id in Run(INIT, es).queries ==> !Run(INIT, es).queries[id].flag
    decreases |es|
  {
    hide Inv;
    if es != [] {
      var shorter, e := es[..|es| - 1], es[|es| - 1];
      assert forall x | x in shorter :: x in es;
      assert e in es;
      NeverCancelled(shorter, id);
      var s := Run(INIT, shorter);
      if Enabled(s, e) && e.id == id && id in s.queries {
        hide Run;
        RunsKeepInv(shorter);
        Unflagged(s.queries[id], e.act) by { InvQuery(s, id); }
      }
    }
  }

  lemma InvQuery(s: State, id: QueryId)
    requires Inv(s) && id in s.queries
    ensures QueryOk(s.queries[id])
  {}

  lemma Unflagged(q: Query, act: Act)
    requires QueryOk(q) && CanAct(q, act) && act != Cancel && !q.flag && Cancelled !in q.items
    ensures !After(q, act).flag && Cancelled !in After(q, act).items
  {
    hide TotalRows, CancelsOnce;
  }

  /** An answer of the wrapped stream is what the consumer sees. */
  lemma AnswersShow(es: seq<Event>, id: QueryId, inner: Inner)
    requires id in Run(INIT, es).queries && Run(INIT, es).queries[id].at.Asking?
    requires Run(INIT, es).queries[id].ended ==> inner == InnerEnd
    ensures var s' := Run(INIT, es + [Event(id, Answer(inner))]);
      && id in s'.queries
      && var before, q := Run(INIT, es).queries[id].items, s'.queries[id];
      match inner
      case InnerPending => q.at.Idle? && q.items == before
      case InnerRows(n) => q.at.Idle? && q.items == before + [Rows(n)]
      case InnerError => q.at.Idle? && q.items == before + [Failed]
      case InnerEnd => q.ended && if q.at.Idle? then q.items == before + [End] else q.at.Dropping? && q.items == before
  {
    hide Run;
    OneMoreEvent(es, Event(id, Answer(inner)));
  }

  lemma OneMoreEvent(es: seq<Event>, e: Event)
    ensures var s := Run(INIT, es);
            Run(INIT, es + [e]) == if Enabled(s, e) then Next(s, e) else s
  {
    assert (es + [e])[..|es|] == es;
  }

  /** A cancelled query that has yielded no item yet, or after `before` the cancellation and ends. */
  ghost predicate WillStop(q: Query, before: seq<Item>) {
    && !q.at.Asking? && (q.at.Dropping? && q.at.ends ==> q.cancelEmitted)
    && if q.cancelEmitted then StopsAfter(before, q.items) && Cancelled in q.items
       else q.flag && q.items == before && Cancelled !in before
  }

  lemma WillStopMeans(q: Query, before: seq<Item>)
    requires WillStop(q, before)
    ensures StopsAfter(before, q.items) && !q.at.Asking?
    ensures !q.cancelEmitted ==> q.flag && q.items == before
  {}

  lemma CancelWillStop(es: seq<Event>, id: QueryId)
    requires var s := Run(INIT, es); id in s.registry && id in s.queries && BetweenPolls(s.queries[id])
    ensures var s, s' := Run(INIT, es), Run(INIT, es + [Event(id, Cancel)]);
      && id in s'.queries && WillStop(s'.queries[id], s.queries[id].items)
      && s'.queries[id].cancelEmitted == s.queries[id].cancelEmitted
  {
    hide Run;
    RunsKeepInv(es);
    OneMoreEvent(es, Event(id, Cancel));
  }

  lemma WillStopStep(q: Query, act: Act, before: seq<Item>)
    requires WillStop(q, before) && CanAct(q, act)
    ensures WillStop(After(q, act), before)
    ensures act != Poll ==> After(q, act).cancelEmitted == q.cancelEmitted
  {}

  lemma {:induction false} WillStopStays(es: seq<Event>, id: QueryId, more: seq<Event>, before: seq<Item>)
    requires id in Run(INIT, es).queries && WillStop(Run(INIT, es).queries[id], before)
    ensures var s, s' := Run(INIT, es), Run(INIT, es + more);
      && id in s'.queries && WillStop(s'.queries[id], before)
      && ((forall e | e in more && e.id == id :: e.act != Poll) ==>
            s'.queries[id].cancelEmitted == s.queries[id].cancelEmitted)
    decreases |more|
  {
    hide Run, WillStop, After;
    if more == [] {
      assert es + more == es;
    } else {
      var shorter, e := more[..|more| - 1], more[|more| - 1];
      assert es + more == es + shorter + [e];
      assert e in more && forall x | x in shorter :: x in more;
      WillStopStays(es, id, shorter, before);
      OneMoreEvent(es + shorter, e);
      var s := Run(INIT, es + shorter);
      if Enabled(s, e) && e.id == id && e.act != Register {
        if CanAct(s.queries[id], e.act) {
          WillStopStep(s.queries[id], e.act, before);
        }
      }
    }
  }

  /** The guard of a cancelled query is being dropped, or its end has been yielded after `before`. */
  ghost predicate Ending(q: Query, before: seq<Item>) {
    && q.cancelEmitted && q.guard == None
    && if q.at.Dropping? && q.items == before then q.at.ends
       else (q.at.Idle? || q.at.Gone?) && before + [End] <= q.items
  }

  lemma EndingBegins(q: Query)
    requires QueryOk(q) && q.at.Idle? && Cancelled in q.items
    ensures Ending(After(q, Poll), q.items)
  {}

  lemma EndingStep(q: Query, act: Act, before: seq<Item>)
    requires Ending(q, before) && CanAct(q, act)
    ensures Ending(After(q, act), before)
  {}

  lemma {:induction false} EndingStays(es: seq<Event>, id: QueryId, more: seq<Event>, before: seq<Item>)
    requires id in Run(INIT, es).queries && Ending(Run(INIT, es).queries[id], before)
    ensures var s := Run(INIT, es + more); id in s.queries && Ending(s.queries[id], before)
    decreases |more|
  {
    hide Run, Ending, After;
    if more == [] {
      assert es + more == es;
    } else {
      var shorter, e := more[..|more| - 1], more[|more| - 1];
      assert es + more == es + shorter + [e];
      EndingStays(es, id, shorter, before);
      OneMoreEvent(es + shorter, e);
      var s := Run(INIT, es + shorter);
      if Enabled(s, e) && e.id == id && e.act != Register {
        if CanAct(s.queries[id], e.act) {
          EndingStep(s.queries[id], e.act, before);
        }
      }
    }
  }

  lemma EndingMeans(s: State, id: QueryId, before: seq<Item>)
    requires Inv(s) && id in s.queries && Ending(s.queries[id], before) && s.queries[id].at.Idle?
    ensures before + [End] <= s.queries[id].items
    ensures s.queries[id].guard == None && s.queries[id].slot.Some? && id !in s.registry
  {}

  // ------------------------------------------------------------- the stream as an object

  /** The drop of a guard, from its first step to its last. */
  function DropAll(q: Query): Query {
    if q.at.Dropping? then
      var q1 := Dropped(q);
      var q2 := if q1.at.Dropping? then Dropped(q1) else q1;
      if q2.at.Dropping? then Dropped(q2) else q2
    else q
  }

  /** Giving the guard up for good: its report, the slot unless it is set, and the end. */
  function Settle(q: Query): Query {
    match q.guard
    case None => Yield(q, End)
    case Some(g) =>
      Yield(q.(guard := None, report := Some(g), slot := if q.slot.Some? then q.slot else Some(g.rows),
               fills := q.fills + 1), End)
  }

  lemma ReleaseSettles(q: Query)
    ensures DropAll(Release(q, true)) == Settle(q)
  {}

  lemma NothingDropped()
    ensures forall q: Query | !q.at.Dropping? :: DropAll(q) == q
  {}

  /** A whole poll; with `late`, a cancellation lands after the look at the flag. */
  function WholePoll(q: Query, late: bool, inner: Inner): Query
    requires CanAct(q, Poll) && (q.ended ==> inner == InnerEnd)
  {
    var begun := Begin(q);
    if begun.at.Asking? then
      DropAll(Answered(if late then begun.(flag := true) else begun, inner))
    else DropAll(begun)
  }

  /** The answer of the wrapped stream is passed on and counted; an end takes the guard. */
  predicate Passes(inner: Inner, item: Option<Item>, rows: nat, rows': nat, guard: Option<Guard>, guard': Option<Guard>)
  {
    match inner
    case InnerPending => item == None && rows' == rows && guard' == guard
    case InnerRows(n) => item == Some(Rows(n)) && rows' == rows + n && guard' == guard
    case InnerError => item == Some(Failed) && rows' == rows && guard' == MarkError(guard)
    case InnerEnd => item == Some(End) && rows' == rows && guard' == None
  }

  /** `InstrumentedStream` with its guard and slot. */
  class InstrumentedStream {
    var guard: Option<Guard>
    var rows: nat
    var cancel: bool
    var cancelEmitted: bool
    var slot: Option<nat>
    ghost var ended: bool
    ghost var fills: nat
    ghost var report: Option<Guard>
    ghost var items: seq<Item>

    /** The query between two polls. */
    ghost function Now(): Query
      reads this
    {
      Query(Idle, guard, rows, cancelEmitted, ended, cancel, slot, fills, report, items)
    }

    /** The guard of a started query moves into its stream. */
    constructor (early: Guard)
      ensures Now() == NEW_QUERY.(at := Idle, guard := Some(early))
    {
      guard, rows, cancel, cancelEmitted, slot := Some(early), 0, false, false, None;
      ended, fills, report, items := false, 0, None, [];
    }

    /** Take the guard and drop it. */
    method TakeGuard() returns (dropped: bool)
      modifies this`guard, this`slot, this`fills, this`report
      ensures guard == None && dropped == old(guard).Some?
      ensures dropped ==> fills == old(fills) + 1 && report == old(guard)
      ensures dropped ==> slot == if old(slot).Some? then old(slot) else Some(old(guard).value.rows)
      ensures !dropped ==> fills == old(fills) && slot == old(slot) && report == old(report)
    {
      dropped := guard.Some?;
      if dropped {
        report := guard;
        slot := if slot.Some? then slot else Some(guard.value.rows);
        fills := fills + 1;
        guard := None;
      }
    }

    /** One poll, without other steps between its own but a late cancellation, is the poll of the protocol. */
    method Poll(late: bool, inner: Inner) returns (item: Option<Item>)
      requires ended ==> inner == InnerEnd
      modifies this
      ensures Now() == WholePoll(old(Now()), late, inner)
      ensures items == old(items) + (if item.Some? then [item.value] else [])
      ensures old(cancelEmitted) ==> item == Some(End) && guard == None && cancelEmitted
      ensures !old(cancelEmitted) && old(cancel) ==>
        item == Some(Cancelled) && cancelEmitted && rows == old(rows) && guard == MarkError(old(guard))
      ensures !old(cancelEmitted) && !old(cancel) ==>
        !cancelEmitted && cancel == late && Passes(inner, item, old(rows), rows, old(guard), guard)
    {
      hide DropAll, Release;
      NothingDropped();
      item := None;
      if cancelEmitted {
        ReleaseSettles(Now());
        var dropped := TakeGuard();
        item := Some(End);
      } else if cancel {
        cancelEmitted := true;
        guard := MarkError(guard);
        item := Some(Cancelled);
      } else {
        cancel := cancel || late;
        match inner {
          case InnerPending =>
          case InnerRows(n) =>
            rows := rows + n;
            item := Some(Rows(n));
          case InnerError =>
            guard := MarkError(guard);
            item := Some(Failed);
          case InnerEnd =>
            if guard.Some? {
              guard := Some(guard.value.(rows := rows, ok := true));
            }
            ReleaseSettles(Now().(at := Asking, ended := true));
            var dropped := TakeGuard();
            ended := true;
            item := Some(End);
        }
      }
      if item.Some? {
        items := items + [item.value];
      } else {
        assert items + [] == items;
      }
    }
  }
}
