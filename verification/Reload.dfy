/**
 * Registering, reloading and removing sources (crates/pawrly-engine/src/local.rs), with the background
 * refreshers they own (and those of the rollups, crates/pawrly-engine/src/preagg.rs).
 */
module Reload {
  import opened Prelude

  type Name = string
  type Task = nat

  const ROLLUP_REFRESHER_KEY := "__rollups__"
  const RESERVED: set<Name> := {"materialized", "system"}

  /** A source definition; reloads compare definitions by their serialized form. */
  datatype Def = Def(name: Name, spec: string)
  type Json = string

  datatype Report = Report(added: nat, changed: nat, removed: nat)

  datatype ReloadError = BadConfig | RegistrationFailed(name: Name)

  function Names(defs: seq<Def>): set<Name> {
    if defs == [] then {} else Names(defs[..|defs| - 1]) + {defs[|defs| - 1].name}
  }

  ghost predicate DistinctNames(defs: seq<Def>) {
    forall i, j :: 0 <= i < j < |defs| ==> defs[i].name != defs[j].name
  }

  /** The definitions that differ from the registered ones. */
  function Changed(sources: map<Name, Def>, defs: seq<Def>, json: Def -> Json): set<Name> {
    if defs == [] then {} else
      var last := defs[|defs| - 1];
      Changed(sources, defs[..|defs| - 1], json) + (if Differs(sources, last, json) then {last.name} else {})
  }

  lemma {:induction false} NameListed(defs: seq<Def>, d: Def)
    requires d in defs
    ensures d.name in Names(defs)
  {
    var n := |defs| - 1;
    if d != defs[n] {
      NameListed(defs[..n], d);
    }
  }

  lemma {:induction false} ListedName(defs: seq<Def>, name: Name) returns (d: Def)
    requires name in Names(defs)
    ensures d in defs && d.name == name
  {
    var n := |defs| - 1;
    d := defs[n];
    if d.name != name {
      d := ListedName(defs[..n], name);
    }
  }

  lemma {:induction false} ChangedName(sources: map<Name, Def>, defs: seq<Def>, json: Def -> Json, name: Name)
    returns (d: Def)
    requires name in Changed(sources, defs, json)
    ensures d in defs && d.name == name && Differs(sources, d, json)
  {
    var n := |defs| - 1;
    d := defs[n];
    if !(d.name == name && Differs(sources, d, json)) {
      d := ChangedName(sources, defs[..n], json, name);
    }
  }

  predicate Differs(sources: map<Name, Def>, d: Def, json: Def -> Json) {
    d.name in sources && json(sources[d.name]) != json(d)
  }

  /** What a reload has to report. */
  function Difference(sources: map<Name, Def>, defs: seq<Def>, json: Def -> Json): Report {
    Report(|Names(defs) - sources.Keys|, |Changed(sources, defs, json)|, |sources.Keys - Names(defs)|)
  }

  /** The registered sources are those of the configuration, up to serialization. */
  ghost predicate Matches(sources: map<Name, Def>, defs: seq<Def>, json: Def -> Json) {
    sources.Keys == Names(defs) && InForce(sources, defs, json)
  }

  ghost predicate InForce(sources: map<Name, Def>, defs: seq<Def>, json: Def -> Json) {
    forall d | d in defs :: d.name in sources && json(sources[d.name]) == json(d)
  }

  /** A configuration that is in force leaves nothing to report. */
  lemma MatchingReportsNothing(sources: map<Name, Def>, defs: seq<Def>, json: Def -> Json)
    requires Matches(sources, defs, json)
    ensures Difference(sources, defs, json) == Report(0, 0, 0)
  {
    assert Names(defs) - sources.Keys == {} && sources.Keys - Names(defs) == {};
    assert forall d | d in defs :: !Differs(sources, d, json);
    NoneChanged(sources, defs, json);
  }

  lemma {:induction false} NoneChanged(sources: map<Name, Def>, defs: seq<Def>, json: Def -> Json)
    requires forall d | d in defs :: !Differs(sources, d, json)
    ensures Changed(sources, defs, json) == {}
  {
    hide Differs;
    if defs != [] {
      assert defs[|defs| - 1] in defs;
      assert forall d | d in defs[..|defs| - 1] :: d in defs;
      NoneChanged(sources, defs[..|defs| - 1], json);
    }
  }

  /** The balance of a reload. */
  lemma SourcesBalance(before: map<Name, Def>, after: map<Name, Def>, defs: seq<Def>, json: Def -> Json)
    requires Matches(after, defs, json)
    ensures |after| + Difference(before, defs, json).removed == |before| + Difference(before, defs, json).added
  {
    hide Changed;
    assert |after| == |after.Keys| && |before| == |before.Keys|;
    Balance(after.Keys, before.Keys);
  }

  lemma Balance(a: set<Name>, b: set<Name>)
    ensures |a| + |b - a| == |b| + |a - b|
  {
    assert a == a * b + (a - b) && b == a * b + (b - a);
    assert |a| == |a * b| + |a - b|;
    assert |b| == |a * b| + |b - a|;
  }

  /** All tasks held in some bucket. */
  function Handles(m: map<Name, seq<Task>>): set<Task> {
    set n, t | n in m && t in m[n] :: t
  }

  lemma HandlesPut(m: map<Name, seq<Task>>, n: Name, ts: seq<Task>)
    requires n !in m
    ensures Handles(m[n := ts]) == Handles(m) + Elements(ts)
  {
    var m' := m[n := ts];
    forall t | t in Handles(m) ensures t in Handles(m') {
      var k :| k in m && t in m[k];
      assert k in m' && t in m'[k];
    }
    assert forall t | t in Elements(ts) :: n in m' && t in m'[n];
  }

  /** Each bucket's tasks are its own; what runs is exactly what some bucket of a registered source holds. */
  ghost predicate Owned(sources: set<Name>, refreshers: map<Name, seq<Task>>, live: set<Task>, nextTask: nat) {
    && live == Handles(refreshers)
    && (forall t | t in live :: t < nextTask)
    && (forall m, n | m in refreshers && n in refreshers && m != n ::
          Elements(refreshers[m]) !! Elements(refreshers[n]))
    && (forall n | n in refreshers :: refreshers[n] != [] && (n in sources || n == ROLLUP_REFRESHER_KEY))
  }

  /** The tasks in the bucket of that name. */
  function Bucket(refreshers: map<Name, seq<Task>>, name: Name): seq<Task> {
    if name in refreshers then refreshers[name] else []
  }

  /** Every one of the tasks `brought` is in the bucket. */
  predicate HasTasks(brought: seq<Task>, bucket: seq<Task>) {
    brought == [] || brought == bucket
  }

  /** The sources whose schema is in the catalog and whose bucket has the tasks their registration brought. */
  function ServedOf(schemas: set<Name>, refreshers: map<Name, seq<Task>>, brought: map<Name, seq<Task>>): set<Name> {
    set n | n in schemas && n in brought && HasTasks(brought[n], Bucket(refreshers, n))
  }

  /** Where only one name is touched, only that one can gain or lose its service. */
  lemma ServedElsewhere(schemas: set<Name>, refreshers: map<Name, seq<Task>>,
                        brought: map<Name, seq<Task>>, schemas': set<Name>, refreshers': map<Name, seq<Task>>,
                        brought': map<Name, seq<Task>>, name: Name)
    requires forall k | k != name :: k in schemas <==> k in schemas'
    requires forall k | k != name :: Bucket(refreshers, k) == Bucket(refreshers', k)
    requires forall k | k != name :: (k in brought <==> k in brought') && (k in brought ==> brought[k] == brought'[k])
    ensures var before, after := ServedOf(schemas, refreshers, brought), ServedOf(schemas', refreshers', brought');
      && (name in after ==> after == before + {name}) && (name !in after ==> after == before - {name})
      && after - {name} == before - {name}
  {
    hide Bucket, HasTasks;
  }

  ghost predicate EngineOk(sources: set<Name>, refreshers: map<Name, seq<Task>>, live: set<Task>, unheld: set<Task>,
                           nextTask: nat)
  {
    && Owned(sources, refreshers, live - unheld, nextTask)
    && unheld <= live && forall t | t in unheld :: t < nextTask
  }

  class LocalEngine {
    /** How a definition serializes. */
    const json: Def -> Json
    var sources: map<Name, Def>
    var refreshers: map<Name, seq<Task>>
    var live: set<Task>
    var nextTask: nat
    /** The sources whose schema is complete in the catalog. */
    var schemas: set<Name>
    /** Tasks that run while no bucket holds their handle. */
    ghost var unheld: set<Task>
    /** The tasks each source's last registration brought. */
    ghost var brought: map<Name, seq<Task>>

    ghost predicate Valid()
      reads this
    {
      EngineOk(sources.Keys, refreshers, live, unheld, nextTask) && schemas <= sources.Keys
    }

    ghost function Served(): set<Name>
      reads this
    {
      ServedOf(schemas, refreshers, brought)
    }

    constructor (json: Def -> Json)
      ensures Valid() && this.json == json
      ensures sources == map[] && refreshers == map[] && live == {} && unheld == {} && schemas == {} && nextTask == 0
    {
      this.json := json;
      sources, refreshers, live, nextTask, unheld := map[], map[], {}, 0, {};
      schemas, brought := {}, map[];
    }

    /** Abort and forget the tasks of one bucket. */
    method AbortRefreshers(name: Name)
      requires Valid()
      modifies this`refreshers, this`live
      ensures Valid() && refreshers == old(refreshers) - {name}
      ensures live == old(live) - (if name in old(refreshers) then Elements(old(refreshers)[name]) else {})
    {
      if name in refreshers {
        var handles := refreshers[name];
        HandlesPut(refreshers - {name}, name, handles);
        assert (refreshers - {name})[name := handles] == refreshers;
        forall t | t in Handles(refreshers - {name}) ensures t !in handles {
          var k :| k in refreshers - {name} && t in refreshers[k];
          assert Elements(refreshers[k]) !! Elements(refreshers[name]);
        }
        live := live - Elements(handles);
        refreshers := refreshers - {name};
      } else {
        assert refreshers - {name} == refreshers;
      }
    }

    /** Start a task; until `Hold`, nobody holds it. */
    method SpawnOne() returns (t: Task)
      requires Valid()
      modifies this`live, this`nextTask, this`unheld
      ensures Valid() && t == old(nextTask) && nextTask == t + 1
      ensures live == old(live) + {t} && unheld == old(unheld) + {t} && t !in old(unheld)
    {
      t := nextTask;
      assert live == (live - unheld) + unheld;
      live, unheld, nextTask := live + {t}, unheld + {t}, nextTask + 1;
      assert live - unheld == old(live) - old(unheld);
    }

    /** Put the handles of started tasks in an empty bucket; no handles, no bucket. */
    method Hold(name: Name, spawned: seq<Task>)
      requires Valid() && Elements(spawned) <= unheld
      requires name !in refreshers && (name in sources || name == ROLLUP_REFRESHER_KEY)
      modifies this`refreshers, this`unheld
      ensures Valid() && unheld == old(unheld) - Elements(spawned)
      ensures refreshers == if spawned == [] then old(refreshers) else old(refreshers)[name := spawned]
    {
      if spawned == [] {
        assert unheld - Elements(spawned) == unheld;
        return;
      }
      forall k | k in refreshers ensures Elements(refreshers[k]) !! Elements(spawned) {
        forall t | t in refreshers[k] ensures t !in spawned {
          assert t in Handles(refreshers);
        }
      }
      HandlesPut(refreshers, name, spawned);
      Regroup(live, unheld, Elements(spawned));
      unheld := unheld - Elements(spawned);
      refreshers := refreshers[name := spawned];
    }

    /** Start `n` tasks and hold them. */
    method Spawn(name: Name, n: nat)
      requires Valid() && name !in refreshers && (name in sources || name == ROLLUP_REFRESHER_KEY)
      modifies this`refreshers, this`live, this`nextTask, this`unheld
      ensures Valid() && unheld == old(unheld)
      ensures refreshers.Keys == old(refreshers).Keys + (if n > 0 then {name} else {})
      ensures n > 0 ==> |refreshers[name]| == n
      ensures forall k | k in old(refreshers) :: refreshers[k] == old(refreshers)[k]
    {
      hide Owned, EngineOk;
      var spawned: seq<Task> := [];
      for i := 0 to n
        invariant Valid() && |spawned| == i && refreshers == old(refreshers)
        invariant unheld == old(unheld) + Elements(spawned)
        invariant old(unheld) !! Elements(spawned)
      {
        var t := SpawnOne();
        ElementsPush(spawned, t);
        spawned := spawned + [t];
      }
      Hold(name, spawned);
    }

    /**
     * Drop what an earlier registration left, register, then hold the new background tasks. A
     * failure leaves `sources` as it was, but an earlier registration's schema and tasks are gone.
     */
    method RegisterSource(def: Def, registers: Def -> Option<nat>) returns (ok: bool)
      requires Valid()
      modifies this`sources, this`schemas, this`refreshers, this`live, this`nextTask, this`unheld, this`brought
      ensures Valid() && unheld == old(unheld)
      ensures ok == (def.name != "materialized" && def.name != "system" && registers(def).Some?)
      ensures sources == if ok then old(sources)[def.name := def] else old(sources)
      ensures forall k | k != def.name :: Bucket(refreshers, k) == Bucket(old(refreshers), k)
      ensures ok ==> |Bucket(refreshers, def.name)| == registers(def).value
      ensures brought == if ok then old(brought)[def.name := Bucket(refreshers, def.name)] else old(brought)
      ensures def.name !in RESERVED && !ok ==> def.name !in refreshers
      ensures schemas == if ok then old(schemas) + {def.name} else Without(old(schemas), def.name)
      ensures Served() == if ok then old(Served()) + {def.name} else Without(old(Served()), def.name)
    {
      if def.name in RESERVED {
        return false;
      }
      hide Owned, EngineOk, ServedOf;
      AbortRefreshers(def.name);
      schemas := schemas - {def.name};
      var outcome := registers(def);
      if outcome.None? {
        ServedElsewhere(old(schemas), old(refreshers), old(brought), schemas, refreshers, brought, def.name);
        NotServed(schemas, refreshers, brought, def.name);
        return false;
      }
      ServedElsewhere(old(schemas), old(refreshers), old(brought), schemas, refreshers, brought, def.name);
      Enlist(def, outcome.value);
      return true;
    }

    /** What follows a registration that went through: the schema is there, and `n` tasks are started. */
    method Enlist(def: Def, n: nat)
      requires Valid() && def.name !in refreshers
      modifies this`sources, this`schemas, this`refreshers, this`live, this`nextTask, this`unheld, this`brought
      ensures Valid() && unheld == old(unheld) && sources == old(sources)[def.name := def]
      ensures forall k | k != def.name :: Bucket(refreshers, k) == Bucket(old(refreshers), k)
      ensures |Bucket(refreshers, def.name)| == n && schemas == old(schemas) + {def.name}
      ensures brought == old(brought)[def.name := Bucket(refreshers, def.name)]
      ensures Served() == old(Served()) + {def.name}
    {
      hide Owned, EngineOk, ServedOf;
      MoreSources(sources, def, refreshers, live, unheld, nextTask);
      sources := sources[def.name := def];
      Spawn(def.name, n);
      schemas := schemas + {def.name};
      brought := brought[def.name := Bucket(refreshers, def.name)];
      ServedElsewhere(old(schemas), old(refreshers), old(brought), schemas, refreshers, brought, def.name);
      NowServed(schemas, refreshers, brought, def.name);
    }

    method RemoveSource(name: Name) returns (removed: bool)
      requires Valid()
      modifies this`sources, this`schemas, this`refreshers, this`live
      ensures Valid() && removed == (name in old(sources))
      ensures sources == old(sources) - {name} && refreshers == old(refreshers) - {name}
      ensures schemas == old(schemas) - {name}
      ensures Served() == old(Served()) - {name}
    {
      AbortRefreshers(name);
      removed := name in sources;
      sources := sources - {name};
      if removed {
        schemas := schemas - {name};
      }
      hide ServedOf;
      ServedElsewhere(old(schemas), old(refreshers), brought, schemas, refreshers, brought, name);
      NotServed(schemas, refreshers, brought, name);
    }

    /** Start the refreshers of the rollups, up to the first whose table cannot be registered. */
    method StartRollups(specs: seq<Rollup>) returns (ok: bool, spawned: seq<Task>)
      requires Valid()
      modifies this`live, this`nextTask, this`unheld
      ensures Valid() && ok == (Refused !in specs)
      ensures |spawned| == Refreshing(if ok then specs else UpTo(specs, Refused))
      ensures Added(old(unheld), unheld, spawned)
      ensures forall t | t in spawned :: t >= old(nextTask)
    {
      hide Owned, EngineOk, Refreshing, UpTo, Added;
      spawned := [];
      NoneAdded(unheld);
      NoRollups();
      assert specs[..0] == [];
      for i := 0 to |specs|
        invariant Valid() && Refused !in specs[..i] && |spawned| == Refreshing(specs[..i])
        invariant Added(old(unheld), unheld, spawned)
        invariant nextTask >= old(nextTask) && forall t | t in spawned :: t >= old(nextTask)
      {
        OneMoreRollup(specs, i);
        if specs[i] == Refused {
          return false, spawned;
        }
        if specs[i] == Refreshed {
          var t := SpawnOne();
          assert unheld - {t} + {t} == unheld;
          AddOne(old(unheld), unheld - {t}, spawned, t);
          spawned := spawned + [t];
        }
      }
      assert specs[..|specs|] == specs;
      ok := true;
    }

    /**
     * Replace the rollup tasks; without rollups nothing changes. A table that cannot be registered
     * ends it early, and the tasks started before that run on with nobody to hold them. The bucket
     * has a name that a source may have too, and then that source loses its tasks.
     */
    method RegisterRollups(specs: seq<Rollup>) returns (ok: bool)
      requires Valid()
      modifies this`refreshers, this`live, this`nextTask, this`unheld
      ensures Valid() && ok == (Refused !in specs)
      ensures old(unheld) <= unheld
      ensures |unheld - old(unheld)| == if ok then 0 else Refreshing(UpTo(specs, Refused))
      ensures forall k | k != ROLLUP_REFRESHER_KEY :: Bucket(refreshers, k) == Bucket(old(refreshers), k)
      ensures SourcesKeep(sources.Keys, old(refreshers), refreshers) <==>
        specs == [] || !(ROLLUP_REFRESHER_KEY in sources && ROLLUP_REFRESHER_KEY in old(refreshers))
      ensures Served() - {ROLLUP_REFRESHER_KEY} == old(Served()) - {ROLLUP_REFRESHER_KEY}
      ensures specs == [] ==> refreshers == old(refreshers)
      ensures specs != [] && ok ==> (ROLLUP_REFRESHER_KEY in refreshers <==> Refreshed in specs)
      ensures specs != [] && !ok ==> ROLLUP_REFRESHER_KEY !in refreshers
    {
      hide Owned, EngineOk, Refreshing, UpTo, Added, SourcesKeep, ServedOf, Bucket;
      ghost var first, before := nextTask, refreshers;
      BucketsOld(sources.Keys, refreshers, live, unheld, first);
      if specs == [] {
        assert unheld - old(unheld) == {};
        return true;
      }
      AbortRefreshers(ROLLUP_REFRESHER_KEY);
      var spawned;
      ok, spawned := StartRollups(specs);
      AddedAway(old(unheld), unheld, spawned);
      if ok {
        RefreshingSome(specs);
        Hold(ROLLUP_REFRESHER_KEY, spawned);
      }
      BucketReplaced(sources.Keys, before, refreshers, first, if ok then spawned else []);
      ServedElsewhere(schemas, before, brought, schemas, refreshers, brought, ROLLUP_REFRESHER_KEY);
    }

    /**
     * A reload succeeds exactly when the configuration loads and every definition in it is in force
     * already or can be registered; the map of sources is then that configuration, and the report
     * the difference. Its sources are all served, with their schemas and tasks, if and only if those
     * it kept were: an earlier failure may have left a kept one without, and this is not repaired.
     * Otherwise the reload names the first definition that failed. Whether it succeeds or not, it
     * leaves no task running that nobody holds.
     */
    method ReloadConfig(loaded: Option<seq<Def>>, registers: Def -> Option<nat>)
      returns (r: Result<Report, ReloadError>)
      requires Valid()
      requires loaded.Some? ==> DistinctNames(loaded.value)
      modifies this`sources, this`schemas, this`refreshers, this`live, this`nextTask, this`unheld, this`brought
      ensures Valid() && unheld == old(unheld)
      ensures r.Ok? <==> loaded.Some? && AllWork(old(sources), loaded.value, json, registers)
      ensures loaded == None ==> r == Err(BadConfig) && sources == old(sources) && refreshers == old(refreshers)
      ensures loaded.Some? && r.Err? ==> r.error.RegistrationFailed?
      ensures loaded.Some? && r.Err? ==>
        Stopped(old(sources), sources, old(Served()), Served(), loaded.value, json, registers, r.error.name)
      ensures loaded.Some? && r.Err? && r.error.name !in RESERVED ==>
        r.error.name !in schemas && r.error.name !in refreshers
      ensures r.Ok? ==> Matches(sources, loaded.value, json)
      ensures r.Ok? ==>
        Served() == old(Served()) + Anew(old(sources), loaded.value, json) - (old(sources).Keys - Names(loaded.value))
      ensures r.Ok? ==>
        (Names(loaded.value) <= Served() <==> KeptServed(old(sources), old(Served()), loaded.value, json))
      ensures r.Ok? ==> r.value == Difference(old(sources), loaded.value, json)
      ensures r.Ok? ==> |sources| == |old(sources)| + r.value.added - r.value.removed
      ensures r.Ok? && Matches(old(sources), loaded.value, json) ==>
        sources == old(sources) && schemas == old(schemas) && refreshers == old(refreshers) && live == old(live)
    {
      hide AllWork, Stopped, Matches, Difference, Removed, Owned, EngineOk, ServedOf, KeptServed, Anew;
      ghost var served := Served();
      if loaded == None {
        return Err(BadConfig);
      }
      var defs := loaded.value;
      var current := sources;
      MatchesInForce(current, defs, json);
      var added, changed, failed := RegisterNew(current, defs, registers);
      if failed.Some? {
        StoppedFails(current, sources, served, Served(), defs, json, registers, failed.value);
        return Err(RegistrationFailed(failed.value));
      }
      ProgressMeans(current, sources, defs, json, added, changed);
      ghost var registered := sources;
      var removed := RemoveMissing(current, defs);
      DifferenceIs(current, defs, json, added, changed, removed);
      AllRemoved(registered, sources, current.Keys - Names(defs), removed);
      NothingMissing(current, registered, defs, json);
      SourcesBalance(current, sources, defs, json);
      ServedExactly(current, served, Served(), defs, json);
      return Ok(Report(added, changed, removed));
    }

    /** A reload right after a successful one, with the same configuration, finds nothing to do. */
    method ReloadTwice(defs: seq<Def>, registers: Def -> Option<nat>, registers': Def -> Option<nat>)
      returns (first: Result<Report, ReloadError>, second: Result<Report, ReloadError>)
      requires Valid() && DistinctNames(defs)
      modifies this`sources, this`schemas, this`refreshers, this`live, this`nextTask, this`unheld, this`brought
      ensures Valid() && (first.Ok? ==> second == Ok(Report(0, 0, 0)) && Matches(sources, defs, json))
    {
      hide AllWork, Difference, Stopped, Owned, EngineOk;
      first := ReloadConfig(Some(defs), registers);
      if first.Ok? {
        MatchingReportsNothing(sources, defs, json);
        MatchingWorks(sources, defs, json, registers');
      }
      second := ReloadConfig(Some(defs), registers');
    }

    /** Bring one definition into force; what is in force already is left alone. */
    method ApplyDef(current: map<Name, Def>, def: Def, registers: Def -> Option<nat>) returns (outcome: Outcome)
      requires Valid() && (def.name in current <==> def.name in sources)
      requires def.name in current ==> sources[def.name] == current[def.name]
      modifies this`sources, this`schemas, this`refreshers, this`live, this`nextTask, this`unheld, this`brought
      ensures Valid() && unheld == old(unheld)
      ensures outcome == Fails <==> !Works(current, def, json, registers)
      ensures outcome == Fails ==> sources == old(sources)
      ensures outcome == Fails && def.name !in RESERVED ==> def.name !in schemas && def.name !in refreshers
      ensures outcome != Fails ==> Applied(current, old(sources), sources, def, json, outcome)
      ensures outcome == Keeps ==>
        sources == old(sources) && schemas == old(schemas) && refreshers == old(refreshers) && live == old(live)
      ensures Served() == match outcome
                          case Keeps => old(Served())
                          case Fails => Without(old(Served()), def.name)
                          case _ => old(Served()) + {def.name}
    {
      hide Owned, EngineOk, ServedOf;
      if def.name !in current {
        var ok := RegisterSource(def, registers);
        outcome := if ok then Adds else Fails;
      } else if json(current[def.name]) != json(def) {
        var ok := RegisterSource(def, registers);
        outcome := if ok then Changes else Fails;
      } else {
        outcome := Keeps;
      }
    }

    /** Register what is new or differs from the snapshot `current`, up to the first failure. */
    method RegisterNew(current: map<Name, Def>, defs: seq<Def>, registers: Def -> Option<nat>)
      returns (added: nat, changed: nat, failed: Option<Name>)
      requires Valid() && sources == current && DistinctNames(defs)
      modifies this`sources, this`schemas, this`refreshers, this`live, this`nextTask, this`unheld, this`brought
      ensures Valid() && unheld == old(unheld)
      ensures failed == None ==> AllWork(current, defs, json, registers)
      ensures failed == None ==> Progress(current, sources, defs, json, added, changed)
      ensures failed == None ==> Served() == old(Served()) + Anew(current, defs, json)
      ensures failed.Some? ==>
        Stopped(current, sources, old(Served()), Served(), defs, json, registers, failed.value)
      ensures failed.Some? && failed.value !in RESERVED ==> failed.value !in schemas && failed.value !in refreshers
      ensures InForce(current, defs, json) ==>
        failed == None && sources == old(sources) && (schemas, refreshers, live) == old((schemas, refreshers, live))
    {
      hide Progress, Applied, Owned, EngineOk, Works, InForce, ServedOf, Anew, Without, Stopped, DistinctNames, AllWork;
      ghost var served := Served();
      NoneAnew(current, json);
      added, changed, failed := 0, 0, None;
      NoProgress(current, json);
      NoWork(current, json, registers);
      assert defs[..0] == [];
      for i := 0 to |defs|
        invariant Valid() && unheld == old(unheld) && Progress(current, sources, defs[..i], json, added, changed)
        invariant AllWork(current, defs[..i], json, registers)
        invariant Served() == served + Anew(current, defs[..i], json)
        invariant InForce(current, defs, json) ==>
          sources == old(sources) && (schemas, refreshers, live) == old((schemas, refreshers, live))
      {
        ghost var before := sources;
        NotYetNamed(defs, i);
        StillCurrent(current, sources, defs[..i], json, added, changed, defs[i].name);
        var outcome := ApplyDef(current, defs[i], registers);
        InForceKeeps(current, before, sources, defs, i, json, registers, outcome);
        if outcome == Fails {
          StoppedNow(current, sources, served, Served(), defs, json, registers, i, added, changed);
          return added, changed, Some(defs[i].name);
        }
        MoreWork(current, defs, i, json, registers);
        MoreProgress(current, before, sources, defs, i, json, added, changed, outcome);
        AnewOneMore(current, before, sources, defs, i, json, outcome, served);
        added := added + (if outcome == Adds then 1 else 0);
        changed := changed + (if outcome == Changes then 1 else 0);
      }
      assert defs[..|defs|] == defs;
    }

    /** Remove the sources of the snapshot that the configuration no longer names. */
    method RemoveMissing(current: map<Name, Def>, defs: seq<Def>) returns (removed: nat)
      requires Valid() && sources.Keys == current.Keys + Names(defs)
      requires InForce(sources, defs, json)
      modifies this`sources, this`schemas, this`refreshers, this`live
      ensures Valid() && Matches(sources, defs, json)
      ensures removed == |current.Keys - Names(defs)|
      ensures Removed(old(sources), sources, current.Keys - Names(defs), {}, removed)
      ensures Untouched(removed, old((schemas, refreshers, live)), (schemas, refreshers, live))
      ensures Served() == old(Served()) - (current.Keys - Names(defs))
    {
      hide Names, InForce, Owned, EngineOk, Removed, Untouched, ServedOf;
      var todo := current.Keys - Names(defs);
      ghost var missing, served := todo, Served();
      removed := 0;
      ghost var before := (schemas, refreshers, live);
      TouchedNot(before);
      NoneRemoved(sources, todo);
      while todo != {}
        invariant Valid() && Removed(old(sources), sources, current.Keys - Names(defs), todo, removed)
        invariant Untouched(removed, before, (schemas, refreshers, live))
        invariant todo <= missing && Served() == served - (missing - todo)
        decreases todo
      {
        var name :| name in todo;
        OneRemoved(old(sources), sources, current.Keys - Names(defs), todo, removed, name);
        var was := RemoveSource(name);
        removed := removed + (if was then 1 else 0);
        TouchedNow(removed, before, (schemas, refreshers, live));
        LessOne(served, missing, todo, name);
        todo := todo - {name};
      }
      AllRemoved(old(sources), sources, current.Keys - Names(defs), removed);
      assert missing - {} == missing;
      OnlyNamed(old(sources), sources, current.Keys, defs, json);
    }
  }

  // ----------------------------------------------------------- which sources are served

  /** A failed registration costs the service, unless the name was refused to begin with. */
  function Without(served: set<Name>, name: Name): set<Name> {
    if name in RESERVED then served else served - {name}
  }

  lemma NotServed(schemas: set<Name>, refreshers: map<Name, seq<Task>>, brought: map<Name, seq<Task>>, name: Name)
    requires name !in schemas
    ensures name !in ServedOf(schemas, refreshers, brought)
  {}

  lemma TasksGone(schemas: set<Name>, refreshers: map<Name, seq<Task>>, brought: map<Name, seq<Task>>, name: Name)
    requires name in brought && brought[name] != [] && name !in refreshers
    ensures name !in ServedOf(schemas, refreshers, brought)
  {}

  lemma NowServed(schemas: set<Name>, refreshers: map<Name, seq<Task>>, brought: map<Name, seq<Task>>, name: Name)
    requires name in schemas && name in brought && HasTasks(brought[name], Bucket(refreshers, name))
    ensures name in ServedOf(schemas, refreshers, brought)
  {}

  lemma MoreSources(sources: map<Name, Def>, def: Def, refreshers: map<Name, seq<Task>>, live: set<Task>,
                    unheld: set<Task>, nextTask: nat)
    requires EngineOk(sources.Keys, refreshers, live, unheld, nextTask)
    ensures EngineOk(sources[def.name := def].Keys, refreshers, live, unheld, nextTask)
  {}

  /** The names a reload registers: the new ones and the changed ones. */
  function Anew(current: map<Name, Def>, defs: seq<Def>, json: Def -> Json): set<Name> {
    (Names(defs) - current.Keys) + Changed(current, defs, json)
  }

  lemma NoneAnew(current: map<Name, Def>, json: Def -> Json)
    ensures Anew(current, [], json) == {}
  {}

  lemma AnewOneMore(current: map<Name, Def>, before: map<Name, Def>, after: map<Name, Def>, defs: seq<Def>, i: nat,
                    json: Def -> Json, outcome: Outcome, served: set<Name>)
    requires i < |defs| && Applied(current, before, after, defs[i], json, outcome) && outcome != Fails
    ensures var before, after := served + Anew(current, defs[..i], json), served + Anew(current, defs[..i + 1], json);
      after == if outcome == Keeps then before else before + {defs[i].name}
  {
    assert defs[..i + 1][..i] == defs[..i];
  }

  /** The definition stays as it is: it is registered and serializes the same. */
  predicate IsKept(current: map<Name, Def>, d: Def, json: Def -> Json) {
    d.name in current && json(current[d.name]) == json(d)
  }

  /** No kept definition had lost its schema or its tasks. */
  ghost predicate KeptServed(current: map<Name, Def>, served: set<Name>, defs: seq<Def>, json: Def -> Json) {
    forall d | d in defs && IsKept(current, d, json) :: d.name in served
  }

  lemma {:induction false} DiffersChanged(current: map<Name, Def>, defs: seq<Def>, json: Def -> Json, d: Def)
    requires d in defs && Differs(current, d, json)
    ensures d.name in Changed(current, defs, json)
  {
    var n := |defs| - 1;
    if d != defs[n] {
      assert d in defs[..n];
      DiffersChanged(current, defs[..n], json, d);
    }
  }

  /** Names identify definitions. */
  lemma SameDef(defs: seq<Def>, x: Def, y: Def)
    requires DistinctNames(defs) && x in defs && y in defs
    ensures x.name == y.name ==> x == y
  {
    var i :| 0 <= i < |defs| && defs[i] == x;
    var j :| 0 <= j < |defs| && defs[j] == y;
    assert i < j || j < i || i == j;
  }

  lemma KeptNotAnew(current: map<Name, Def>, defs: seq<Def>, json: Def -> Json, d: Def)
    requires DistinctNames(defs) && d in defs && IsKept(current, d, json)
    ensures d.name !in Anew(current, defs, json)
  {
    if d.name in Changed(current, defs, json) {
      var x := ChangedName(current, defs, json, d.name);
      SameDef(defs, x, d);
    }
  }

  /** After a reload every configured source is served exactly when no kept one had lost its service. */
  lemma ServedExactly(current: map<Name, Def>, served: set<Name>, served': set<Name>, defs: seq<Def>,
                      json: Def -> Json)
    requires DistinctNames(defs)
    requires served' == served + Anew(current, defs, json) - (current.Keys - Names(defs))
    ensures Names(defs) <= served' <==> KeptServed(current, served, defs, json)
  {
    hide Changed, Names;
    if Names(defs) <= served' {
      forall d | d in defs && IsKept(current, d, json) ensures d.name in served {
        NameListed(defs, d);
        KeptNotAnew(current, defs, json, d);
      }
    }
    if KeptServed(current, served, defs, json) {
      forall n | n in Names(defs) ensures n in served' {
        var d := ListedName(defs, n);
        if !IsKept(current, d, json) && n in current {
          DiffersChanged(current, defs, json, d);
        }
      }
    }
  }

  lemma LessOne(served: set<Name>, missing: set<Name>, todo: set<Name>, name: Name)
    requires name in todo && todo <= missing
    ensures served - (missing - todo) - {name} == served - (missing - (todo - {name}))
  {}

  /**
   * The input: a source is registered, a reload with another definition of it fails, and a reload
   * with the old one succeeds, since it is still registered, and reports nothing to do. The source
   * then has neither schema nor tasks, though its registration would have brought both.
   */
  method LostByFailure(json: Def -> Json, d1: Def, d2: Def)
    returns (e: LocalEngine, r1: Result<Report, ReloadError>, r2: Result<Report, ReloadError>)
    requires d1.name == d2.name && d1.name !in RESERVED && json(d1) != json(d2)
    ensures r1 == Err(RegistrationFailed(d2.name)) && r2 == Ok(Report(0, 0, 0))
    ensures e.Valid() && e.sources == map[d1.name := d1] && d1.name !in e.schemas && d1.name !in e.refreshers
  {
    hide Owned, EngineOk, ServedOf, Difference, Matches, KeptServed, Stopped, Anew, AllWork;
    e := new LocalEngine(json);
    var registers := (d: Def) => if d == d1 then Some(1) else None;
    var ok := e.RegisterSource(d1, registers);
    ghost var before := e.Served();
    assert e.sources == map[d1.name := d1];
    CannotWork(d1, d2, json, registers);
    r1 := e.ReloadConfig(Some([d2]), registers);
    StoppedAlone(map[d1.name := d1], e.sources, before, e.Served(), d2, json, registers, r1.error.name);
    InForceAlone(d1, json);
    MatchingReportsNothing(e.sources, [d1], json);
    MatchingWorks(e.sources, [d1], json, registers);
    r2 := e.ReloadConfig(Some([d1]), registers);
  }

  lemma CannotWork(d1: Def, d2: Def, json: Def -> Json, registers: Def -> Option<nat>)
    requires d1.name == d2.name && json(d1) != json(d2) && registers(d2) == None
    ensures !AllWork(map[d1.name := d1], [d2], json, registers)
  {
    assert d2 in [d2];
  }

  lemma StoppedAlone(current: map<Name, Def>, sources: map<Name, Def>, before: set<Name>, after: set<Name>, d: Def,
                     json: Def -> Json, registers: Def -> Option<nat>, name: Name)
    requires Stopped(current, sources, before, after, [d], json, registers, name)
    ensures name == d.name && sources == current
  {
    hide FailsAt, Anew, Without;
    assert [d][..0] == [];
  }

  lemma InForceAlone(d: Def, json: Def -> Json)
    ensures Matches(map[d.name := d], [d], json) && DistinctNames([d])
  {
    assert Names([d][..0]) == {};
  }

  // ------------------------------------------------------------- when a reload fails

  /** Registration itself can go through. */
  predicate Registers(d: Def, registers: Def -> Option<nat>) {
    d.name !in RESERVED && registers(d).Some?
  }

  /** A reload gets past the definition: it is in force already, or it registers. */
  predicate Works(current: map<Name, Def>, d: Def, json: Def -> Json, registers: Def -> Option<nat>) {
    (d.name in current && json(current[d.name]) == json(d)) || Registers(d, registers)
  }

  ghost predicate AllWork(current: map<Name, Def>, defs: seq<Def>, json: Def -> Json,
                          registers: Def -> Option<nat>)
  {
    forall d | d in defs :: Works(current, d, json, registers)
  }

  lemma NoWork(current: map<Name, Def>, json: Def -> Json, registers: Def -> Option<nat>)
    ensures AllWork(current, [], json, registers)
  {}

  lemma MoreWork(current: map<Name, Def>, defs: seq<Def>, i: nat, json: Def -> Json, registers: Def -> Option<nat>)
    requires i < |defs| && AllWork(current, defs[..i], json, registers) && Works(current, defs[i], json, registers)
    ensures AllWork(current, defs[..i + 1], json, registers)
  {
    hide Works;
    OneLonger(defs, i);
  }

  ghost predicate FailsAt(current: map<Name, Def>, defs: seq<Def>, json: Def -> Json, registers: Def -> Option<nat>,
                          i: nat)
  {
    i < |defs| && !Works(current, defs[i], json, registers) && AllWork(current, defs[..i], json, registers)
  }

  /**
   * `name` is the first definition a reload does not get past. Those before it are in force, every
   * other source is as it was, and the one that failed has lost its service.
   */
  ghost predicate Stopped(current: map<Name, Def>, sources: map<Name, Def>, before: set<Name>, after: set<Name>,
                          defs: seq<Def>, json: Def -> Json, registers: Def -> Option<nat>, name: Name)
  {
    exists i :: 0 <= i < |defs| && FailsAt(current, defs, json, registers, i) && defs[i].name == name
      && Extends(current, sources, defs[..i], json)
      && after == Without(before + Anew(current, defs[..i], json), name)
  }

  lemma StoppedNow(current: map<Name, Def>, sources: map<Name, Def>, before: set<Name>, after: set<Name>,
                   defs: seq<Def>, json: Def -> Json, registers: Def -> Option<nat>, i: nat, added: nat, changed: nat)
    requires FailsAt(current, defs, json, registers, i) && Progress(current, sources, defs[..i], json, added, changed)
    requires after == Without(before + Anew(current, defs[..i], json), defs[i].name)
    ensures Stopped(current, sources, before, after, defs, json, registers, defs[i].name)
  {
    hide Works, AllWork, Extends, Anew, Without;
  }

  lemma StoppedFails(current: map<Name, Def>, sources: map<Name, Def>, before: set<Name>, after: set<Name>,
                     defs: seq<Def>, json: Def -> Json, registers: Def -> Option<nat>, name: Name)
    requires Stopped(current, sources, before, after, defs, json, registers, name)
    ensures !AllWork(current, defs, json, registers)
  {
    hide Works, Extends, Anew, Without;
    var i :| 0 <= i < |defs| && FailsAt(current, defs, json, registers, i) && defs[i].name == name;
    assert defs[i] in defs;
  }

  /** A configuration in force already cannot fail to reload. */
  lemma MatchingWorks(sources: map<Name, Def>, defs: seq<Def>, json: Def -> Json, registers: Def -> Option<nat>)
    requires Matches(sources, defs, json)
    ensures AllWork(sources, defs, json, registers)
  {}

  lemma MatchesInForce(sources: map<Name, Def>, defs: seq<Def>, json: Def -> Json)
    ensures Matches(sources, defs, json) <==> InForce(sources, defs, json) && sources.Keys == Names(defs)
  {}

  lemma InForceKeeps(current: map<Name, Def>, before: map<Name, Def>, after: map<Name, Def>, defs: seq<Def>, i: nat,
                     json: Def -> Json, registers: Def -> Option<nat>, outcome: Outcome)
    requires i < |defs|
    requires outcome == Fails <==> !Works(current, defs[i], json, registers)
    requires outcome != Fails ==> Applied(current, before, after, defs[i], json, outcome)
    ensures InForce(current, defs, json) ==> outcome == Keeps
  {
    assert defs[i] in defs;
  }

  lemma ProgressMeans(current: map<Name, Def>, sources: map<Name, Def>, done: seq<Def>, json: Def -> Json,
                      added: nat, changed: nat)
    requires Progress(current, sources, done, json, added, changed)
    ensures sources.Keys == current.Keys + Names(done) && InForce(sources, done, json)
    ensures added == |Names(done) - current.Keys| && changed == |Changed(current, done, json)|
  {}

  lemma NothingMissing(current: map<Name, Def>, before: map<Name, Def>, defs: seq<Def>, json: Def -> Json)
    ensures Matches(current, defs, json) ==>
      |current.Keys - Names(defs)| == 0 && before - (current.Keys - Names(defs)) == before
  {
    if Matches(current, defs, json) {
      assert current.Keys - Names(defs) == {};
      assert before - {} == before;
    }
  }

  lemma DifferenceIs(current: map<Name, Def>, defs: seq<Def>, json: Def -> Json,
                     added: nat, changed: nat, removed: nat)
    requires added == |Names(defs) - current.Keys| && changed == |Changed(current, defs, json)|
    requires removed == |current.Keys - Names(defs)|
    ensures Difference(current, defs, json) == Report(added, changed, removed)
  {}

  // --------------------------------------------------------------------- the rollups

  /** Every source that has a bucket keeps it as it is. */
  ghost predicate SourcesKeep(sources: set<Name>, before: map<Name, seq<Task>>, after: map<Name, seq<Task>>) {
    forall k | k in sources && k in before :: k in after && after[k] == before[k]
  }

  /** No bucket is empty, and its tasks were started before now. */
  lemma BucketsOld(sources: set<Name>, refreshers: map<Name, seq<Task>>, live: set<Task>, unheld: set<Task>,
                   nextTask: nat)
    requires EngineOk(sources, refreshers, live, unheld, nextTask)
    ensures SourcesKeep(sources, refreshers, refreshers)
    ensures forall k | k in refreshers :: refreshers[k] != [] && refreshers[k][0] < nextTask
  {
    forall k | k in refreshers ensures refreshers[k] != [] && refreshers[k][0] < nextTask {
      assert k in refreshers && refreshers[k][0] in refreshers[k];
      assert refreshers[k][0] in Handles(refreshers);
    }
  }

  /** The rollups' bucket has other tasks than before, or none. */
  lemma BucketReplaced(sources: set<Name>, before: map<Name, seq<Task>>, after: map<Name, seq<Task>>, first: nat,
                       spawned: seq<Task>)
    requires forall k | k in before :: before[k] != [] && before[k][0] < first
    requires forall t | t in spawned :: t >= first
    requires after == if spawned == [] then before - {ROLLUP_REFRESHER_KEY}
                      else (before - {ROLLUP_REFRESHER_KEY})[ROLLUP_REFRESHER_KEY := spawned]
    ensures forall k | k != ROLLUP_REFRESHER_KEY :: Bucket(after, k) == Bucket(before, k)
    ensures SourcesKeep(sources, before, after) <==>
            !(ROLLUP_REFRESHER_KEY in sources && ROLLUP_REFRESHER_KEY in before)
  {
    if ROLLUP_REFRESHER_KEY in sources && ROLLUP_REFRESHER_KEY in before && spawned != [] {
      assert spawned[0] in spawned;
      assert after[ROLLUP_REFRESHER_KEY][0] != before[ROLLUP_REFRESHER_KEY][0];
    }
  }

  /** The input: a source of that name is registered with a task, and loses it to the first rollup. */
  method SharedBucket(json: Def -> Json, d: Def) returns (e: LocalEngine)
    requires d.name == "__rollups__"
    ensures e.Valid() && e.sources == map[d.name := d] && d.name !in e.refreshers && d.name !in e.Served()
  {
    hide Owned, EngineOk, ServedOf, SourcesKeep, UpTo, Refreshing;
    e := new LocalEngine(json);
    var ok := e.RegisterSource(d, _ => Some(1));
    assert d.name in e.brought && e.brought[d.name] != [];
    assert Refused !in [Plain] && Refreshed !in [Plain];
    ok := e.RegisterRollups([Plain]);
    TasksGone(e.schemas, e.refreshers, e.brought, d.name);
  }

  /** What becomes of one rollup: it cannot be planned, its table is refused, or it is registered. */
  datatype Rollup = Skipped | Refused | Plain | Refreshed

  function Refreshing(specs: seq<Rollup>): nat {
    if specs == [] then 0 else
      Refreshing(specs[..|specs| - 1]) + (if specs[|specs| - 1] == Refreshed then 1 else 0)
  }

  /** The rollups before the first that comes out as `x`. */
  function UpTo(specs: seq<Rollup>, x: Rollup): seq<Rollup> {
    if specs == [] || specs[0] == x then [] else [specs[0]] + UpTo(specs[1..], x)
  }

  lemma {:induction false} UpToFirst(specs: seq<Rollup>, i: nat)
    requires i < |specs| && specs[i] == Refused && Refused !in specs[..i]
    ensures UpTo(specs, Refused) == specs[..i]
  {
    if i > 0 {
      assert specs[..i][0] == specs[0];
      assert specs[1..][..i - 1] == specs[..i][1..];
      assert forall x | x in specs[..i][1..] :: x in specs[..i];
      UpToFirst(specs[1..], i - 1);
      assert specs[..i] == [specs[0]] + specs[1..][..i - 1];
    }
  }

  lemma {:induction false} RefreshingSome(specs: seq<Rollup>)
    ensures Refreshing(specs) > 0 <==> Refreshed in specs
  {
    if specs != [] {
      var n := |specs| - 1;
      RefreshingSome(specs[..n]);
      assert specs == specs[..n] + [specs[n]];
    }
  }

  /** What comes of the next rollup. */
  lemma OneMoreRollup(specs: seq<Rollup>, i: nat)
    requires i < |specs| && Refused !in specs[..i]
    ensures Refused in specs[..i + 1] <==> specs[i] == Refused
    ensures Refreshing(specs[..i + 1]) == Refreshing(specs[..i]) + (if specs[i] == Refreshed then 1 else 0)
    ensures specs[i] == Refused ==> Refused in specs && UpTo(specs, Refused) == specs[..i]
  {
    assert specs[..i + 1] == specs[..i] + [specs[i]];
    assert specs[..i + 1][..i] == specs[..i];
    if specs[i] == Refused {
      UpToFirst(specs, i);
    }
  }

  /** The tasks in `spawned`, each once, are what `after` has over `before`. */
  ghost predicate Added(before: set<Task>, after: set<Task>, spawned: seq<Task>) {
    && after == before + Elements(spawned) && before !! Elements(spawned)
    && |after - before| == |spawned|
  }

  lemma AddOne(before: set<Task>, after: set<Task>, spawned: seq<Task>, t: Task)
    requires Added(before, after, spawned) && t !in after
    ensures Added(before, after + {t}, spawned + [t])
  {
    ElementsPush(spawned, t);
    assert after + {t} - before == after - before + {t};
  }

  lemma NoneAdded(before: set<Task>)
    ensures Added(before, before, [])
  {
    assert Elements<Task>([]) == {} && before - before == {};
  }

  lemma NoRollups()
    ensures Refreshing([]) == 0
  {}

  lemma AddedAway(before: set<Task>, after: set<Task>, spawned: seq<Task>)
    requires Added(before, after, spawned)
    ensures Elements(spawned) <= after && after - Elements(spawned) == before && |before - before| == 0
    ensures before <= after && |after - before| == |spawned|
  {
    assert before - before == {};
  }

  lemma Regroup(a: set<Task>, b: set<Task>, c: set<Task>)
    requires c <= b <= a
    ensures a - (b - c) == (a - b) + c
  {}

  lemma ElementsPush(ts: seq<Task>, t: Task)
    ensures Elements(ts + [t]) == Elements(ts) + {t}
  {
    assert forall x :: x in ts + [t] <==> x in ts || x == t;
  }

  // ------------------------------------------------------------- the loops of a reload

  datatype Outcome = Keeps | Adds | Changes | Fails

  /** The definition `d` came into force, and the outcome tells what that took. */
  ghost predicate Applied(current: map<Name, Def>, before: map<Name, Def>, after: map<Name, Def>, d: Def,
                          json: Def -> Json, outcome: Outcome)
  {
    && after.Keys == before.Keys + {d.name} && json(after[d.name]) == json(d)
    && (forall k | k in before && k != d.name :: after[k] == before[k])
    && (outcome == Adds <==> d.name !in current)
    && (outcome == Changes <==> Differs(current, d, json))
  }

  /** The definitions `done` are in force over the snapshot. */
  ghost predicate Extends(current: map<Name, Def>, sources: map<Name, Def>, done: seq<Def>, json: Def -> Json) {
    && sources.Keys == current.Keys + Names(done)
    && InForce(sources, done, json)
    && forall n | n in current && n !in Names(done) :: sources[n] == current[n]
  }

  /** The definitions `done` are in force over the snapshot, and the counters tell what that took. */
  ghost predicate Progress(current: map<Name, Def>, sources: map<Name, Def>, done: seq<Def>, json: Def -> Json,
                           added: nat, changed: nat)
  {
    && Extends(current, sources, done, json)
    && added == |Names(done) - current.Keys|
    && changed == |Changed(current, done, json)|
  }

  lemma NoProgress(current: map<Name, Def>, json: Def -> Json)
    ensures Progress(current, current, [], json, 0, 0)
  {}

  lemma StillCurrent(current: map<Name, Def>, sources: map<Name, Def>, done: seq<Def>, json: Def -> Json,
                     added: nat, changed: nat, name: Name)
    requires Progress(current, sources, done, json, added, changed) && name !in Names(done)
    ensures name in current <==> name in sources
    ensures name in current ==> sources[name] == current[name]
  {}

  lemma MoreProgress(current: map<Name, Def>, before: map<Name, Def>, after: map<Name, Def>, defs: seq<Def>, i: nat,
                     json: Def -> Json, added: nat, changed: nat, outcome: Outcome)
    requires i < |defs| && DistinctNames(defs)
    requires Progress(current, before, defs[..i], json, added, changed)
    requires Applied(current, before, after, defs[i], json, outcome)
    ensures Progress(current, after, defs[..i + 1], json,
                     added + (if outcome == Adds then 1 else 0), changed + (if outcome == Changes then 1 else 0))
  {
    hide Differs, Changed, Names, InForce, DistinctNames, Extends;
    OneMoreDef(current, defs, i, json);
    CountersGrow(current, defs, i, json, outcome);
    OneLonger(defs, i);
    ExtendsMore(current, before, after, defs[..i], defs[i], json, outcome);
  }

  lemma ExtendsMore(current: map<Name, Def>, before: map<Name, Def>, after: map<Name, Def>, done: seq<Def>, d: Def,
                    json: Def -> Json, outcome: Outcome)
    requires Extends(current, before, done, json) && Applied(current, before, after, d, json, outcome)
    requires d.name !in Names(done) && Names(done + [d]) == Names(done) + {d.name}
    ensures Extends(current, after, done + [d], json)
  {
    hide Differs, Names, InForce;
    OthersKept(current, before, after, Names(done), d.name);
    StillInForce(before, after, done, d, json);
  }

  lemma OneLonger(defs: seq<Def>, i: nat)
    requires i < |defs|
    ensures defs[..i + 1] == defs[..i] + [defs[i]]
  {}

  lemma CountersGrow(current: map<Name, Def>, defs: seq<Def>, i: nat, json: Def -> Json, outcome: Outcome)
    requires i < |defs| && DistinctNames(defs)
    requires outcome == Adds <==> defs[i].name !in current
    requires outcome == Changes <==> Differs(current, defs[i], json)
    ensures |Names(defs[..i + 1]) - current.Keys|
            == |Names(defs[..i]) - current.Keys| + (if outcome == Adds then 1 else 0)
    ensures |Changed(current, defs[..i + 1], json)|
            == |Changed(current, defs[..i], json)| + (if outcome == Changes then 1 else 0)
  {
    hide Differs, Changed, Names, DistinctNames;
    OneMoreDef(current, defs, i, json);
  }

  lemma OthersKept(current: map<Name, Def>, before: map<Name, Def>, after: map<Name, Def>, done: set<Name>, name: Name)
    requires before.Keys == current.Keys + done && after.Keys == before.Keys + {name}
    requires forall n | n in current && n !in done :: before[n] == current[n]
    requires forall k | k in before && k != name :: after[k] == before[k]
    ensures after.Keys == current.Keys + (done + {name})
    ensures forall n | n in current && n !in done + {name} :: after[n] == current[n]
  {}

  /** Of the sources `missing`, all but `todo` are gone, and were counted. */
  ghost predicate Removed(before: map<Name, Def>, after: map<Name, Def>, missing: set<Name>, todo: set<Name>,
                          removed: nat)
  {
    todo <= missing <= before.Keys && after == before - (missing - todo) && removed == |missing - todo|
  }

  lemma NoneRemoved(before: map<Name, Def>, missing: set<Name>)
    requires missing <= before.Keys
    ensures Removed(before, before, missing, missing, 0)
  {
    assert missing - missing == {} && before - {} == before;
  }

  type Runtime = (set<Name>, map<Name, seq<Task>>, set<Task>)

  /** Unless something was removed, no schema and no task was touched. */
  ghost predicate Untouched(removed: nat, before: Runtime, after: Runtime) {
    removed == 0 ==> after == before
  }

  lemma TouchedNot(tasks: Runtime)
    ensures Untouched(0, tasks, tasks)
  {}

  lemma TouchedNow(removed: nat, before: Runtime, after: Runtime)
    requires removed > 0
    ensures Untouched(removed, before, after)
  {}

  lemma OneRemoved(before: map<Name, Def>, after: map<Name, Def>, missing: set<Name>, todo: set<Name>,
                   removed: nat, name: Name)
    requires Removed(before, after, missing, todo, removed) && name in todo
    ensures name in after && Removed(before, after - {name}, missing, todo - {name}, removed + 1)
  {
    assert missing - (todo - {name}) == missing - todo + {name};
    assert after - {name} == before - (missing - todo + {name});
  }

  lemma AllRemoved(before: map<Name, Def>, after: map<Name, Def>, missing: set<Name>, removed: nat)
    requires Removed(before, after, missing, {}, removed)
    ensures after == before - missing && removed == |missing|
  {
    assert missing - {} == missing;
  }

  lemma StillInForce(before: map<Name, Def>, after: map<Name, Def>, defs: seq<Def>, d: Def, json: Def -> Json)
    requires InForce(before, defs, json) && d.name !in Names(defs)
    requires d.name in after && json(after[d.name]) == json(d)
    requires forall k | k in before && k != d.name :: k in after && after[k] == before[k]
    ensures InForce(after, defs + [d], json)
  {
    forall x | x in defs + [d] ensures x.name in after && json(after[x.name]) == json(x) {
      if x in defs {
        NameListed(defs, x);
      }
    }
  }

  /** Without the names that are missing from it, the sources are those of the configuration. */
  lemma OnlyNamed(before: map<Name, Def>, after: map<Name, Def>, known: set<Name>, defs: seq<Def>, json: Def -> Json)
    requires InForce(before, defs, json) && before.Keys == known + Names(defs)
    requires after == before - (known - Names(defs))
    ensures Matches(after, defs, json)
  {
    hide Names;
    assert after.Keys == Names(defs);
    forall d | d in defs ensures d.name in after && json(after[d.name]) == json(d) {
      NameListed(defs, d);
    }
  }

  /** The counts grow by one name at a time, since names do not repeat. */
  lemma OneMoreDef(current: map<Name, Def>, defs: seq<Def>, i: nat, json: Def -> Json)
    requires i < |defs| && DistinctNames(defs)
    ensures var d := defs[i];
      && Names(defs[..i + 1]) == Names(defs[..i]) + {d.name}
      && d.name !in Names(defs[..i])
      && |Names(defs[..i + 1]) - current.Keys|
         == |Names(defs[..i]) - current.Keys| + (if d.name in current then 0 else 1)
    ensures |Changed(current, defs[..i + 1], json)|
            == |Changed(current, defs[..i], json)| + (if Differs(current, defs[i], json) then 1 else 0)
  {
    hide Differs;
    var d := defs[i];
    var before, after := defs[..i], defs[..i + 1];
    assert after[..i] == before;
    NotYetNamed(defs, i);
    NotYetChanged(current, defs, i, json);
    OneMoreName(Names(before), d.name, current.Keys);
  }

  lemma NotYetNamed(defs: seq<Def>, i: nat)
    requires i < |defs| && DistinctNames(defs)
    ensures defs[i].name !in Names(defs[..i])
  {
    if defs[i].name in Names(defs[..i]) {
      var x := ListedName(defs[..i], defs[i].name);
    }
  }

  lemma NotYetChanged(current: map<Name, Def>, defs: seq<Def>, i: nat, json: Def -> Json)
    requires i < |defs| && DistinctNames(defs)
    ensures defs[i].name !in Changed(current, defs[..i], json)
  {
    hide Differs;
    if defs[i].name in Changed(current, defs[..i], json) {
      var x := ChangedName(current, defs[..i], json, defs[i].name);
    }
  }

  lemma OneMoreName(a: set<Name>, n: Name, b: set<Name>)
    requires n !in a
    ensures |a + {n} - b| == |a - b| + (if n in b then 0 else 1)
  {
    if n in b {
      assert a + {n} - b == a - b;
    } else {
      assert a + {n} - b == a - b + {n};
    }
  }
}
