/**
 * `find_metric_cycles` (crates/pawrly-config/src/validator.rs): a depth-first search that keeps
 * a stack of metrics being visited, a set of finished ones and a set of reported ones.
 */
module MetricCycles {
  import opened Prelude
  import opened Tokens
  import Names

  type Name = string
  type Graph = map<Name, seq<Name>>

  // ------------------------------------------------------------ the metric graph

  /** `u` mentions the known metric `v`; mentions of unknown names are no edges. */
  predicate Edge(g: Graph, u: Name, v: Name) {
    u in g && v in g && v in g[u]
  }

  ghost predicate IsPath(g: Graph, p: seq<Name>) {
    forall i :: 0 <= i < |p| - 1 ==> Edge(g, p[i], p[i + 1])
  }

  ghost predicate IsCycle(g: Graph, p: seq<Name>) {
    |p| >= 2 && IsPath(g, p) && p[0] == p[|p| - 1]
  }

  ghost predicate OnCycle(g: Graph, n: Name) {
    exists p :: IsCycle(g, p) && p[0] == n
  }

  ghost predicate HasCycle(g: Graph) {
    exists p :: IsCycle(g, p)
  }

  /** Every metric mentioned by a listed one is listed before it. */
  ghost predicate Ranked(g: Graph, order: seq<Name>) {
    forall i, n :: 0 <= i < |order| && Edge(g, order[i], n) ==> n in order[..i]
  }

  /** An evaluation order: all metrics, each once, each after those it mentions. */
  ghost predicate TopologicalOrder(g: Graph, order: seq<Name>) {
    Distinct(order) && Elements(order) == g.Keys && Ranked(g, order)
  }

  /** Along a path that starts in a ranked list, positions strictly fall. */
  lemma {:induction false} RankFalls(g: Graph, order: seq<Name>, p: seq<Name>, i: nat)
    requires Ranked(g, order)
    requires |p| >= 2 && IsPath(g, p) && i < |order| && p[0] == order[i]
    ensures p[|p| - 1] in order[..i]
    decreases |p|
  {
    assert Edge(g, p[0], p[1]);
    var j :| 0 <= j < i && order[j] == p[1];
    if |p| > 2 {
      var rest := p[1..];
      forall k | 0 <= k < |rest| - 1 ensures Edge(g, rest[k], rest[k + 1]) {
        assert Edge(g, p[k + 1], p[k + 2]);
      }
      RankFalls(g, order, rest, j);
      assert order[..j] <= order[..i];
    }
  }

  lemma OrderExcludesCycles(g: Graph, order: seq<Name>)
    requires TopologicalOrder(g, order)
    ensures !HasCycle(g)
  {
    if p :| IsCycle(g, p) {
      assert Edge(g, p[0], p[1]);
      assert p[0] in Elements(order);
      var i :| 0 <= i < |order| && order[i] == p[0];
      RankFalls(g, order, p, i);
    }
  }

  // ----------------------------------------------------------------- the search

  /** What holds of the stack, the finished and the reported metrics at every moment. */
  ghost predicate SearchInv(g: Graph, visiting: seq<Name>, done: set<Name>, cyclic: set<Name>,
                            finished: seq<Name>)
  {
    && Elements(visiting) <= g.Keys && Distinct(visiting) && IsPath(g, visiting)
    && done == Elements(finished) <= g.Keys && Distinct(finished)
    && done !! Elements(visiting)
    && (forall n | n in cyclic :: OnCycle(g, n))
    && (cyclic == {} ==> Ranked(g, finished))
  }

  class CycleSearch {
    const adjacency: Graph
    var visiting: seq<Name>
    var done: set<Name>
    var cyclic: set<Name>
    /** The finished metrics in the order in which they finished. */
    ghost var finished: seq<Name>

    ghost predicate Valid()
      reads this
    {
      SearchInv(adjacency, visiting, done, cyclic, finished)
    }

    constructor (g: Graph)
      ensures Valid() && fresh(this)
      ensures adjacency == g && visiting == [] && done == {} && cyclic == {} && finished == []
    {
      adjacency := g;
      visiting, done, cyclic, finished := [], {}, {}, [];
    }

    method Visit(node: Name)
      requires Valid() && node in adjacency
      requires visiting != [] ==> Edge(adjacency, visiting[|visiting| - 1], node)
      modifies this
      ensures Valid() && visiting == old(visiting)
      ensures old(done) <= done && old(cyclic) <= cyclic && old(finished) <= finished
      ensures node in done || (node in visiting && node in cyclic)
      decreases StackRoom(adjacency, visiting)
    {
      hide SearchInv, Edge, StackRoom;
      if node in done {
        return;
      }
      if node in visiting {
        CloseKeepsInv(adjacency, visiting, done, cyclic, finished, node);
        cyclic := cyclic + {node};
        return;
      }
      PushKeepsInv(adjacency, visiting, done, cyclic, finished, node);
      visiting := visiting + [node];
      var next := adjacency[node];
      var i := 0;
      while i < |next|
        invariant 0 <= i <= |next|
        invariant Valid() && visiting == old(visiting) + [node]
        invariant old(done) <= done && old(cyclic) <= cyclic && old(finished) <= finished
        invariant cyclic == {} ==> forall j :: 0 <= j < i && next[j] in adjacency ==> next[j] in done
      {
        if next[i] in adjacency {
          assert next[i] in adjacency[node];
          IsEdge(adjacency, node, next[i]);
          Visit(next[i]);
        }
        i := i + 1;
      }
      AllEdgesDone(adjacency, node, done, cyclic);
      PopKeepsInv(adjacency, old(visiting), done, cyclic, finished, node);
      visiting := visiting[..|visiting| - 1];
      done := done + {node};
      finished := finished + [node];
      assert visiting == old(visiting);
    }
  }

  ghost function StackRoom(g: Graph, visiting: seq<Name>): set<Name> {
    g.Keys - Elements(visiting)
  }

  /** A metric met again while on the stack closes a cycle with the stack above it. */
  lemma ClosesCycle(g: Graph, visiting: seq<Name>, node: Name)
    requires IsPath(g, visiting) && node in visiting
    requires Edge(g, visiting[|visiting| - 1], node)
    ensures OnCycle(g, node)
  {
    var k :| 0 <= k < |visiting| && visiting[k] == node;
    var p := visiting[k..] + [node];
    forall i | 0 <= i < |p| - 1 ensures Edge(g, p[i], p[i + 1]) {
      if i < |p| - 2 {
        assert Edge(g, visiting[k + i], visiting[k + i + 1]);
      }
    }
    assert IsCycle(g, p) && p[0] == node;
  }

  lemma CloseKeepsInv(g: Graph, visiting: seq<Name>, done: set<Name>, cyclic: set<Name>,
                      finished: seq<Name>, n: Name)
    requires SearchInv(g, visiting, done, cyclic, finished)
    requires n in visiting && Edge(g, visiting[|visiting| - 1], n)
    ensures SearchInv(g, visiting, done, cyclic + {n}, finished)
  {
    ClosesCycle(g, visiting, n);
  }

  lemma IsEdge(g: Graph, u: Name, v: Name)
    requires u in g && v in g && v in g[u]
    ensures Edge(g, u, v)
  {}

  lemma AllEdgesDone(g: Graph, n: Name, done: set<Name>, cyclic: set<Name>)
    requires n in g
    requires cyclic == {} ==> forall j :: 0 <= j < |g[n]| && g[n][j] in g ==> g[n][j] in done
    ensures cyclic == {} ==> forall m :: Edge(g, n, m) ==> m in done
  {}

  lemma PushKeepsInv(g: Graph, visiting: seq<Name>, done: set<Name>, cyclic: set<Name>,
                     finished: seq<Name>, n: Name)
    requires SearchInv(g, visiting, done, cyclic, finished)
    requires n in g && n !in done && n !in visiting
    requires visiting != [] ==> Edge(g, visiting[|visiting| - 1], n)
    ensures SearchInv(g, visiting + [n], done, cyclic, finished)
    ensures StackRoom(g, visiting + [n]) < StackRoom(g, visiting)
  {
    var q := visiting + [n];
    forall i | 0 <= i < |q| - 1 ensures Edge(g, q[i], q[i + 1]) {
      if i < |visiting| - 1 {
        assert Edge(g, visiting[i], visiting[i + 1]);
      }
    }
    assert Elements(q) == Elements(visiting) + {n};
    assert n in StackRoom(g, visiting);
  }

  lemma PopKeepsInv(g: Graph, visiting: seq<Name>, done: set<Name>, cyclic: set<Name>,
                    finished: seq<Name>, n: Name)
    requires SearchInv(g, visiting + [n], done, cyclic, finished)
    requires cyclic == {} ==> forall m :: Edge(g, n, m) ==> m in done
    ensures SearchInv(g, visiting, done + {n}, cyclic, finished + [n])
  {
    var q := visiting + [n];
    assert Elements(q) == Elements(visiting) + {n};
    assert q[|visiting|] == n;
    forall i | 0 <= i < |visiting| - 1 ensures Edge(g, visiting[i], visiting[i + 1]) {
      assert Edge(g, q[i], q[i + 1]);
    }
    forall i, j | 0 <= i < j < |visiting| ensures visiting[i] != visiting[j] {
      assert q[i] != q[j];
    }
    assert n !in visiting by {
      forall i | 0 <= i < |visiting| ensures visiting[i] != n { assert q[i] != q[|visiting|]; }
    }
    assert Elements(finished + [n]) == done + {n};
    if cyclic == {} {
      RankedPush(g, finished, n);
    }
  }

  lemma RankedPush(g: Graph, order: seq<Name>, n: Name)
    requires Ranked(g, order)
    requires forall m :: Edge(g, n, m) ==> m in order
    ensures Ranked(g, order + [n])
  {
    var longer := order + [n];
    forall i, m | 0 <= i < |longer| && Edge(g, longer[i], m) ensures m in longer[..i] {
      if i < |order| {
        assert longer[..i] == order[..i];
      } else {
        assert longer[..i] == order;
      }
    }
  }

  // ------------------------------------------------------- from the configuration

  /** The dot-free members a metric mentions; a metric that does not parse mentions none. */
  function MetricRefs(m: Metric): seq<Name> {
    match References(m)
    case Err(_) => []
    case Ok(ts) => DotFree(ts)
  }

  function DotFree(ts: seq<Token>): (names: seq<Name>)
    ensures forall n :: n in names <==> '.' !in n && exists t :: t in ts && t.member == n
  {
    if ts == [] then [] else
      (if '.' in ts[0].member then [] else [ts[0].member]) + DotFree(ts[1..])
  }

  ghost predicate IsLast(metrics: seq<Metric>, i: nat, n: Name) {
    i < |metrics| && metrics[i].name == n && forall j :: i < j < |metrics| ==> metrics[j].name != n
  }

  /** The collected map: a later metric of the same name replaces an earlier one. */
  function Adjacency(metrics: seq<Metric>): Graph {
    if metrics == [] then map[] else
      var last := metrics[|metrics| - 1];
      Adjacency(metrics[..|metrics| - 1])[last.name := MetricRefs(last)]
  }

  /** A name stands for its last declaration, and every declared name is there. */
  lemma {:induction false} AdjacencyKeepsLast(metrics: seq<Metric>, n: Name) returns (i: nat)
    ensures n in Adjacency(metrics) <==> exists m :: m in metrics && m.name == n
    ensures n in Adjacency(metrics) ==> IsLast(metrics, i, n) && Adjacency(metrics)[n] == MetricRefs(metrics[i])
  {
    hide MetricRefs;
    i := 0;
    if metrics != [] {
      var k := |metrics| - 1;
      assert metrics[k] in metrics;
      if metrics[k].name == n {
        i := k;
      } else {
        i := AdjacencyKeepsLast(metrics[..k], n);
        assert forall m | m in metrics[..k] :: m in metrics;
        if m :| m in metrics && m.name == n {
          assert m in metrics[..k];
        }
      }
    }
  }

  // ------------------------------------------------ what a metric depends on, outright

  /**
   * The metric mentions `v`: as a side of a ratio, as the member of some reference of a derived
   * expression that is well formed, or as its measure.
   */
  ghost predicate Mentions(m: Metric, v: Name) {
    match m.kind
    case Ratio(n, d) => n.member == v || d.member == v
    case Derived(expr) => exists cs, tail :: IsExpression(expr, cs, tail) && MentionsIn(cs, v)
    case Cumulative(measure) => measure == v
    case Offset(measure) => measure == v
    case Share(measure) => measure == v
  }

  ghost predicate IsExpression(expr: string, cs: seq<Chunk>, tail: string) {
    ChunksOk(cs) && TailOk(tail) && cs != [] && Show(cs, tail) == expr
  }

  ghost predicate MentionsIn(cs: seq<Chunk>, v: Name) {
    exists i :: 0 <= i < |cs| && TokenOf(cs[i].body).member == v
  }

  ghost predicate Declared(metrics: seq<Metric>, n: Name) {
    exists i :: 0 <= i < |metrics| && metrics[i].name == n
  }

  /** Both are declared, and the last metric named `u` mentions `v`, which has no dot. */
  ghost predicate Depends(metrics: seq<Metric>, u: Name, v: Name) {
    && Declared(metrics, v) && '.' !in v
    && exists i: nat :: IsLast(metrics, i, u) && Mentions(metrics[i], v)
  }

  ghost predicate DependsAlong(metrics: seq<Metric>, p: seq<Name>) {
    forall i :: 0 <= i < |p| - 1 ==> Depends(metrics, p[i], p[i + 1])
  }

  /** `n` depends on itself, by way of the metrics on `p`. */
  ghost predicate DependsOnItself(metrics: seq<Metric>, n: Name, p: seq<Name>) {
    |p| >= 2 && p[0] == n && p[|p| - 1] == n && DependsAlong(metrics, p)
  }

  ghost predicate IsCyclic(metrics: seq<Metric>, n: Name) {
    exists p :: DependsOnItself(metrics, n, p)
  }

  /** Every declared metric once, after all it depends on. */
  ghost predicate EvaluationOrder(metrics: seq<Metric>, order: seq<Name>) {
    && Distinct(order) && (forall n :: n in order <==> Declared(metrics, n))
    && forall i, v :: 0 <= i < |order| && Depends(metrics, order[i], v) ==> v in order[..i]
  }

  lemma LastUnique(metrics: seq<Metric>, i: nat, j: nat, n: Name)
    requires IsLast(metrics, i, n) && IsLast(metrics, j, n)
    ensures i == j
  {}

  /** What a metric references is what it mentions. */
  lemma MentionsExactly(m: Metric, v: Name)
    ensures v in MetricRefs(m) <==> Mentions(m, v) && '.' !in v
  {
    match m.kind
    case Ratio(n, d) =>
      var ts := [Token(n.member, n.filter), Token(d.member, d.filter)];
      assert ts[0] in ts && ts[1] in ts;
    case Derived(expr) => DerivedExactly(m, expr, v);
    case Cumulative(x) => assert [Token(x, None)][0] in [Token(x, None)];
    case Offset(x) => assert [Token(x, None)][0] in [Token(x, None)];
    case Share(x) => assert [Token(x, None)][0] in [Token(x, None)];
  }

  ghost predicate SomeMember(r: Result<seq<Token>, TokenError>, v: Name) {
    r.Ok? && exists t :: t in r.value && t.member == v
  }

  lemma DerivedExactly(m: Metric, expr: string, v: Name)
    requires m.kind == Derived(expr)
    ensures v in MetricRefs(m) <==> Mentions(m, v) && '.' !in v
  {
    hide DerivedTokensSpec, IsExpression, MentionsIn;
    assert v in MetricRefs(m) <==> SomeMember(DerivedTokensSpec(expr), v) && '.' !in v;
    if SomeMember(DerivedTokensSpec(expr), v) {
      MentionedBySome(expr, v);
    }
    if cs: seq<Chunk>, tail: string :| IsExpression(expr, cs, tail) && MentionsIn(cs, v) {
      SomeMentioned(expr, cs, tail, v);
    }
  }

  lemma MentionedBySome(expr: string, v: Name)
    requires SomeMember(DerivedTokensSpec(expr), v)
    ensures exists cs, tail :: IsExpression(expr, cs, tail) && MentionsIn(cs, v)
  {
    hide DerivedTokensSpec, ChunksOk, TailOk, Show, TokenOf;
    var ts := DerivedTokensSpec(expr).value;
    AcceptedExactly(expr, ts);
    var cs: seq<Chunk>, tail: string :|
      ChunksOk(cs) && TailOk(tail) && cs != [] && Show(cs, tail) == expr && TokensOf(cs) == ts;
    var t :| t in ts && t.member == v;
    var i :| 0 <= i < |ts| && ts[i] == t;
    assert TokenOf(cs[i].body).member == v;
    assert IsExpression(expr, cs, tail) && MentionsIn(cs, v);
  }

  lemma SomeMentioned(expr: string, cs: seq<Chunk>, tail: string, v: Name)
    requires IsExpression(expr, cs, tail) && MentionsIn(cs, v)
    ensures SomeMember(DerivedTokensSpec(expr), v)
  {
    hide DerivedTokensSpec, ChunksOk, TailOk, Show, TokenOf;
    AcceptedExactly(expr, TokensOf(cs));
    var i :| 0 <= i < |cs| && TokenOf(cs[i].body).member == v;
    assert TokensOf(cs)[i] in TokensOf(cs);
  }

  /** The edges of the graph are the dependencies. */
  lemma EdgeExactly(metrics: seq<Metric>, u: Name, v: Name)
    ensures u in Adjacency(metrics) <==> Declared(metrics, u)
    ensures Edge(Adjacency(metrics), u, v) <==> Depends(metrics, u, v)
  {
    hide Mentions, MetricRefs;
    var i := AdjacencyKeepsLast(metrics, u);
    var j := AdjacencyKeepsLast(metrics, v);
    DeclaredIs(metrics, u);
    DeclaredIs(metrics, v);
    if u in Adjacency(metrics) {
      MentionsExactly(metrics[i], v);
    }
    if Depends(metrics, u, v) {
      var k: nat :| IsLast(metrics, k, u) && Mentions(metrics[k], v);
      assert Declared(metrics, u);
      LastUnique(metrics, i, k, u);
    }
  }

  lemma DeclaredIs(metrics: seq<Metric>, n: Name)
    ensures Declared(metrics, n) <==> exists m :: m in metrics && m.name == n
  {}

  /** Cycles and orders of the graph are those of the dependencies. */
  lemma CyclesExactly(metrics: seq<Metric>)
    ensures forall n :: OnCycle(Adjacency(metrics), n) <==> IsCyclic(metrics, n)
    ensures forall order: seq<Name> | TopologicalOrder(Adjacency(metrics), order) :: EvaluationOrder(metrics, order)
  {
    hide Depends, Edge, Adjacency, Declared;
    var g := Adjacency(metrics);
    forall u, v ensures Edge(g, u, v) <==> Depends(metrics, u, v) {
      EdgeExactly(metrics, u, v);
    }
    forall n ensures n in g <==> Declared(metrics, n) {
      EdgeExactly(metrics, n, n);
    }
    forall p: seq<Name> ensures IsPath(g, p) <==> DependsAlong(metrics, p) {}
    forall n ensures OnCycle(g, n) <==> IsCyclic(metrics, n) {
      if p :| IsCycle(g, p) && p[0] == n {
        assert DependsOnItself(metrics, n, p);
      }
      if p :| DependsOnItself(metrics, n, p) {
        assert IsCycle(g, p);
      }
    }
    forall order: seq<Name> | TopologicalOrder(g, order) ensures EvaluationOrder(metrics, order) {
      assert forall n :: n in order <==> n in Elements(order);
    }
  }

  /**
   * Whatever order the map yields its keys in: something is reported exactly when some metric
   * depends on itself, every reported one does, the report is sorted, and without one the
   * finishing order is an evaluation order.
   */
  method FindMetricCycles(metrics: seq<Metric>) returns (out: seq<Name>, ghost order: seq<Name>)
    ensures out != [] <==> exists n :: IsCyclic(metrics, n)
    ensures forall n :: n in out ==> IsCyclic(metrics, n)
    ensures Names.Sorted(out)
    ensures out == [] ==> EvaluationOrder(metrics, order)
  {
    hide IsCyclic, EvaluationOrder, Adjacency;
    var adjacency := Adjacency(metrics);
    var search := new CycleSearch(adjacency);
    var keys := adjacency.Keys;
    while keys != {}
      invariant search.Valid() && fresh(search) && search.visiting == []
      invariant search.adjacency == adjacency
      invariant keys <= adjacency.Keys && adjacency.Keys - keys <= search.done
      decreases keys
    {
      var name :| name in keys;
      search.Visit(name);
      keys := keys - {name};
    }
    order := search.finished;
    out := Names.Sort(search.cyclic);
    assert forall n :: n in out <==> n in search.cyclic;
    assert out != [] ==> out[0] in search.cyclic;
    CyclesExactly(metrics);
    if search.cyclic == {} {
      OrderExcludesCycles(adjacency, order);
      assert forall n :: !OnCycle(adjacency, n);
    } else {
      var n :| n in search.cyclic;
      assert IsCyclic(metrics, n);
    }
  }
}
