/**
 * The `include:` walk (crates/pawrly-config/src/assemble.rs): `collect` gathers the content of
 * every included file, `build_include_node` builds the graph for display. Both keep a set of
 * canonical paths already taken up and the chain of files being expanded.
 *
 * A path is a path as spelled; `canon` maps it to its canonical form, so two spellings of one
 * file meet there. What a file includes may depend on its spelling, since relative patterns
 * resolve against the directory of the spelled path.
 */
module IncludeWalk {
  import opened Prelude
  import opened Json

  type Path = string

  /** An optional list field: missing or null, a list, or something else. */
  datatype Field = Missing | Items(items: seq<Value>) | Malformed

  /** One step of expanding `include:` patterns: a file matched, or a pattern matching none. */
  datatype Match = Match(path: Path) | NoMatch

  datatype File = File(
    isMapping: bool,
    hasVersion: bool,
    hasName: bool,
    hasDefaults: bool,
    hasKind: bool,
    body: Value,
    models: Field,
    variables: Option<Value>,
    sources: Field,
    secrets: Field,
    functions: Field,
    includeIsStrings: bool,
    matches: seq<Match>)

  /** A path outside `files` cannot be read or does not parse. */
  datatype Disk = Disk(files: map<Path, File>, canon: Path -> Path)

  datatype WalkError =
    | Unreadable(path: Path)
    | BadContent(path: Path)
    | NothingMatched(path: Path)
    | IncludeCycle(chain: seq<Path>)

  // --------------------------------------------------------------- the file graph

  /** The `i`-th match of the file at `p`. */
  datatype Occurrence = Occurrence(p: Path, i: nat)

  predicate IsOccurrence(d: Disk, o: Occurrence) {
    o.p in d.files && o.i < |d.files[o.p].matches| && d.files[o.p].matches[o.i].Match?
  }

  function Target(d: Disk, o: Occurrence): Path
    requires IsOccurrence(d, o)
  {
    d.files[o.p].matches[o.i].path
  }

  predicate Includes(d: Disk, p: Path, q: Path) {
    p in d.files && Match(q) in d.files[p].matches
  }

  /** A route from `root` along matches. */
  ghost predicate IsRoute(d: Disk, root: Path, route: seq<Path>) {
    && route != [] && route[0] == root
    && forall i :: 0 <= i < |route| - 1 ==> Includes(d, route[i], route[i + 1])
  }

  ghost predicate IsRouteTo(d: Disk, root: Path, route: seq<Path>, p: Path) {
    IsRoute(d, root, route) && route[|route| - 1] == p
  }

  ghost predicate Reachable(d: Disk, root: Path, p: Path) {
    exists route :: IsRouteTo(d, root, route, p)
  }

  /**
   * The files reachable from the root form a tree: each is matched by one occurrence,
   * the root by none.
   */
  ghost predicate IsTree(d: Disk, root: Path) {
    && (forall o, o' | Reached(d, root, o) && Reached(d, root, o') ::
          d.canon(Target(d, o)) == d.canon(Target(d, o')) ==> o == o')
    && (forall o :: Reached(d, root, o) ==> d.canon(Target(d, o)) != d.canon(root))
  }

  ghost predicate Reached(d: Disk, root: Path, o: Occurrence) {
    IsOccurrence(d, o) && Reachable(d, root, o.p)
  }

  /** Everything the display walk needs of a file. */
  predicate ListingOk(d: Disk, p: Path) {
    p in d.files && d.files[p].includeIsStrings && NoMatch !in d.files[p].matches
  }

  predicate IsSingleSource(f: File, isRoot: bool) { !isRoot && f.hasKind }

  /** The content checks `collect` makes on a file before following its includes. */
  predicate ContentOk(f: File, isRoot: bool) {
    && f.isMapping
    && (isRoot || (
          && !f.hasVersion && !f.hasDefaults
          && (f.hasKind || !f.hasName)
          && f.models != Malformed))
    && (IsSingleSource(f, isRoot) ||
        (f.sources != Malformed && f.secrets != Malformed && f.functions != Malformed))
    && f.includeIsStrings
  }

  predicate FileOk(d: Disk, p: Path, isRoot: bool) {
    ListingOk(d, p) && ContentOk(d.files[p], isRoot)
  }

  ghost predicate AllListed(d: Disk, root: Path) {
    forall p :: Reachable(d, root, p) ==> ListingOk(d, p)
  }

  ghost predicate AllFilesOk(d: Disk, root: Path) {
    forall p :: Reachable(d, root, p) ==> FileOk(d, p, p == root)
  }

  // ------------------------------------------------------------- the include tree

  /** The checks by kind of file: the root, a bare source, a fragment. */
  lemma ContentByKind(f: File)
    ensures ContentOk(f, true) <==>
            f.isMapping && f.includeIsStrings && Malformed !in {f.sources, f.secrets, f.functions}
    ensures f.hasKind ==>
            (ContentOk(f, false) <==>
             f.isMapping && f.includeIsStrings && f.models != Malformed && !f.hasVersion && !f.hasDefaults)
    ensures !f.hasKind ==>
            (ContentOk(f, false) <==>
             f.isMapping && f.includeIsStrings && Malformed !in {f.models, f.sources, f.secrets, f.functions}
             && !f.hasVersion && !f.hasName && !f.hasDefaults)
  {}

  datatype Node = Node(path: Path, children: seq<Node>)

  /** The tree lists, at every node, exactly the matches of that file in merge order. */
  predicate Unfolds(d: Disk, t: Node) {
    && t.path in d.files
    && |t.children| == |d.files[t.path].matches|
    && (forall i :: 0 <= i < |t.children| ==> d.files[t.path].matches[i] == Match(t.children[i].path))
    && (forall c | c in t.children :: Unfolds(d, c))
  }

  function Preorder(t: Node): seq<Path> {
    [t.path] + PreorderAll(t.children)
  }

  function PreorderAll(ts: seq<Node>): seq<Path> {
    if ts == [] then [] else PreorderAll(ts[..|ts| - 1]) + Preorder(ts[|ts| - 1])
  }

  /** A file graph unfolds in one way, so the two walks yield the same tree. */
  lemma {:induction false} UnfoldingUnique(d: Disk, t: Node, u: Node)
    requires Unfolds(d, t) && Unfolds(d, u) && t.path == u.path
    ensures t == u
    decreases t
  {
    forall i | 0 <= i < |t.children| ensures t.children[i] == u.children[i] {
      assert t.children[i] in t.children && u.children[i] in u.children;
      assert Match(t.children[i].path) == Match(u.children[i].path);
      UnfoldingUnique(d, t.children[i], u.children[i]);
    }
  }

  // ------------------------------------------------- what a walk has done so far

  /**
   * `entered` are the paths taken up so far, `via[k]` the occurrence that took up
   * `entered[k + 1]`. No canonical path was taken up twice.
   */
  ghost predicate WalkInv(d: Disk, root: Path, entered: seq<Path>, via: seq<Occurrence>, visited: set<Path>) {
    && entered != [] && entered[0] == root && |via| + 1 == |entered|
    && (forall k :: 0 <= k < |via| ==>
          IsOccurrence(d, via[k]) && Target(d, via[k]) == entered[k + 1] && via[k].p in entered[..k + 1])
    && (forall j, k :: 0 <= j < k < |entered| ==> d.canon(entered[j]) != d.canon(entered[k]))
    && visited == Canons(d, Elements(entered))
    && (forall p | p in entered :: Reachable(d, root, p))
  }

  ghost function Canons(d: Disk, paths: set<Path>): set<Path> {
    set p | p in paths :: d.canon(p)
  }

  /** Every match of each of these files has been followed. */
  ghost predicate AllFollowed(d: Disk, paths: seq<Path>, via: seq<Occurrence>) {
    forall p, i: nat :: p in paths && p in d.files && i < |d.files[p].matches| ==>
      d.files[p].matches[i].Match? && Occurrence(p, i) in via
  }

  lemma RouteStep(d: Disk, root: Path, route: seq<Path>, o: Occurrence)
    requires IsRouteTo(d, root, route, o.p) && IsOccurrence(d, o)
    ensures IsRouteTo(d, root, route + [Target(d, o)], Target(d, o))
    ensures Reachable(d, root, o.p) && Reachable(d, root, Target(d, o))
  {
    var longer := route + [Target(d, o)];
    forall i | 0 <= i < |longer| - 1 ensures Includes(d, longer[i], longer[i + 1]) {
      if i < |route| - 1 {
        assert Includes(d, route[i], route[i + 1]);
      }
    }
  }

  /** Taking up a new file keeps the invariant. */
  lemma TakeUp(d: Disk, root: Path, entered: seq<Path>, via: seq<Occurrence>, visited: set<Path>,
               route: seq<Path>, o: Occurrence)
    requires WalkInv(d, root, entered, via, visited)
    requires IsOccurrence(d, o) && o.p in entered && IsRouteTo(d, root, route, o.p)
    requires d.canon(Target(d, o)) !in visited
    ensures Target(d, o) !in entered
    ensures WalkInv(d, root, entered + [Target(d, o)], via + [o], visited + {d.canon(Target(d, o))})
    ensures Target(d, o) != root
    ensures forall k :: 0 <= k <= |via| ==> (via + [o])[k].p != Target(d, o)
  {
    var t := Target(d, o);
    RouteStep(d, root, route, o);
    var more := entered + [t];
    assert Elements(more) == Elements(entered) + {t};
    forall k | 0 <= k < |entered| ensures d.canon(entered[k]) != d.canon(t) {
      assert entered[k] in Elements(entered);
    }
    assert Canons(d, Elements(more)) == visited + {d.canon(t)};
    forall k | 0 <= k < |via| + 1
      ensures (via + [o])[k].p in more[..k + 1]
    {
      if k < |via| {
        assert more[..k + 1] == entered[..k + 1];
      } else {
        assert more[..k + 1] == entered;
      }
    }
  }

  /** Meeting a canonical path again, by an occurrence not followed yet, refutes the tree. */
  lemma MeetAgain(d: Disk, root: Path, entered: seq<Path>, via: seq<Occurrence>, visited: set<Path>,
                  o: Occurrence)
    requires WalkInv(d, root, entered, via, visited)
    requires IsOccurrence(d, o) && o.p in entered && o !in via
    requires d.canon(Target(d, o)) in visited
    ensures !IsTree(d, root)
  {
    assert Reached(d, root, o);
    var p :| p in Elements(entered) && d.canon(p) == d.canon(Target(d, o));
    var k :| 0 <= k < |entered| && entered[k] == p;
    if k > 0 {
      var o' := via[k - 1];
      assert o' in via && o'.p in entered[..k];
      assert Reached(d, root, o');
    }
  }

  /** A finished walk has seen exactly the reachable files, and they form a tree. */
  lemma {:induction false} FinishedReaches(d: Disk, root: Path, entered: seq<Path>, via: seq<Occurrence>,
                                           visited: set<Path>, route: seq<Path>)
    requires WalkInv(d, root, entered, via, visited) && AllFollowed(d, entered, via)
    requires IsRoute(d, root, route)
    ensures route[|route| - 1] in entered
    decreases |route|
  {
    if |route| > 1 {
      var shorter := route[..|route| - 1];
      forall i | 0 <= i < |shorter| - 1 ensures Includes(d, shorter[i], shorter[i + 1]) {
        assert Includes(d, route[i], route[i + 1]);
      }
      FinishedReaches(d, root, entered, via, visited, shorter);
      var p := route[|route| - 2];
      assert Includes(d, p, route[|route| - 2 + 1]);
      var i :| 0 <= i < |d.files[p].matches| && d.files[p].matches[i] == Match(route[|route| - 1]);
      assert Occurrence(p, i) in via;
      var k :| 0 <= k < |via| && via[k] == Occurrence(p, i);
      assert entered[k + 1] == route[|route| - 1];
    }
  }

  lemma FinishedSees(d: Disk, root: Path, entered: seq<Path>, via: seq<Occurrence>, visited: set<Path>)
    requires WalkInv(d, root, entered, via, visited) && AllFollowed(d, entered, via)
    ensures forall p :: p in entered <==> Reachable(d, root, p)
  {
    forall p | Reachable(d, root, p) ensures p in entered {
      var route :| IsRouteTo(d, root, route, p);
      FinishedReaches(d, root, entered, via, visited, route);
    }
  }

  lemma FinishedFollows(d: Disk, root: Path, entered: seq<Path>, via: seq<Occurrence>, visited: set<Path>,
                        o: Occurrence) returns (k: nat)
    requires WalkInv(d, root, entered, via, visited) && AllFollowed(d, entered, via)
    requires o.p in entered && IsOccurrence(d, o)
    ensures k < |via| && via[k] == o && entered[k + 1] == Target(d, o)
  {
    hide Reachable, Canons;
    assert Occurrence(o.p, o.i) in via;
    k :| 0 <= k < |via| && via[k] == o;
  }

  lemma FinishedIsTree(d: Disk, root: Path, entered: seq<Path>, via: seq<Occurrence>, visited: set<Path>)
    requires WalkInv(d, root, entered, via, visited) && AllFollowed(d, entered, via)
    ensures IsTree(d, root)
    ensures forall p :: p in entered <==> Reachable(d, root, p)
  {
    hide Reachable, Canons, AllFollowed;
    FinishedSees(d, root, entered, via, visited);
    forall o | Reached(d, root, o) ensures d.canon(Target(d, o)) != d.canon(root) {
      var k := FinishedFollows(d, root, entered, via, visited, o);
    }
    forall o, o' | Reached(d, root, o) && Reached(d, root, o')
      ensures d.canon(Target(d, o)) == d.canon(Target(d, o')) ==> o == o'
    {
      var k := FinishedFollows(d, root, entered, via, visited, o);
      var k' := FinishedFollows(d, root, entered, via, visited, o');
      assert k < k' || k' < k || k == k';
    }
  }

  // --------------------------------------------------------- what a file contributes

  datatype Contribution = Contribution(
    file: Path,
    chain: seq<Path>,
    sources: seq<Value>,
    models: seq<Value>,
    secrets: seq<Value>,
    functions: seq<Value>,
    variables: Option<Value>)

  function ItemsOf(f: Field): seq<Value> {
    if f.Items? then f.items else []
  }

  /** A file with a top-level `kind` is one source; any other contributes its lists. */
  function ContributionOf(f: File, path: Path, isRoot: bool, chain: seq<Path>): Contribution {
    var models := if isRoot then [] else ItemsOf(f.models);
    if IsSingleSource(f, isRoot) then
      Contribution(path, chain, [f.body], models, [], [], None)
    else
      Contribution(path, chain, ItemsOf(f.sources), models, ItemsOf(f.secrets), ItemsOf(f.functions),
                   if isRoot then None else f.variables)
  }

  /** The contributions of a tree in preorder, each with the chain from the root to its file. */
  function Gather(d: Disk, t: Node, isRoot: bool, chain: seq<Path>): (cs: seq<Contribution>)
    requires Unfolds(d, t)
    decreases t, 0
  {
    [ContributionOf(d.files[t.path], t.path, isRoot, chain)] + GatherAll(d, t.children, chain)
  }

  function GatherAll(d: Disk, ts: seq<Node>, chain: seq<Path>): seq<Contribution>
    requires forall t | t in ts :: Unfolds(d, t)
    decreases ts, |ts|
  {
    if ts == [] then [] else
      var last := ts[|ts| - 1];
      assert forall t | t in ts[..|ts| - 1] :: t in ts;
      GatherAll(d, ts[..|ts| - 1], chain) + Gather(d, last, false, chain + [last.path])
  }

  function Repeat<T>(x: T, n: nat): (s: seq<T>)
    ensures |s| == n && forall i :: 0 <= i < n ==> s[i] == x
  {
    seq(n, _ => x)
  }

  /** Each value with the file it comes from. */
  function Tag(vs: seq<Value>, file: Path): (ts: seq<(Value, Path)>)
    ensures |ts| == |vs| && forall i :: 0 <= i < |vs| ==> ts[i] == (vs[i], file)
  {
    seq(|vs|, i requires 0 <= i < |vs| => (vs[i], file))
  }

  /** The accumulators of the walk, side by side. */
  datatype Totals = Totals(
    sources: seq<Value>,
    origins: seq<Path>,
    chains: seq<seq<Path>>,
    secrets: seq<Value>,
    models: seq<(Value, Path)>,
    functions: seq<(Value, Path)>,
    variables: map<Path, Value>)

  function Add(t: Totals, c: Contribution): Totals {
    Totals(
      t.sources + c.sources,
      t.origins + Repeat(c.file, |c.sources|),
      t.chains + Repeat(c.chain, |c.sources|),
      t.secrets + c.secrets,
      t.models + Tag(c.models, c.file),
      t.functions + Tag(c.functions, c.file),
      if c.variables.None? then t.variables else t.variables[c.file := c.variables.value])
  }

  function TotalsOf(cs: seq<Contribution>): Totals {
    if cs == [] then Totals([], [], [], [], [], [], map[])
    else Add(TotalsOf(cs[..|cs| - 1]), cs[|cs| - 1])
  }

  /** Entry `i` of the three parallel lists comes from one contribution. */
  ghost predicate FromOne(cs: seq<Contribution>, t: Totals, i: nat)
    requires i < |t.sources| == |t.origins| == |t.chains|
  {
    exists c :: c in cs && t.sources[i] in c.sources && t.origins[i] == c.file && t.chains[i] == c.chain
  }

  /** Sources, origins and chains stay aligned. */
  lemma {:induction false} SourcesAligned(cs: seq<Contribution>)
    ensures var t := TotalsOf(cs);
            && |t.origins| == |t.chains| == |t.sources|
            && forall i :: 0 <= i < |t.sources| ==> FromOne(cs, t, i)
  {
    if cs != [] {
      var c := cs[|cs| - 1];
      var shorter := cs[..|cs| - 1];
      SourcesAligned(shorter);
      var t, u := TotalsOf(cs), TotalsOf(shorter);
      forall i | 0 <= i < |t.sources| ensures FromOne(cs, t, i) {
        if i < |u.sources| {
          assert FromOne(shorter, u, i);
          var c' :| c' in shorter && u.sources[i] in c'.sources && u.origins[i] == c'.file
                    && u.chains[i] == c'.chain;
          assert c' in cs;
        } else {
          assert t.sources[i] == c.sources[i - |u.sources|];
          assert c in cs;
        }
      }
    }
  }

  /** Each contribution's chain is an include route from the root to the contributing file. */
  lemma {:induction false} ChainsAreRoutes(d: Disk, root: Path, t: Node, isRoot: bool, chain: seq<Path>)
    requires Unfolds(d, t) && IsRouteTo(d, root, chain, t.path)
    ensures forall c | c in Gather(d, t, isRoot, chain) ::
              IsRouteTo(d, root, c.chain, c.file) && c.file in d.files
              && c == ContributionOf(d.files[c.file], c.file, isRoot && c.chain == chain, c.chain)
              && |c.chain| >= |chain|
    decreases t, 0
  {
    forall i | 0 <= i < |t.children|
      ensures IsRouteTo(d, root, chain + [t.children[i].path], t.children[i].path)
    {
      var o := Occurrence(t.path, i);
      assert Target(d, o) == t.children[i].path;
      RouteStep(d, root, chain, o);
    }
    ChainsAreRoutesAll(d, root, t.children, chain);
  }

  lemma {:induction false} ChainsAreRoutesAll(d: Disk, root: Path, ts: seq<Node>, chain: seq<Path>)
    requires forall t | t in ts :: Unfolds(d, t)
    requires forall i :: 0 <= i < |ts| ==> IsRouteTo(d, root, chain + [ts[i].path], ts[i].path)
    ensures forall c | c in GatherAll(d, ts, chain) ::
              IsRouteTo(d, root, c.chain, c.file) && c.file in d.files
              && c == ContributionOf(d.files[c.file], c.file, false, c.chain)
              && |c.chain| > |chain|
    decreases ts, |ts|
  {
    if ts != [] {
      var last := ts[|ts| - 1];
      assert forall t | t in ts[..|ts| - 1] :: t in ts;
      ChainsAreRoutesAll(d, root, ts[..|ts| - 1], chain);
      ChainsAreRoutes(d, root, last, false, chain + [last.path]);
    }
  }

  // -------------------------------------------------------------------- the walks

  /** Why a walk stopped early. */
  ghost predicate Justified(d: Disk, root: Path, e: WalkError) {
    match e
    case Unreadable(p) => Reachable(d, root, p) && p !in d.files
    case BadContent(p) => Reachable(d, root, p) && p in d.files && !ContentOk(d.files[p], p == root)
    case NothingMatched(p) => Reachable(d, root, p) && p in d.files && NoMatch in d.files[p].matches
    case IncludeCycle(chain) => IsRoute(d, root, chain) && !IsTree(d, root)
  }

  /** The display walk looks at nothing but the patterns of a file. */
  ghost predicate ListingJustified(d: Disk, root: Path, e: WalkError) {
    match e
    case BadContent(p) => Reachable(d, root, p) && p in d.files && !d.files[p].includeIsStrings
    case _ => Justified(d, root, e)
  }

  /** What expanding the file at `p` adds: `kids` in order, all of them followed. */
  ghost predicate Expanded(d: Disk, p: Path, kids: seq<Node>, entered: seq<Path>, via: seq<Occurrence>,
                           entered': seq<Path>, via': seq<Occurrence>)
  {
    && (forall t | t in kids :: Unfolds(d, t))
    && entered' == entered + PreorderAll(kids)
    && via <= via'
    && (forall k :: |via| <= k < |via'| ==> via'[k].p == p || via'[k].p in PreorderAll(kids))
    && AllFollowed(d, PreorderAll(kids), via')
  }

  /** The first `i` matches of the file at `p` are followed, the rest are not. */
  ghost predicate PartlyExpanded(d: Disk, p: Path, i: nat, kids: seq<Node>,
                                 entered: seq<Path>, via: seq<Occurrence>,
                                 entered': seq<Path>, via': seq<Occurrence>)
  {
    && p in d.files && |kids| == i <= |d.files[p].matches|
    && Expanded(d, p, kids, entered, via, entered', via')
    && (forall j :: 0 <= j < i ==> d.files[p].matches[j] == Match(kids[j].path))
    && (forall j :: 0 <= j < i ==> Occurrence(p, j) in via')
    && (forall k :: 0 <= k < |via'| && via'[k].p == p ==> via'[k].i < i)
  }

  lemma ExpandOneMore(d: Disk, p: Path, i: nat, kids: seq<Node>, kid: Node,
                      entered: seq<Path>, via: seq<Occurrence>, entered1: seq<Path>, via1: seq<Occurrence>,
                      entered2: seq<Path>, via2: seq<Occurrence>)
    requires PartlyExpanded(d, p, i, kids, entered, via, entered1, via1)
    requires IsOccurrence(d, Occurrence(p, i)) && kid.path == Target(d, Occurrence(p, i)) && Unfolds(d, kid)
    requires Expanded(d, kid.path, kid.children, entered1 + [kid.path], via1 + [Occurrence(p, i)], entered2, via2)
    requires AllFollowed(d, [kid.path], via2)
    requires forall k :: |via1| < k < |via2| ==> via2[k].p != p
    ensures PartlyExpanded(d, p, i + 1, kids + [kid], entered, via, entered2, via2)
    ensures forall k :: 0 <= k < |via2| && via2[k].p == p ==> via2[k].i <= i
    ensures forall t | t in kids + [kid] :: Unfolds(d, t)
  {
    var o := Occurrence(p, i);
    assert via2[|via1|] == o;
    forall k | 0 <= k < |via1| ensures via2[k] == via1[k] {
      assert via2[k] == (via1 + [o])[k];
    }
    forall x | x in via1 ensures x in via2 {
      var k :| 0 <= k < |via1| && via1[k] == x;
      assert via2[k] == x;
    }
    var more := kids + [kid];
    assert more[..|more| - 1] == kids;
    assert PreorderAll(more) == PreorderAll(kids) + ([kid.path] + PreorderAll(kid.children));
    assert entered2 == entered + PreorderAll(more);
    forall k | |via| <= k < |via2| ensures via2[k].p == p || via2[k].p in PreorderAll(more) {
      if k > |via1| {
        assert via2[k].p == kid.path || via2[k].p in PreorderAll(kid.children);
      }
    }
    forall q, j: nat | q in PreorderAll(more) && q in d.files && j < |d.files[q].matches|
      ensures d.files[q].matches[j].Match? && Occurrence(q, j) in via2
    {
      if q in PreorderAll(kids) {
        assert Occurrence(q, j) in via1;
      } else if q == kid.path {
        assert q in [kid.path];
      }
    }
  }

  lemma StartExpanding(d: Disk, root: Path, p: Path, entered: seq<Path>, via: seq<Occurrence>, chain: seq<Path>)
    requires p in d.files && forall k :: 0 <= k < |via| ==> via[k].p != p
    ensures PartlyExpanded(d, p, 0, [], entered, via, entered, via)
    ensures GatherAll(d, [], chain) == [] && ContentOkAll(d, root, PreorderAll([]))
  {
    assert entered + PreorderAll([]) == entered;
  }

  lemma OneMoreKid(d: Disk, root: Path, kids: seq<Node>, kid: Node, chain: seq<Path>)
    requires forall t | t in kids + [kid] :: Unfolds(d, t)
    requires ContentOkAll(d, root, PreorderAll(kids)) && ContentOkAll(d, root, Preorder(kid))
    ensures forall t | t in kids :: Unfolds(d, t)
    ensures GatherAll(d, kids + [kid], chain)
            == GatherAll(d, kids, chain) + Gather(d, kid, false, chain + [kid.path])
    ensures ContentOkAll(d, root, PreorderAll(kids + [kid]))
  {
    var more := kids + [kid];
    assert more[..|more| - 1] == kids;
    forall t | t in kids ensures Unfolds(d, t) { assert t in more; }
  }

  lemma FullyExpanded(d: Disk, root: Path, p: Path, kids: seq<Node>, isRoot: bool, chain: seq<Path>,
                      entered: seq<Path>, via: seq<Occurrence>, entered': seq<Path>, via': seq<Occurrence>)
    requires p in d.files && ContentOk(d.files[p], isRoot) && (isRoot <==> p == root)
    requires PartlyExpanded(d, p, |d.files[p].matches|, kids, entered, via, entered', via')
    requires ContentOkAll(d, root, PreorderAll(kids))
    ensures Unfolds(d, Node(p, kids)) && AllFollowed(d, [p], via')
    ensures Expanded(d, p, kids, entered, via, entered', via')
    ensures Gather(d, Node(p, kids), isRoot, chain)
            == [ContributionOf(d.files[p], p, isRoot, chain)] + GatherAll(d, kids, chain)
    ensures ContentOkAll(d, root, Preorder(Node(p, kids)))
  {}

  /** Each canonical path taken up leaves fewer files to take up. */
  lemma RoomShrinks(d: Disk, visited: set<Path>, visited': set<Path>, p: Path)
    requires p in d.files && visited <= visited' && d.canon(p) in visited' - visited
    ensures Canons(d, d.files.Keys) - visited' < Canons(d, d.files.Keys) - visited
  {
    assert d.canon(p) in Canons(d, d.files.Keys);
  }

  /** Below a newly entered file, only occurrences of newly entered files are followed. */
  lemma KidsLeaveParent(d: Disk, root: Path, p: Path, kid: Node, entered: seq<Path>, via: seq<Occurrence>,
                        entered': seq<Path>, via': seq<Occurrence>, visited': set<Path>)
    requires Expanded(d, kid.path, kid.children, entered, via, entered', via')
    requires WalkInv(d, root, entered', via', visited')
    requires entered != [] && entered[|entered| - 1] == kid.path && p in entered[..|entered| - 1]
    ensures p in entered'
    ensures forall k :: |via| <= k < |via'| ==> via'[k].p != p
  {
    var j :| 0 <= j < |entered| - 1 && entered[j] == p;
    assert entered'[j] == p && entered'[|entered| - 1] == kid.path;
    forall k | |via| <= k < |via'| ensures via'[k].p != p {
      if via'[k].p in PreorderAll(kid.children) {
        var i :| 0 <= i < |PreorderAll(kid.children)| && PreorderAll(kid.children)[i] == via'[k].p;
        assert entered'[|entered| + i] == via'[k].p;
      }
    }
  }

  class Walk {
    const disk: Disk
    const root: Path
    var visited: set<Path>
    var chain: seq<Path>
    ghost var entered: seq<Path>
    ghost var via: seq<Occurrence>

    var sources: seq<Value>
    var origins: seq<Path>
    var sourceChains: seq<seq<Path>>
    var secrets: seq<Value>
    var models: seq<(Value, Path)>
    var functions: seq<(Value, Path)>
    var fragVars: map<Path, Value>
    ghost var gathered: seq<Contribution>

    ghost predicate WalkValid()
      reads this
    {
      WalkInv(disk, root, entered, via, visited) && IsRoute(disk, root, chain)
    }

    /** Every accumulator holds what the gathered contributions say. */
    ghost predicate Accumulated()
      reads this
    {
      Sums() == TotalsOf(gathered)
    }

    function Sums(): Totals
      reads this
    {
      Totals(sources, origins, sourceChains, secrets, models, functions, fragVars)
    }

    /** The root is marked as taken up and starts the chain. */
    constructor (disk: Disk, root: Path)
      ensures fresh(this) && this.disk == disk && this.root == root
      ensures WalkValid() && Accumulated()
      ensures chain == [root] && entered == [root] && via == [] && gathered == []
    {
      this.disk, this.root := disk, root;
      visited, chain := {disk.canon(root)}, [root];
      entered, via := [root], [];
      sources, origins, sourceChains, secrets := [], [], [], [];
      models, functions, fragVars, gathered := [], [], map[], [];
      new;
      assert IsRouteTo(disk, root, [root], root);
      assert Elements(entered) == {root};
    }

    method TakeModels(models': Field, path: Path) returns (ok: bool)
      modifies this`models
      ensures ok == (models' != Malformed)
      ensures ok ==> models == old(models) + Tag(ItemsOf(models'), path)
    {
      match models' {
        case Malformed => return false;
        case Missing =>
        case Items(ms) => models := models + Tag(ms, path);
      }
      return true;
    }

    /** The lists of a fragment: its variables, sources, secrets and functions. */
    method TakeLists(f: File, path: Path, isRoot: bool) returns (ok: bool)
      modifies this`sources, this`origins, this`sourceChains, this`secrets, this`functions, this`fragVars
      ensures ok == (f.sources != Malformed && f.secrets != Malformed && f.functions != Malformed)
      ensures ok ==>
        && sources == old(sources) + ItemsOf(f.sources)
        && origins == old(origins) + Repeat(path, |ItemsOf(f.sources)|)
        && sourceChains == old(sourceChains) + Repeat(chain, |ItemsOf(f.sources)|)
        && secrets == old(secrets) + ItemsOf(f.secrets)
        && functions == old(functions) + Tag(ItemsOf(f.functions), path)
        && fragVars == if isRoot || f.variables.None? then old(fragVars)
                       else old(fragVars)[path := f.variables.value]
    {
      if !isRoot && f.variables.Some? {
        fragVars := fragVars[path := f.variables.value];
      }
      match f.sources {
        case Malformed => return false;
        case Missing =>
        case Items(ss) =>
          sources := sources + ss;
          origins := origins + Repeat(path, |ss|);
          sourceChains := sourceChains + Repeat(chain, |ss|);
      }
      match f.secrets {
        case Malformed => return false;
        case Missing =>
        case Items(ss) => secrets := secrets + ss;
      }
      match f.functions {
        case Malformed => return false;
        case Missing =>
        case Items(fs) => functions := functions + Tag(fs, path);
      }
      return true;
    }

    /** The body of a file: one bare source, or the lists of a fragment. */
    method TakeBody(f: File, path: Path, isRoot: bool) returns (ok: bool)
      modifies this`sources, this`origins, this`sourceChains, this`secrets, this`functions, this`fragVars
      ensures ok == (f.includeIsStrings && (IsSingleSource(f, isRoot) ||
                       (f.sources != Malformed && f.secrets != Malformed && f.functions != Malformed)))
      ensures ok ==> var c := ContributionOf(f, path, isRoot, chain);
        Totals(sources, origins, sourceChains, secrets, [], functions, fragVars)
        == Add(Totals(old(sources), old(origins), old(sourceChains), old(secrets), [],
                      old(functions), old(fragVars)), c.(models := []))
      ensures ok && f.hasKind && !isRoot ==>
        && sources == old(sources) + [f.body] && origins == old(origins) + [path]
        && sourceChains == old(sourceChains) + [chain]
        && secrets == old(secrets) && functions == old(functions) && fragVars == old(fragVars)
    {
      if !isRoot && f.hasKind {
        sources := sources + [f.body];
        origins := origins + [path];
        sourceChains := sourceChains + [chain];
        assert [path] == Repeat(path, 1) && [chain] == Repeat(chain, 1);
        assert secrets == old(secrets) + [] && functions == old(functions) + Tag([], path);
      } else {
        ok := TakeLists(f, path, isRoot);
        if !ok {
          return;
        }
      }
      ok := f.includeIsStrings;
    }

    /** The part of `collect` that checks one file and takes its content. */
    method TakeContent(path: Path, isRoot: bool) returns (ok: bool)
      requires path in disk.files && Accumulated()
      modifies this`sources, this`origins, this`sourceChains, this`secrets, this`models,
               this`functions, this`fragVars, this`gathered
      ensures ok == ContentOk(disk.files[path], isRoot)
      ensures ok ==> Accumulated()
      ensures ok ==> gathered == old(gathered) + [ContributionOf(disk.files[path], path, isRoot, chain)]
    {
      var f := disk.files[path];
      ok := f.isMapping && (isRoot || (!f.hasVersion && !f.hasDefaults && (f.hasKind || !f.hasName)));
      if !ok {
        return;
      }
      if !isRoot {
        ok := TakeModels(f.models, path);
        if !ok {
          return;
        }
      }
      ok := TakeBody(f, path, isRoot);
      if ok {
        ghost var c := ContributionOf(f, path, isRoot, chain);
        gathered := gathered + [c];
        assert gathered[..|gathered| - 1] == old(gathered);
        assert models == old(models) + Tag(c.models, path);
      }
    }

    /** Nothing has been followed from `p` yet, which is where the walk stands. */
    ghost predicate Standing(p: Path)
      reads this
    {
      && WalkValid() && p in disk.files && p in entered
      && chain[|chain| - 1] == p && Reachable(disk, root, p)
    }

    /**
     * Take the content of the file at `path`, then follow its matches in order, depth first.
     * On success `t` is the include tree below `path`.
     */
    method Collect(path: Path, isRoot: bool) returns (err: Option<WalkError>, ghost t: Node)
      requires Standing(path) && Accumulated()
      requires isRoot <==> path == root
      requires forall k :: 0 <= k < |via| ==> via[k].p != path
      modifies this
      ensures err.Some? ==> Justified(disk, root, err.value)
      ensures err.None? ==> WalkValid() && Accumulated() && chain == old(chain) && old(visited) <= visited
      ensures err.None? ==> t.path == path && Unfolds(disk, t)
      ensures err.None? ==> Expanded(disk, path, t.children, old(entered), old(via), entered, via)
      ensures err.None? ==> AllFollowed(disk, [path], via)
      ensures err.None? ==> gathered == old(gathered) + Gather(disk, t, isRoot, chain)
      ensures err.None? ==> ContentOkAll(disk, root, Preorder(t))
      decreases Canons(disk, disk.files.Keys) - visited, 2
    {
      hide WalkInv, Expanded, PartlyExpanded, Unfolds, AllFollowed, IsTree, ContentOk, TotalsOf, Preorder,
           PreorderAll, Gather, GatherAll, Canons;
      t := Node(path, []);
      var ok := TakeContent(path, isRoot);
      if !ok {
        return Some(BadContent(path)), t;
      }
      ghost var kids;
      err, kids := CollectIncludes(path);
      if err.None? {
        FullyExpanded(disk, root, path, kids, isRoot, chain, old(entered), old(via), entered, via);
        t := Node(path, kids);
      }
    }

    /** The part of `collect` that follows the matches of one file. */
    method CollectIncludes(path: Path) returns (err: Option<WalkError>, ghost kids: seq<Node>)
      requires Standing(path) && Accumulated()
      requires forall k :: 0 <= k < |via| ==> via[k].p != path
      modifies this
      ensures err.Some? ==> Justified(disk, root, err.value)
      ensures err.None? ==> Standing(path) && Accumulated() && chain == old(chain) && old(visited) <= visited
      ensures err.None? ==>
        PartlyExpanded(disk, path, |disk.files[path].matches|, kids, old(entered), old(via), entered, via)
      ensures err.None? ==> forall t | t in kids :: Unfolds(disk, t)
      ensures err.None? ==> gathered == old(gathered) + GatherAll(disk, kids, chain)
      ensures err.None? ==> ContentOkAll(disk, root, PreorderAll(kids))
      decreases Canons(disk, disk.files.Keys) - visited, 1
    {
      hide WalkInv, Expanded, PartlyExpanded, Unfolds, AllFollowed, IsTree, ContentOk, TotalsOf, Preorder,
           PreorderAll, Gather, GatherAll, Canons;
      var matches := disk.files[path].matches;
      kids := [];
      StartExpanding(disk, root, path, entered, via, chain);
      var i := 0;
      while i < |matches|
        invariant 0 <= i <= |matches|
        invariant Standing(path) && Accumulated() && chain == old(chain) && old(visited) <= visited
        invariant PartlyExpanded(disk, path, i, kids, old(entered), old(via), entered, via)
        invariant forall k :: 0 <= k < |via| && via[k].p == path ==> via[k].i < i
        invariant forall t | t in kids :: Unfolds(disk, t)
        invariant gathered == old(gathered) + GatherAll(disk, kids, chain)
        invariant ContentOkAll(disk, root, PreorderAll(kids))
      {
        if matches[i].NoMatch? {
          return Some(NothingMatched(path)), kids;
        }
        ghost var entered1, via1 := entered, via;
        ghost var kid;
        err, kid := CollectMatch(path, i);
        if err.Some? {
          return;
        }
        ExpandOneMore(disk, path, i, kids, kid, old(entered), old(via), entered1, via1, entered, via);
        OneMoreKid(disk, root, kids, kid, chain);
        kids := kids + [kid];
        i := i + 1;
      }
      err := None;
    }

    /** Follow the `i`-th match of the file where the walk stands. */
    method CollectMatch(path: Path, i: nat) returns (err: Option<WalkError>, ghost kid: Node)
      requires Standing(path) && Accumulated()
      requires IsOccurrence(disk, Occurrence(path, i))
      requires forall k :: 0 <= k < |via| && via[k].p == path ==> via[k].i < i
      modifies this
      ensures err.Some? ==> Justified(disk, root, err.value)
      ensures err.None? ==> WalkValid() && Accumulated() && chain == old(chain) && old(visited) <= visited
      ensures err.None? ==> Standing(path)
      ensures err.None? ==> kid.path == Target(disk, Occurrence(path, i)) && Unfolds(disk, kid)
      ensures err.None? ==> Expanded(disk, kid.path, kid.children, old(entered) + [kid.path],
                                     old(via) + [Occurrence(path, i)], entered, via)
      ensures err.None? ==> AllFollowed(disk, [kid.path], via)
      ensures err.None? ==> gathered == old(gathered) + Gather(disk, kid, false, chain + [kid.path])
      ensures err.None? ==> ContentOkAll(disk, root, Preorder(kid))
      ensures err.None? ==> forall k :: |old(via)| < k < |via| ==> via[k].p != path
      decreases Canons(disk, disk.files.Keys) - visited, 0
    {
      hide WalkInv, Expanded, PartlyExpanded, Unfolds, AllFollowed, IsTree, ContentOk, TotalsOf, Preorder,
           PreorderAll, Gather, GatherAll, Canons;
      var matched := disk.files[path].matches[i].path;
      kid := Node(matched, []);
      ghost var o := Occurrence(path, i);
      assert IsRouteTo(disk, root, chain, path);
      RouteStep(disk, root, chain, o);
      var canon := disk.canon(matched);
      if canon in visited {
        MeetAgain(disk, root, entered, via, visited, o);
        return Some(IncludeCycle(chain + [matched])), kid;
      }
      TakeUp(disk, root, entered, via, visited, chain, o);
      visited := visited + {canon};
      chain := chain + [matched];
      entered, via := entered + [matched], via + [o];
      if matched !in disk.files {
        return Some(Unreadable(matched)), kid;
      }
      RoomShrinks(disk, old(visited), visited, matched);
      err, kid := Collect(matched, false);
      if err.Some? {
        return;
      }
      KidsLeaveParent(disk, root, path, kid, old(entered) + [matched], old(via) + [o], entered, via, visited);
      chain := chain[..|chain| - 1];
      assert chain == old(chain);
    }

    /** The graph below `path`, for display: the same walk without taking any content. */
    method BuildIncludeNode(path: Path) returns (r: Result<Node, WalkError>)
      requires WalkValid() && path in entered && chain[|chain| - 1] == path && Reachable(disk, root, path)
      requires forall k :: 0 <= k < |via| ==> via[k].p != path
      modifies this`visited, this`chain, this`entered, this`via
      ensures r.Err? ==> ListingJustified(disk, root, r.error)
      ensures r.Ok? ==> WalkValid() && chain == old(chain) && old(visited) <= visited
      ensures r.Ok? ==> r.value.path == path && Unfolds(disk, r.value)
      ensures r.Ok? ==> Expanded(disk, path, r.value.children, old(entered), old(via), entered, via)
      ensures r.Ok? ==> AllFollowed(disk, [path], via)
      ensures r.Ok? ==> ListedAll(disk, Preorder(r.value))
      decreases path !in disk.files, Canons(disk, disk.files.Keys) - visited, 1
    {
      hide WalkInv, Expanded, PartlyExpanded, Unfolds, AllFollowed, IsTree, Preorder, PreorderAll, Canons;
      if path !in disk.files {
        return Err(Unreadable(path));
      }
      if !disk.files[path].includeIsStrings {
        return Err(BadContent(path));
      }
      var matches := disk.files[path].matches;
      var children: seq<Node> := [];
      StartListing(disk, path, entered, via);
      var i := 0;
      while i < |matches|
        invariant 0 <= i <= |matches|
        invariant Standing(path) && chain == old(chain) && old(visited) <= visited
        invariant PartlyExpanded(disk, path, i, children, old(entered), old(via), entered, via)
        invariant forall k :: 0 <= k < |via| && via[k].p == path ==> via[k].i < i
        invariant ListedAll(disk, PreorderAll(children))
      {
        if matches[i].NoMatch? {
          return Err(NothingMatched(path));
        }
        ghost var entered1, via1 := entered, via;
        r := BuildMatch(path, i);
        if r.Err? {
          return;
        }
        ExpandOneMore(disk, path, i, children, r.value, old(entered), old(via), entered1, via1, entered, via);
        OneMoreListed(disk, children, r.value);
        children := children + [r.value];
        i := i + 1;
      }
      FullyListed(disk, path, children, old(entered), old(via), entered, via);
      r := Ok(Node(path, children));
    }

    method BuildMatch(path: Path, i: nat) returns (r: Result<Node, WalkError>)
      requires Standing(path)
      requires IsOccurrence(disk, Occurrence(path, i))
      requires forall k :: 0 <= k < |via| && via[k].p == path ==> via[k].i < i
      modifies this`visited, this`chain, this`entered, this`via
      ensures r.Err? ==> ListingJustified(disk, root, r.error)
      ensures r.Ok? ==> Standing(path) && chain == old(chain) && old(visited) <= visited
      ensures r.Ok? ==> r.value.path == Target(disk, Occurrence(path, i)) && Unfolds(disk, r.value)
      ensures r.Ok? ==> Expanded(disk, r.value.path, r.value.children, old(entered) + [r.value.path],
                                 old(via) + [Occurrence(path, i)], entered, via)
      ensures r.Ok? ==> AllFollowed(disk, [r.value.path], via)
      ensures r.Ok? ==> ListedAll(disk, Preorder(r.value))
      ensures r.Ok? ==> forall k :: |old(via)| < k < |via| ==> via[k].p != path
      decreases false, Canons(disk, disk.files.Keys) - visited, 0
    {
      hide WalkInv, Expanded, PartlyExpanded, Unfolds, AllFollowed, IsTree, Preorder, PreorderAll, Canons;
      var matched := disk.files[path].matches[i].path;
      ghost var o := Occurrence(path, i);
      assert IsRouteTo(disk, root, chain, path);
      RouteStep(disk, root, chain, o);
      var canon := disk.canon(matched);
      if canon in visited {
        MeetAgain(disk, root, entered, via, visited, o);
        return Err(IncludeCycle(chain + [matched]));
      }
      TakeUp(disk, root, entered, via, visited, chain, o);
      visited := visited + {canon};
      chain := chain + [matched];
      entered, via := entered + [matched], via + [o];
      if matched !in disk.files {
        return Err(Unreadable(matched));
      }
      RoomShrinks(disk, old(visited), visited, matched);
      r := BuildIncludeNode(matched);
      if r.Err? {
        return;
      }
      KidsLeaveParent(disk, root, path, r.value, old(entered) + [matched], old(via) + [o], entered, via, visited);
      chain := chain[..|chain| - 1];
      assert chain == old(chain);
    }
  }

  ghost predicate ListedAll(d: Disk, paths: seq<Path>) {
    forall p | p in paths :: p in d.files && d.files[p].includeIsStrings
  }

  lemma StartListing(d: Disk, p: Path, entered: seq<Path>, via: seq<Occurrence>)
    requires p in d.files && forall k :: 0 <= k < |via| ==> via[k].p != p
    ensures PartlyExpanded(d, p, 0, [], entered, via, entered, via) && ListedAll(d, PreorderAll([]))
  {
    assert entered + PreorderAll([]) == entered;
  }

  lemma OneMoreListed(d: Disk, kids: seq<Node>, kid: Node)
    requires ListedAll(d, PreorderAll(kids)) && ListedAll(d, Preorder(kid))
    ensures ListedAll(d, PreorderAll(kids + [kid]))
  {
    assert (kids + [kid])[..|kids|] == kids;
  }

  lemma FullyListed(d: Disk, p: Path, kids: seq<Node>, entered: seq<Path>, via: seq<Occurrence>,
                    entered': seq<Path>, via': seq<Occurrence>)
    requires p in d.files && d.files[p].includeIsStrings && ListedAll(d, PreorderAll(kids))
    requires PartlyExpanded(d, p, |d.files[p].matches|, kids, entered, via, entered', via')
    ensures Unfolds(d, Node(p, kids)) && AllFollowed(d, [p], via')
    ensures Expanded(d, p, kids, entered, via, entered', via')
    ensures ListedAll(d, Preorder(Node(p, kids)))
  {}

  ghost predicate ContentOkAll(d: Disk, root: Path, paths: seq<Path>) {
    forall p | p in paths :: p in d.files && ContentOk(d.files[p], p == root)
  }

  // -------------------------------------------------------------------- the results

  /** What both walks deliver: the include tree, listing every reachable file once. */
  ghost predicate IsIncludeTree(d: Disk, root: Path, t: Node) {
    && t.path == root && Unfolds(d, t)
    && (forall p :: p in Preorder(t) <==> Reachable(d, root, p))
    && (forall j, k :: 0 <= j < k < |Preorder(t)| ==> d.canon(Preorder(t)[j]) != d.canon(Preorder(t)[k]))
  }

  lemma WalkComplete(d: Disk, root: Path, t: Node, entered: seq<Path>, via: seq<Occurrence>, visited: set<Path>)
    requires WalkInv(d, root, entered, via, visited)
    requires t.path == root && Unfolds(d, t) && Expanded(d, root, t.children, [root], [], entered, via)
    requires AllFollowed(d, [root], via)
    ensures IsTree(d, root) && IsIncludeTree(d, root, t)
    ensures ContentOkAll(d, root, Preorder(t)) ==> AllFilesOk(d, root)
    ensures ListedAll(d, Preorder(t)) ==> AllListed(d, root)
  {
    assert entered == Preorder(t);
    assert AllFollowed(d, entered, via);
    FinishedIsTree(d, root, entered, via, visited);
    forall p | Reachable(d, root, p) && p in d.files ensures NoMatch !in d.files[p].matches {
      assert p in entered;
      forall i | 0 <= i < |d.files[p].matches| ensures d.files[p].matches[i] != NoMatch {
        var n: nat := i;
        assert d.files[p].matches[n].Match?;
      }
    }
  }

  /**
   * The include part of `assemble`: it succeeds exactly when the reachable files form a tree and
   * none of them is unreadable or malformed. It then enters every reachable file once in
   * preorder, and each source comes with its file and its include chain.
   */
  method CollectAll(disk: Disk, root: Path) returns (err: Option<WalkError>, w: Walk, ghost t: Node)
    requires root in disk.files
    ensures err.None? <==> IsTree(disk, root) && AllFilesOk(disk, root)
    ensures err.Some? ==> Justified(disk, root, err.value)
    ensures err.None? ==> IsIncludeTree(disk, root, t)
    ensures err.None? ==> w.Accumulated() && w.gathered == Gather(disk, t, true, [root])
    ensures err.None? ==> InOrder(disk, Preorder(t)) && Collected(disk, root, Preorder(t), w.Sums())
  {
    w := new Walk(disk, root);
    assert IsRouteTo(disk, root, [root], root);
    err, t := w.Collect(root, true);
    if err.None? {
      WalkComplete(disk, root, t, w.entered, w.via, w.visited);
      GatheredIsCollected(disk, root, t);
      PreorderIsDocumentOrder(disk, t);
    }
  }

  // ------------------------------------------------- what is collected, file by file

  /** What a file declares: itself, if it is a bare source, or else its list. */
  predicate DeclaresSources(f: File, isRoot: bool, block: seq<Value>) {
    if f.hasKind && !isRoot then block == [f.body]
    else match f.sources { case Items(vs) => block == vs case _ => block == [] }
  }

  predicate DeclaresSecrets(f: File, isRoot: bool, block: seq<Value>) {
    if f.hasKind && !isRoot then block == []
    else match f.secrets { case Items(vs) => block == vs case _ => block == [] }
  }

  /** Each function comes with its file. */
  ghost predicate DeclaresFunctions(f: File, isRoot: bool, file: Path, block: seq<(Value, Path)>) {
    if f.hasKind && !isRoot then block == []
    else match f.functions { case Items(vs) => IsTagged(block, vs, file) case _ => block == [] }
  }

  /** The root's models stay where they are. */
  ghost predicate DeclaresModels(f: File, isRoot: bool, file: Path, block: seq<(Value, Path)>) {
    if isRoot then block == []
    else match f.models { case Items(vs) => IsTagged(block, vs, file) case _ => block == [] }
  }

  /** A list of `n` is cut into blocks at these positions. */
  ghost predicate Cuts(at: seq<nat>, blocks: nat, n: nat) {
    && |at| == blocks + 1 && at[0] == 0 && at[blocks] == n
    && forall j, k :: 0 <= j <= k <= blocks ==> at[j] <= at[k]
  }

  /** One block of sources for each of the files `ps`, with that file as origin and a route to it. */
  ghost predicate SourcesCollected(d: Disk, root: Path, ps: seq<Path>, t: Totals, at: seq<nat>) {
    && Cuts(at, |ps|, |t.sources|) && |t.origins| == |t.chains| == |t.sources|
    && forall j :: 0 <= j < |ps| ==>
         && ps[j] in d.files && DeclaresSources(d.files[ps[j]], ps[j] == root, t.sources[at[j]..at[j + 1]])
         && forall i :: at[j] <= i < at[j + 1] ==> t.origins[i] == ps[j] && IsRouteTo(d, root, t.chains[i], ps[j])
  }

  ghost predicate SecretsCollected(d: Disk, root: Path, ps: seq<Path>, t: Totals, at: seq<nat>) {
    && Cuts(at, |ps|, |t.secrets|)
    && forall j :: 0 <= j < |ps| ==>
         ps[j] in d.files && DeclaresSecrets(d.files[ps[j]], ps[j] == root, t.secrets[at[j]..at[j + 1]])
  }

  ghost predicate FunctionsCollected(d: Disk, root: Path, ps: seq<Path>, t: Totals, at: seq<nat>) {
    && Cuts(at, |ps|, |t.functions|)
    && forall j :: 0 <= j < |ps| ==>
         ps[j] in d.files && DeclaresFunctions(d.files[ps[j]], ps[j] == root, ps[j], t.functions[at[j]..at[j + 1]])
  }

  ghost predicate ModelsCollected(d: Disk, root: Path, ps: seq<Path>, t: Totals, at: seq<nat>) {
    && Cuts(at, |ps|, |t.models|)
    && forall j :: 0 <= j < |ps| ==>
         ps[j] in d.files && DeclaresModels(d.files[ps[j]], ps[j] == root, ps[j], t.models[at[j]..at[j + 1]])
  }

  ghost predicate IsTagged(block: seq<(Value, Path)>, vs: seq<Value>, file: Path) {
    |block| == |vs| && forall i :: 0 <= i < |vs| ==> block[i].0 == vs[i] && block[i].1 == file
  }

  /** The variables of every included fragment that declares some, at its path. */
  ghost predicate VariablesCollected(d: Disk, root: Path, ps: seq<Path>, t: Totals) {
    && (forall p :: p in t.variables <==>
          p in ps && p != root && p in d.files && !d.files[p].hasKind && d.files[p].variables.Some?)
    && (forall p | p in t.variables && p in d.files :: d.files[p].variables == Some(t.variables[p]))
  }

  /** Everything the files `ps` declare has been collected, in their order, and nothing else. */
  ghost predicate Collected(d: Disk, root: Path, ps: seq<Path>, t: Totals) {
    && (exists at :: SourcesCollected(d, root, ps, t, at))
    && (exists at :: SecretsCollected(d, root, ps, t, at))
    && (exists at :: FunctionsCollected(d, root, ps, t, at))
    && (exists at :: ModelsCollected(d, root, ps, t, at))
    && VariablesCollected(d, root, ps, t)
  }

  ghost predicate Blocks<T>(all: seq<T>, at: seq<nat>, bs: seq<seq<T>>) {
    Cuts(at, |bs|, |all|) && forall j :: 0 <= j < |bs| ==> all[at[j]..at[j + 1]] == bs[j]
  }

  lemma OneMoreBlock<T>(all: seq<T>, at: seq<nat>, bs: seq<seq<T>>, b: seq<T>)
    requires Blocks(all, at, bs)
    ensures Blocks(all + b, at + [|all| + |b|], bs + [b])
  {
    var more, cuts := all + b, at + [|all| + |b|];
    forall j | 0 <= j < |bs + [b]| ensures more[cuts[j]..cuts[j + 1]] == (bs + [b])[j] {
      if j < |bs| {
        assert more[at[j]..at[j + 1]] == all[at[j]..at[j + 1]];
      }
    }
  }

  lemma NoBlocks<T>()
    ensures Blocks<T>([], [0], [])
  {}

  function SourcesIn(cs: seq<Contribution>): (bs: seq<seq<Value>>)
    ensures |bs| == |cs| && forall i :: 0 <= i < |cs| ==> bs[i] == cs[i].sources
  {
    seq(|cs|, i requires 0 <= i < |cs| => cs[i].sources)
  }

  function OriginsIn(cs: seq<Contribution>): (bs: seq<seq<Path>>)
    ensures |bs| == |cs| && forall i :: 0 <= i < |cs| ==> bs[i] == Repeat(cs[i].file, |cs[i].sources|)
  {
    seq(|cs|, i requires 0 <= i < |cs| => Repeat(cs[i].file, |cs[i].sources|))
  }

  function ChainsIn(cs: seq<Contribution>): (bs: seq<seq<seq<Path>>>)
    ensures |bs| == |cs| && forall i :: 0 <= i < |cs| ==> bs[i] == Repeat(cs[i].chain, |cs[i].sources|)
  {
    seq(|cs|, i requires 0 <= i < |cs| => Repeat(cs[i].chain, |cs[i].sources|))
  }

  function SecretsIn(cs: seq<Contribution>): (bs: seq<seq<Value>>)
    ensures |bs| == |cs| && forall i :: 0 <= i < |cs| ==> bs[i] == cs[i].secrets
  {
    seq(|cs|, i requires 0 <= i < |cs| => cs[i].secrets)
  }

  function FunctionsIn(cs: seq<Contribution>): (bs: seq<seq<(Value, Path)>>)
    ensures |bs| == |cs| && forall i :: 0 <= i < |cs| ==> bs[i] == Tag(cs[i].functions, cs[i].file)
  {
    seq(|cs|, i requires 0 <= i < |cs| => Tag(cs[i].functions, cs[i].file))
  }

  function ModelsIn(cs: seq<Contribution>): (bs: seq<seq<(Value, Path)>>)
    ensures |bs| == |cs| && forall i :: 0 <= i < |cs| ==> bs[i] == Tag(cs[i].models, cs[i].file)
  {
    seq(|cs|, i requires 0 <= i < |cs| => Tag(cs[i].models, cs[i].file))
  }

  lemma {:induction false} SourceBlocks(cs: seq<Contribution>) returns (at: seq<nat>)
    ensures var t := TotalsOf(cs);
      && Blocks(t.sources, at, SourcesIn(cs)) && Blocks(t.origins, at, OriginsIn(cs))
      && Blocks(t.chains, at, ChainsIn(cs))
  {
    hide Blocks;
    if cs == [] {
      at := [0];
      NoBlocks<Value>();
      NoBlocks<Path>();
      NoBlocks<seq<Path>>();
      assert SourcesIn(cs) == [] && OriginsIn(cs) == [] && ChainsIn(cs) == [];
    } else {
      var shorter, c := cs[..|cs| - 1], cs[|cs| - 1];
      var t := TotalsOf(shorter);
      at := SourceBlocks(shorter);
      SourcesAligned(shorter);
      OneMoreBlock(t.sources, at, SourcesIn(shorter), c.sources);
      OneMoreBlock(t.origins, at, OriginsIn(shorter), Repeat(c.file, |c.sources|));
      OneMoreBlock(t.chains, at, ChainsIn(shorter), Repeat(c.chain, |c.sources|));
      assert SourcesIn(cs) == SourcesIn(shorter) + [c.sources];
      assert OriginsIn(cs) == OriginsIn(shorter) + [Repeat(c.file, |c.sources|)];
      assert ChainsIn(cs) == ChainsIn(shorter) + [Repeat(c.chain, |c.sources|)];
      at := at + [|t.sources| + |c.sources|];
    }
  }

  lemma {:induction false} OtherBlocks(cs: seq<Contribution>)
    returns (secretsAt: seq<nat>, functionsAt: seq<nat>, modelsAt: seq<nat>)
    ensures var t := TotalsOf(cs);
      && Blocks(t.secrets, secretsAt, SecretsIn(cs)) && Blocks(t.functions, functionsAt, FunctionsIn(cs))
      && Blocks(t.models, modelsAt, ModelsIn(cs))
  {
    hide Blocks;
    if cs == [] {
      secretsAt, functionsAt, modelsAt := [0], [0], [0];
      NoBlocks<Value>();
      NoBlocks<(Value, Path)>();
      assert SecretsIn(cs) == [] && FunctionsIn(cs) == [] && ModelsIn(cs) == [];
    } else {
      var shorter, c := cs[..|cs| - 1], cs[|cs| - 1];
      var t := TotalsOf(shorter);
      secretsAt, functionsAt, modelsAt := OtherBlocks(shorter);
      OneMoreBlock(t.secrets, secretsAt, SecretsIn(shorter), c.secrets);
      OneMoreBlock(t.functions, functionsAt, FunctionsIn(shorter), Tag(c.functions, c.file));
      OneMoreBlock(t.models, modelsAt, ModelsIn(shorter), Tag(c.models, c.file));
      assert SecretsIn(cs) == SecretsIn(shorter) + [c.secrets];
      assert FunctionsIn(cs) == FunctionsIn(shorter) + [Tag(c.functions, c.file)];
      assert ModelsIn(cs) == ModelsIn(shorter) + [Tag(c.models, c.file)];
      secretsAt := secretsAt + [|t.secrets| + |c.secrets|];
      functionsAt := functionsAt + [|t.functions| + |c.functions|];
      modelsAt := modelsAt + [|t.models| + |c.models|];
    }
  }

  lemma {:induction false} VariablesOf(cs: seq<Contribution>)
    ensures forall p :: p in TotalsOf(cs).variables <==>
              exists i :: 0 <= i < |cs| && cs[i].file == p && cs[i].variables.Some?
    ensures forall p | p in TotalsOf(cs).variables ::
              exists i :: 0 <= i < |cs| && cs[i].file == p && cs[i].variables == Some(TotalsOf(cs).variables[p])
  {
    if cs != [] {
      var n := |cs| - 1;
      VariablesOf(cs[..n]);
      assert forall i | 0 <= i < n :: cs[..n][i] == cs[i];
    }
  }

  /** There is one contribution for each file of the tree, in preorder. */
  ghost predicate Contributes(d: Disk, isRoot: bool, ps: seq<Path>, cs: seq<Contribution>) {
    && |cs| == |ps|
    && forall j :: 0 <= j < |ps| ==>
         && ps[j] in d.files && cs[j].file == ps[j]
         && cs[j] == ContributionOf(d.files[ps[j]], ps[j], isRoot && j == 0, cs[j].chain)
  }

  lemma {:induction false} GatherFiles(d: Disk, t: Node, isRoot: bool, chain: seq<Path>)
    requires Unfolds(d, t)
    ensures Contributes(d, isRoot, Preorder(t), Gather(d, t, isRoot, chain))
    decreases t, 0
  {
    GatherAllFiles(d, t.children, chain);
  }

  lemma {:induction false} GatherAllFiles(d: Disk, ts: seq<Node>, chain: seq<Path>)
    requires forall t | t in ts :: Unfolds(d, t)
    ensures Contributes(d, false, PreorderAll(ts), GatherAll(d, ts, chain))
    decreases ts, |ts|
  {
    if ts != [] {
      var last := ts[|ts| - 1];
      assert forall t | t in ts[..|ts| - 1] :: t in ts;
      GatherAllFiles(d, ts[..|ts| - 1], chain);
      GatherFiles(d, last, false, chain + [last.path]);
    }
  }

  /** What the walk gathers is what the reachable files declare. */
  lemma GatheredIsCollected(d: Disk, root: Path, t: Node)
    requires IsIncludeTree(d, root, t)
    ensures Collected(d, root, Preorder(t), TotalsOf(Gather(d, t, true, [root])))
  {
    hide Blocks, IsRouteTo, TotalsOf, Gather, Cuts, Preorder, ContributionOf, DeclaresSources, DeclaresSecrets,
         DeclaresFunctions, DeclaresModels, SourcesCollected, SecretsCollected, FunctionsCollected, ModelsCollected,
         VariablesCollected, Contributes;
    var ps, cs := Preorder(t), Gather(d, t, true, [root]);
    GatherFiles(d, t, true, [root]);
    RootFirst(d, root, t);
    RootRoute(d, root);
    ChainsAreRoutes(d, root, t, true, [root]);
    var at := SourceBlocks(cs);
    SourcesAre(d, root, ps, cs, at);
    var secretsAt, functionsAt, modelsAt := OtherBlocks(cs);
    SecretsAre(d, root, ps, cs, secretsAt);
    FunctionsAre(d, root, ps, cs, functionsAt);
    ModelsAre(d, root, ps, cs, modelsAt);
    VariablesAre(d, root, ps, cs);
  }

  lemma RootRoute(d: Disk, root: Path)
    ensures IsRouteTo(d, root, [root], root)
  {}

  ghost predicate RootIsFirst(root: Path, ps: seq<Path>) {
    (forall j :: 0 <= j < |ps| ==> (ps[j] == root <==> j == 0)) && Distinct(ps)
  }

  lemma RootFirst(d: Disk, root: Path, t: Node)
    requires IsIncludeTree(d, root, t)
    ensures RootIsFirst(root, Preorder(t))
  {
    var ps := Preorder(t);
    assert ps[0] == root;
    forall j, k | 0 <= j < k < |ps| ensures ps[j] != ps[k] {
      assert d.canon(ps[j]) != d.canon(ps[k]);
    }
  }

  lemma SourcesAre(d: Disk, root: Path, ps: seq<Path>, cs: seq<Contribution>, at: seq<nat>)
    requires Contributes(d, true, ps, cs) && RootIsFirst(root, ps)
    requires forall c | c in cs :: IsRouteTo(d, root, c.chain, c.file)
    requires var t := TotalsOf(cs);
             Blocks(t.sources, at, SourcesIn(cs)) && Blocks(t.origins, at, OriginsIn(cs))
             && Blocks(t.chains, at, ChainsIn(cs))
    ensures SourcesCollected(d, root, ps, TotalsOf(cs), at)
  {
    hide IsRouteTo, TotalsOf;
    var t := TotalsOf(cs);
    SourcesAligned(cs);
    forall j | 0 <= j < |ps|
      ensures DeclaresSources(d.files[ps[j]], ps[j] == root, t.sources[at[j]..at[j + 1]])
    {}
    forall j, i | 0 <= j < |ps| && at[j] <= i < at[j + 1]
      ensures t.origins[i] == ps[j] && IsRouteTo(d, root, t.chains[i], ps[j])
    {
      hide DeclaresSources, ContributionOf;
      assert cs[j] in cs;
      assert t.origins[i] == t.origins[at[j]..at[j + 1]][i - at[j]];
      assert t.chains[i] == t.chains[at[j]..at[j + 1]][i - at[j]];
    }
  }

  lemma SecretsAre(d: Disk, root: Path, ps: seq<Path>, cs: seq<Contribution>, at: seq<nat>)
    requires Contributes(d, true, ps, cs) && RootIsFirst(root, ps) && Blocks(TotalsOf(cs).secrets, at, SecretsIn(cs))
    ensures SecretsCollected(d, root, ps, TotalsOf(cs), at)
  {
    hide TotalsOf;
  }

  lemma FunctionsAre(d: Disk, root: Path, ps: seq<Path>, cs: seq<Contribution>, at: seq<nat>)
    requires Contributes(d, true, ps, cs) && RootIsFirst(root, ps)
    requires Blocks(TotalsOf(cs).functions, at, FunctionsIn(cs))
    ensures FunctionsCollected(d, root, ps, TotalsOf(cs), at)
  {
    hide TotalsOf;
  }

  lemma ModelsAre(d: Disk, root: Path, ps: seq<Path>, cs: seq<Contribution>, at: seq<nat>)
    requires Contributes(d, true, ps, cs) && RootIsFirst(root, ps) && Blocks(TotalsOf(cs).models, at, ModelsIn(cs))
    ensures ModelsCollected(d, root, ps, TotalsOf(cs), at)
  {
    hide TotalsOf;
  }

  lemma VariablesAre(d: Disk, root: Path, ps: seq<Path>, cs: seq<Contribution>)
    requires Contributes(d, true, ps, cs) && RootIsFirst(root, ps)
    ensures VariablesCollected(d, root, ps, TotalsOf(cs))
  {
    hide TotalsOf;
    VariablesOf(cs);
    var t := TotalsOf(cs);
    forall p ensures p in t.variables <==>
        p in ps && p != root && p in d.files && !d.files[p].hasKind && d.files[p].variables.Some?
    {
      if p in ps {
        var j :| 0 <= j < |ps| && ps[j] == p;
        assert forall i | 0 <= i < |cs| && cs[i].file == p :: i == j;
      }
    }
  }

  /** A file that is one bare source is collected exactly once. */
  lemma BareSourceOnce(d: Disk, root: Path, ps: seq<Path>, t: Totals, p: Path) returns (i: nat)
    requires Collected(d, root, ps, t) && Distinct(ps) && p in ps && p != root && p in d.files && d.files[p].hasKind
    ensures i < |t.sources| == |t.origins| && t.sources[i] == d.files[p].body && t.origins[i] == p
    ensures forall k :: 0 <= k < |t.origins| && t.origins[k] == p ==> k == i
  {
    hide IsRouteTo;
    var at :| SourcesCollected(d, root, ps, t, at);
    var j :| 0 <= j < |ps| && ps[j] == p;
    i := at[j];
    assert t.sources[at[j]..at[j + 1]][0] == d.files[p].body;
    forall k | 0 <= k < |t.origins| && t.origins[k] == p ensures k == i {
      var b := BlockAt(at, |ps|, |t.sources|, k);
      assert ps[b] == p;
    }
  }

  lemma {:induction false} BlockAt(at: seq<nat>, blocks: nat, n: nat, k: nat) returns (j: nat)
    requires Cuts(at, blocks, n) && k < n
    ensures j < blocks && at[j] <= k < at[j + 1]
  {
    j := 0;
    while at[j + 1] <= k
      invariant j < blocks && at[j] <= k
      decreases blocks - j
    {
      j := j + 1;
    }
  }

  /** `p` comes before `q`: it includes it, or both hang on one file, `p` on an earlier match. */
  ghost predicate InDocumentOrder(d: Disk, p: Path, q: Path) {
    || Reachable(d, p, q)
    || exists a, b :: ForkAt(d, a, b) && Reachable(d, Target(d, a), p) && Reachable(d, Target(d, b), q)
  }

  ghost predicate ForkAt(d: Disk, a: Occurrence, b: Occurrence) {
    IsOccurrence(d, a) && IsOccurrence(d, b) && a.p == b.p && a.i < b.i
  }

  lemma ReachFurther(d: Disk, p: Path, q: Path, r: Path)
    requires Includes(d, p, q) && Reachable(d, q, r)
    ensures Reachable(d, p, r)
  {
    var route :| IsRouteTo(d, q, route, r);
    var longer := [p] + route;
    forall i | 0 <= i < |longer| - 1 ensures Includes(d, longer[i], longer[i + 1]) {
      if i > 0 {
        assert Includes(d, route[i - 1], route[i]);
      }
    }
    assert IsRouteTo(d, p, longer, r);
  }

  lemma {:induction false} InKid(ts: seq<Node>, p: Path) returns (m: nat)
    requires p in PreorderAll(ts)
    ensures m < |ts| && p in Preorder(ts[m])
  {
    m := |ts| - 1;
    if p !in Preorder(ts[m]) {
      m := InKid(ts[..m], p);
    }
  }

  lemma {:induction false} PreorderReachable(d: Disk, t: Node, p: Path)
    requires Unfolds(d, t) && p in Preorder(t)
    ensures Reachable(d, t.path, p)
    decreases t
  {
    if p == t.path {
      RootRoute(d, p);
    } else {
      var m := InKid(t.children, p);
      assert t.children[m] in t.children;
      PreorderReachable(d, t.children[m], p);
      assert Includes(d, t.path, t.children[m].path);
      ReachFurther(d, t.path, t.children[m].path, p);
    }
  }

  /** A file's own content comes before that of the files it includes, and those come in their order. */
  lemma {:induction false} PreorderIsDocumentOrder(d: Disk, t: Node)
    requires Unfolds(d, t)
    ensures InOrder(d, Preorder(t))
    decreases t
  {
    hide InDocumentOrder;
    var kids := t.children;
    assert kids[..0] == [];
    for n := 0 to |kids|
      invariant InOrder(d, PreorderAll(kids[..n]))
    {
      assert kids[n] in kids && kids[..n + 1][..n] == kids[..n];
      PreorderIsDocumentOrder(d, kids[n]);
      forall p, q | p in PreorderAll(kids[..n]) && q in Preorder(kids[n]) ensures InDocumentOrder(d, p, q) {
        var m := InKid(kids[..n], p);
        Forked(d, t, m, n, p, q);
      }
      OrdersJoin(d, PreorderAll(kids[..n]), Preorder(kids[n]));
    }
    assert kids[..|kids|] == kids;
    forall q | q in PreorderAll(kids) ensures InDocumentOrder(d, t.path, q) {
      PreorderReachable(d, t, q);
      IncludedAfter(d, t.path, q);
    }
    OrdersJoin(d, [t.path], PreorderAll(kids));
  }

  ghost predicate InOrder(d: Disk, ps: seq<Path>) {
    forall j, k :: 0 <= j < k < |ps| ==> InDocumentOrder(d, ps[j], ps[k])
  }

  lemma OrdersJoin(d: Disk, ps: seq<Path>, qs: seq<Path>)
    requires InOrder(d, ps) && InOrder(d, qs)
    requires forall p, q | p in ps && q in qs :: InDocumentOrder(d, p, q)
    ensures InOrder(d, ps + qs)
  {
    hide InDocumentOrder;
  }

  lemma IncludedAfter(d: Disk, p: Path, q: Path)
    requires Reachable(d, p, q)
    ensures InDocumentOrder(d, p, q)
  {
    hide Reachable;
  }

  lemma Forked(d: Disk, t: Node, m: nat, n: nat, p: Path, q: Path)
    requires Unfolds(d, t) && m < n < |t.children|
    requires p in Preorder(t.children[m]) && q in Preorder(t.children[n])
    ensures InDocumentOrder(d, p, q)
  {
    hide Reachable, Preorder;
    assert t.children[m] in t.children && t.children[n] in t.children;
    PreorderReachable(d, t.children[m], p);
    PreorderReachable(d, t.children[n], q);
    assert ForkAt(d, Occurrence(t.path, m), Occurrence(t.path, n));
  }

  /** `include_tree` accepts on the shape of the graph alone, and returns that same tree. */
  method IncludeTree(disk: Disk, root: Path) returns (r: Result<Node, WalkError>)
    ensures r.Ok? <==> IsTree(disk, root) && AllListed(disk, root)
    ensures r.Err? ==> ListingJustified(disk, root, r.error)
    ensures r.Ok? ==> IsIncludeTree(disk, root, r.value) && InOrder(disk, Preorder(r.value))
  {
    var w := new Walk(disk, root);
    assert IsRouteTo(disk, root, [root], root);
    r := w.BuildIncludeNode(root);
    if r.Ok? {
      WalkComplete(disk, root, r.value, w.entered, w.via, w.visited);
      PreorderIsDocumentOrder(disk, r.value);
    }
  }

  /** The two walks agree: same graphs when the content is fine, and the same tree. */
  lemma WalksAgree(d: Disk, root: Path, t: Node, u: Node)
    requires IsIncludeTree(d, root, t) && IsIncludeTree(d, root, u)
    ensures t == u && Preorder(t) == Preorder(u)
    ensures AllFilesOk(d, root) ==> AllListed(d, root)
  {
    UnfoldingUnique(d, t, u);
  }

  /**
   * Provenance of every collected source: some reachable file declares it, and its chain is the
   * include route from the root to that file.
   */
  ghost predicate HasProvenance(d: Disk, root: Path, t: Totals, i: nat)
    requires i < |t.sources| == |t.origins| == |t.chains|
  {
    && IsRouteTo(d, root, t.chains[i], t.origins[i]) && t.origins[i] in d.files
    && t.sources[i] in ContributionOf(d.files[t.origins[i]], t.origins[i], |t.chains[i]| == 1, t.chains[i]).sources
  }

  lemma SourceProvenance(d: Disk, root: Path, t: Node)
    requires IsIncludeTree(d, root, t)
    ensures var totals := TotalsOf(Gather(d, t, true, [root]));
            && |totals.origins| == |totals.chains| == |totals.sources|
            && forall i :: 0 <= i < |totals.sources| ==> HasProvenance(d, root, totals, i)
  {
    var cs := Gather(d, t, true, [root]);
    var totals := TotalsOf(cs);
    SourcesAligned(cs);
    assert IsRouteTo(d, root, [root], root);
    ChainsAreRoutes(d, root, t, true, [root]);
    forall i | 0 <= i < |totals.sources| ensures HasProvenance(d, root, totals, i) {
      assert FromOne(cs, totals, i);
      var c :| c in cs && totals.sources[i] in c.sources && totals.origins[i] == c.file
               && totals.chains[i] == c.chain;
      assert c.chain[0] == root;
      assert |c.chain| == 1 <==> c.chain == [root];
    }
  }
}
