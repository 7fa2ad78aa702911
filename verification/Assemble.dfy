/**
 * `assemble` (crates/pawrly-config/src/assemble.rs) up to its models: the include walk, then the
 * `from:` expansion of every collected source, then the checks for duplicate names.
 */
module Assemble {
  import opened Prelude
  import opened Json
  import opened IncludeWalk
  import Overlay

  /** What `from:` names in a file, read and parsed: relative to that file, or none. */
  type Loader = (Path, string) -> Option<Value>

  datatype AssembleError =
    | WalkFailed(walk: WalkError)
    | FromFailed(i: nat, from: Overlay.FromError)
    | DuplicateSource(name: string)
    | DuplicateFunction(name: string)

  datatype Assembled = Assembled(
    sources: seq<Value>,
    origins: seq<Path>,
    chains: seq<seq<Path>>,
    secrets: seq<Value>,
    functions: seq<(Value, Path)>,
    variables: map<Path, Value>)

  // ---------------------------------------------------------------------- duplicates

  function TextField(v: Value, key: string): Option<string> {
    if !v.Obj? then None
    else
      match Overlay.Get(v.fields, key)
      case Some(Str(s)) => Some(s)
      case _ => None
  }

  function NameOf(source: Value): Option<string> {
    TextField(source, "name")
  }

  /** Namespace and name, joined; a function that lacks either has no key. */
  function FunctionKey(func: Value): Option<string> {
    match (TextField(func, "namespace"), TextField(func, "name"))
    case (Some(ns), Some(name)) => Some(ns + "." + name)
    case _ => None
  }

  /** The mapping says `key: text`. */
  ghost predicate Says(v: Value, key: string, text: string) {
    v.Obj? && Entry(key, Str(text)) in v.fields
  }

  /** What the keys are, of mappings that name each key once. */
  lemma KeysExactly(v: Value, key: string)
    requires Overlay.Keyed(v)
    ensures NameOf(v) == Some(key) <==> Says(v, "name", key)
    ensures FunctionKey(v) == Some(key) <==>
            exists ns, name :: Says(v, "namespace", ns) && Says(v, "name", name) && key == ns + "." + name
  {
    hide Overlay.Keyed;
    forall k, text ensures TextField(v, k) == Some(text) <==> Says(v, k, text) {
      TextExactly(v, k, text);
    }
  }

  lemma TextExactly(v: Value, key: string, text: string)
    requires Overlay.Keyed(v)
    ensures TextField(v, key) == Some(text) <==> Says(v, key, text)
  {
    if v.Obj? {
      Overlay.GetExactly(v.fields, key, Str(text));
    }
  }

  function NamesOf(sources: seq<Value>): (ks: seq<Option<string>>)
    ensures |ks| == |sources| && forall i :: 0 <= i < |ks| ==> ks[i] == NameOf(sources[i])
  {
    seq(|sources|, i requires 0 <= i < |sources| => NameOf(sources[i]))
  }

  function KeysOf(functions: seq<(Value, Path)>): (ks: seq<Option<string>>)
    ensures |ks| == |functions| && forall i :: 0 <= i < |ks| ==> ks[i] == FunctionKey(functions[i].0)
  {
    seq(|functions|, i requires 0 <= i < |functions| => FunctionKey(functions[i].0))
  }

  ghost predicate AllDiffer(keys: seq<Option<string>>) {
    forall i, j :: 0 <= i < j < |keys| && keys[i].Some? ==> keys[i] != keys[j]
  }

  ghost predicate Repeats(keys: seq<Option<string>>, key: string) {
    exists i, j :: 0 <= i < j < |keys| && keys[i] == keys[j] == Some(key)
  }

  /** The first key met again. */
  method FindDuplicate(keys: seq<Option<string>>) returns (dup: Option<string>)
    ensures dup.None? <==> AllDiffer(keys)
    ensures dup.Some? ==> Repeats(keys, dup.value)
  {
    var seen: set<string> := {};
    for i := 0 to |keys|
      invariant forall k :: k in seen <==> Some(k) in keys[..i]
      invariant AllDiffer(keys[..i])
    {
      assert keys[..i + 1] == keys[..i] + [keys[i]];
      if keys[i].Some? {
        if keys[i].value in seen {
          var j :| 0 <= j < i && keys[..i][j] == keys[i];
          assert keys[j] == keys[i] == Some(keys[i].value);
          return Some(keys[i].value);
        }
        seen := seen + {keys[i].value};
      }
    }
    assert keys[..|keys|] == keys;
    return None;
  }

  // ----------------------------------------------------------------------- expansion

  /** Loading relative to one file. */
  function At(load: Loader, origin: Path): string -> Option<Value> {
    s => load(origin, s)
  }

  ghost predicate LoadsKeyed(load: Loader) {
    forall p, s :: load(p, s).Some? ==> Overlay.Keyed(load(p, s).value)
  }

  /** The source is what `from:` makes of the collected one. */
  ghost predicate Expanded(src: Value, out: Value, load: string -> Option<Value>) {
    match Overlay.FromOf(src)
    case None => out == src
    case Some(from) =>
      && from.Str? && load(from.s).Some? && Overlay.FragmentError(load(from.s).value) == None
      && src.Obj? && Overlay.IsMerge(out, load(from.s).value, Obj(Overlay.Without(src.fields, "from")))
  }

  predicate Expands(src: Value, load: string -> Option<Value>) {
    match Overlay.FromOf(src)
    case None => true
    case Some(from) => from.Str? && load(from.s).Some? && Overlay.FragmentError(load(from.s).value) == None
  }

  /** The parent owns the name: expansion never changes it. */
  lemma NameKept(src: Value, out: Value, load: string -> Option<Value>)
    requires Expanded(src, out, load) && Overlay.Keyed(src)
    ensures NameOf(out) == NameOf(src)
  {
    if Overlay.FromOf(src).Some? {
      var fragment := load(Overlay.FromOf(src).value.s).value;
      var overlay := Overlay.Without(src.fields, "from");
      Overlay.GetWithout(src.fields, "from", "name");
      Overlay.MergeIsBranch(out, fragment, overlay);
      assert Overlay.At(out, ["name"]) == Overlay.Overlaid(fragment, Obj(overlay), ["name"]);
      FieldAt(out, "name");
      FieldAt(Obj(overlay), "name");
      FieldAt(fragment, "name");
    }
  }

  /** What a mapping holds at a path of one key, and that nothing blocks such a path. */
  lemma FieldAt(v: Value, key: string)
    requires v.Obj?
    ensures Overlay.At(v, [key]) == match Overlay.Get(v.fields, key)
                                    case None => Overlay.Absent
                                    case Some(x) => if x.Obj? then Overlay.Branch else Overlay.Leaf(x)
    ensures !Overlay.Blocked(v, [key])
  {
    hide Overlay.Get;
    assert [key][0] == key && [key][1..] == [] && [key][..0] == [];
  }

  method ExpandAll(sources: seq<Value>, origins: seq<Path>, load: Loader)
    returns (r: Result<seq<Value>, AssembleError>)
    requires |sources| == |origins| && LoadsKeyed(load) && forall s | s in sources :: Overlay.Keyed(s)
    ensures r.Ok? <==> forall i :: 0 <= i < |sources| ==> Expands(sources[i], At(load, origins[i]))
    ensures r.Ok? ==> |r.value| == |sources|
                      && forall i :: 0 <= i < |sources| ==> Expanded(sources[i], r.value[i], At(load, origins[i]))
    ensures r.Err? ==> r.error.FromFailed? && FailsFrom(sources, origins, load, r.error)
  {
    hide Overlay.IsMerge, Overlay.Keyed, Overlay.Without, Overlay.FragmentError;
    var out: seq<Value> := [];
    for i := 0 to |sources|
      invariant |out| == i
      invariant forall j :: 0 <= j < i ==> Expanded(sources[j], out[j], At(load, origins[j]))
    {
      assert sources[i] in sources;
      var e := Overlay.ExpandFrom(sources[i], At(load, origins[i]));
      if e.Err? {
        return Err(FromFailed(i, e.error));
      }
      out := out + [e.value];
    }
    return Ok(out);
  }

  ghost predicate FailsFrom(sources: seq<Value>, origins: seq<Path>, load: Loader, e: AssembleError)
    requires e.FromFailed? && |sources| == |origins|
  {
    && e.i < |sources| && Overlay.FromOf(sources[e.i]).Some?
    && Overlay.Fails(Overlay.FromOf(sources[e.i]).value, At(load, origins[e.i]), e.from)
  }

  // ----------------------------------------------------------------------- the whole

  /** Objects in a parsed file name each key once. */
  ghost predicate KeyedDisk(d: Disk) {
    forall p | p in d.files ::
      Overlay.Keyed(d.files[p].body) && forall s | s in ItemsOf(d.files[p].sources) :: Overlay.Keyed(s)
  }

  lemma SourcesKeyed(d: Disk, root: Path, t: Node)
    requires IsIncludeTree(d, root, t) && KeyedDisk(d)
    ensures forall s | s in TotalsOf(Gather(d, t, true, [root])).sources :: Overlay.Keyed(s)
  {
    hide Overlay.Keyed;
    SourceProvenance(d, root, t);
    var totals := TotalsOf(Gather(d, t, true, [root]));
    forall s | s in totals.sources ensures Overlay.Keyed(s) {
      var i :| 0 <= i < |totals.sources| && totals.sources[i] == s;
      assert HasProvenance(d, root, totals, i);
    }
  }

  /** The collected sources expand, and neither sources nor functions repeat a name. */
  ghost predicate Fits(totals: Totals, load: Loader) {
    && |totals.origins| == |totals.sources|
    && (forall i :: 0 <= i < |totals.sources| ==> Expands(totals.sources[i], At(load, totals.origins[i])))
    && AllDiffer(NamesOf(totals.sources)) && AllDiffer(KeysOf(totals.functions))
  }

  /** What went wrong, if not the walk. */
  ghost predicate Blames(totals: Totals, load: Loader, e: AssembleError) {
    match e
    case WalkFailed(_) => false
    case FromFailed(_, _) => |totals.origins| == |totals.sources| && FailsFrom(totals.sources, totals.origins, load, e)
    case DuplicateSource(name) => Repeats(NamesOf(totals.sources), name)
    case DuplicateFunction(name) => Repeats(KeysOf(totals.functions), name)
  }

  /**
   * Assembly succeeds exactly when the reachable files form a tree, every file's content passes,
   * every collected source expands, and no source or function name repeats. The result holds the
   * expanded sources in preorder, each with its file and its include chain.
   */
  method AssembleAll(disk: Disk, root: Path, load: Loader)
    returns (r: Result<Assembled, AssembleError>, ghost t: Node, ghost totals: Totals)
    requires root in disk.files && KeyedDisk(disk) && LoadsKeyed(load)
    ensures r.Err? && r.error.WalkFailed? <==> !(IsTree(disk, root) && AllFilesOk(disk, root))
    ensures r.Err? && r.error.WalkFailed? ==> Justified(disk, root, r.error.walk)
    ensures !(r.Err? && r.error.WalkFailed?) ==>
      IsIncludeTree(disk, root, t) && InOrder(disk, Preorder(t)) && Collected(disk, root, Preorder(t), totals)
    ensures r.Ok? ==> Fits(totals, load) && Holds(r.value, totals, load)
    ensures r.Err? && !r.error.WalkFailed? ==> !Fits(totals, load) && Blames(totals, load, r.error)
  {
    hide IsTree, AllFilesOk, Justified, IsIncludeTree, KeyedDisk, LoadsKeyed, Gather, TotalsOf, Expands, Expanded,
         AllDiffer, Repeats, FailsFrom, Collected, InOrder;
    var err, w;
    err, w, t := CollectAll(disk, root);
    totals := w.Sums();
    if err.Some? {
      return Err(WalkFailed(err.value)), t, totals;
    }
    SourceProvenance(disk, root, t);
    SourcesKeyed(disk, root, t);
    var expanded := ExpandAll(w.sources, w.origins, load);
    if expanded.Err? {
      return Err(expanded.error), t, totals;
    }
    NamesKept(w.sources, w.origins, expanded.value, load);
    var dup := FindDuplicate(NamesOf(expanded.value));
    if dup.Some? {
      return Err(DuplicateSource(dup.value)), t, totals;
    }
    dup := FindDuplicate(KeysOf(w.functions));
    if dup.Some? {
      return Err(DuplicateFunction(dup.value)), t, totals;
    }
    r := Ok(Assembled(expanded.value, w.origins, w.sourceChains, w.secrets, w.functions, w.fragVars));
  }

  /** Everything the walk gathered, with its sources expanded. */
  ghost predicate Holds(a: Assembled, totals: Totals, load: Loader) {
    && |a.sources| == |totals.sources| == |totals.origins|
    && (forall i :: 0 <= i < |a.sources| ==>
          Expanded(totals.sources[i], a.sources[i], At(load, totals.origins[i]))
          && NameOf(a.sources[i]) == NameOf(totals.sources[i]))
    && a.origins == totals.origins && a.chains == totals.chains && a.secrets == totals.secrets
    && a.functions == totals.functions && a.variables == totals.variables
  }

  lemma NamesKept(sources: seq<Value>, origins: seq<Path>, out: seq<Value>, load: Loader)
    requires |sources| == |origins| == |out| && forall s | s in sources :: Overlay.Keyed(s)
    requires forall i :: 0 <= i < |sources| ==> Expanded(sources[i], out[i], At(load, origins[i]))
    ensures forall i :: 0 <= i < |sources| ==> NameOf(out[i]) == NameOf(sources[i])
    ensures NamesOf(out) == NamesOf(sources)
  {
    hide Expanded, Overlay.Keyed, NameOf;
    forall i | 0 <= i < |sources| ensures NameOf(out[i]) == NameOf(sources[i]) {
      assert sources[i] in sources;
      NameKept(sources[i], out[i], At(load, origins[i]));
    }
  }
}
