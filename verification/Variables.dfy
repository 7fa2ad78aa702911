/**
 * `${var:NAME}` references (crates/pawrly-config/src/variables.rs): the walk that rewrites a
 * source in place (`resolve_refs`) and the read-only walk that reports its static references
 * (`collect_static_refs`). Stores, environment and number parsing are parameters.
 */
module Variables {
  import opened Prelude
  import opened Text
  import opened Json
  import opened Scope

  type VarId = string

  datatype VarError = Undeclared(name: string) | Failed(name: string, msg: string)

  /** Everything outside the tree that resolution consults; each answer is fixed for one pass. */
  datatype Env = Env(
    secret: string -> Result<Option<string>, VarError>,
    stored: VarId -> Result<Option<string>, VarError>,
    environment: string -> Option<string>,
    parseInteger: string -> Option<Value>,
    parseFloat: string -> Option<Value>,
    lowercase: string -> string,
    show: Value -> string,
    buildSpec: (string, VariableDef) -> Result<Value, VarError>)

  // ------------------------------------------------------------------ one reference

  /** `${var:NAME}` and nothing else, up to surrounding white space. */
  function ParseRef(s: string): Option<string> {
    var t := Trim(s);
    if |t| >= 3 && t[0] == '$' && t[1] == '{' && t[|t| - 1] == '}' then
      var body := t[2..|t| - 1];
      var colon := IndexOf(body, ':');
      if colon < |body| && body[..colon] == "var" then Some(body[colon + 1..]) else None
    else
      None
  }

  function IdOf(name: string, v: ScopedVar): VarId {
    v.scopeId + "::" + name
  }

  function FirstChoice(choices: seq<Value>, raw: string, env: Env): Option<Value> {
    if choices == [] then None
    else if (if choices[0].Str? then choices[0].s == raw else env.show(choices[0]) == raw) then Some(choices[0])
    else FirstChoice(choices[1..], raw, env)
  }

  function Coerce(name: string, def: VariableDef, raw: string, env: Env): Result<Value, VarError> {
    var t := Trim(raw);
    var bad := Err(Failed(name, "not a valid value"));
    match def.varType
    case StringType => Ok(Str(raw))
    case IntegerType =>
      (match env.parseInteger(t) case Some(n) => Ok(n) case None => bad)
    case NumberType =>
      (match env.parseInteger(t)
       case Some(n) => Ok(n)
       case None => match env.parseFloat(t) case Some(x) => Ok(x) case None => bad)
    case BooleanType =>
      var l := env.lowercase(t);
      if l in ["true", "1", "yes", "on"] then Ok(Bool(true))
      else if l in ["false", "0", "no", "off"] then Ok(Bool(false))
      else bad
    case EnumType =>
      (match FirstChoice(def.choices, raw, env) case Some(c) => Ok(c) case None => bad)
  }

  /** The concrete value of a static variable: stored literal, then its source, then fallbacks. */
  function ResolveValue(name: string, v: ScopedVar, env: Env): Result<Value, VarError> {
    var def := v.def;
    var key := match def.InputKey() case Some(k) => k case None => name;
    match env.stored(IdOf(name, v))
    case Err(e) => Err(e)
    case Ok(Some(lit)) => if def.kind.Secret? then Ok(Str(lit)) else Coerce(name, def, lit, env)
    case Ok(None) =>
      if def.kind.Secret? then
        match env.secret(key)
        case Err(e) => Err(e)
        case Ok(Some(s)) => Ok(Str(s))
        case Ok(None) => if def.required then Err(Failed(name, "no value for secret input")) else Ok(Null)
      else
        match env.environment(key)
        case Some(raw) => Coerce(name, def, raw, env)
        case None =>
          if def.default.Some? then Ok(def.default.value)
          else if def.required then Err(Failed(name, "no value"))
          else Ok(Null)
  }

  /** What the rewriting walk does with one string. */
  datatype Action =
    | Keep
    | Inline(value: Value)
    | Bind(name: string, id: VarId, def: VariableDef)
    | Fail(error: VarError)

  function ActionFor(s: string, scope: VariableScope, env: Env): Action {
    match ParseRef(s)
    case None => Keep
    case Some(name) =>
      if name !in scope then Fail(Undeclared(name))
      else
        var v := scope[name];
        if v.def.IsDynamic() then
          match env.stored(IdOf(name, v))
          case Err(e) => Fail(e)
          case Ok(Some(lit)) => Inline(Str(lit))
          case Ok(None) => Bind(name, IdOf(name, v), v.def)
        else
          match ResolveValue(name, v, env)
          case Ok(value) => Inline(value)
          case Err(e) => Fail(e)
  }

  // ------------------------------------------- what a reference stands for, outright

  /** White space around `${var:NAME}`, and nothing else. */
  ghost predicate IsRef(s: string, name: string) {
    exists before, after ::
      AllSpace(before) && AllSpace(after) && s == before + ("${var:" + name + "}") + after
  }

  /** The syntax, both ways. */
  lemma RefExactly(s: string, name: string)
    ensures ParseRef(s) == Some(name) <==> IsRef(s, name)
  {
    var bare := "${var:" + name + "}";
    if ParseRef(s) == Some(name) {
      var t := Trim(s);
      var body := t[2..|t| - 1];
      SplitAtIndex(body, ':');
      assert t == "${" + body + "}";
      assert body == "var" + ":" + name;
      assert t == bare;
      var before, after := TrimSplit(s);
    }
    if before, after :| AllSpace(before) && AllSpace(after) && s == before + bare + after {
      TrimPadded(before, bare, after);
      var body := "var" + [':'] + name;
      assert bare[2..|bare| - 1] == body;
      IndexOfUnique("var", ':', name);
      assert body[..3] == "var" && body[4..] == name;
    }
  }

  /** The variable is filled by an OAuth flow. */
  ghost predicate IsOauth(def: VariableDef) {
    def.oauth.Some? || exists i :: 0 <= i < |def.methods| && def.methods[i].OauthMethod?
  }

  predicate HasKey(m: Method) {
    m.InputMethod? && m.key.Some?
  }

  /** The declared input, else that of the first method that has one, else the name. */
  ghost predicate IsInputKey(def: VariableDef, name: string, key: string) {
    if def.input.Some? then key == def.input.value
    else if forall i :: 0 <= i < |def.methods| ==> !HasKey(def.methods[i]) then key == name
    else exists i :: 0 <= i < |def.methods| && def.methods[i] == InputMethod(Some(key))
                     && forall j :: 0 <= j < i ==> !HasKey(def.methods[j])
  }

  /** A choice written out is the text. */
  predicate Spells(choice: Value, raw: string, env: Env) {
    match choice
    case Str(text) => text == raw
    case _ => env.show(choice) == raw
  }

  /** The text, read as the declared type. */
  ghost predicate Reads(def: VariableDef, raw: string, y: Value, env: Env) {
    match def.varType
    case StringType => y == Str(raw)
    case IntegerType => env.parseInteger(Trim(raw)) == Some(y)
    case NumberType =>
      env.parseInteger(Trim(raw)) == Some(y)
      || (env.parseInteger(Trim(raw)) == None && env.parseFloat(Trim(raw)) == Some(y))
    case BooleanType =>
      (y == Bool(true) && env.lowercase(Trim(raw)) in {"true", "1", "yes", "on"})
      || (y == Bool(false) && env.lowercase(Trim(raw)) in {"false", "0", "no", "off"})
    case EnumType =>
      exists i :: 0 <= i < |def.choices| && y == def.choices[i] && Spells(y, raw, env)
                  && forall j :: 0 <= j < i ==> !Spells(def.choices[j], raw, env)
  }

  /** What a static secret is: the stored literal, else the secret, else null if it may be missing. */
  ghost predicate SecretIs(name: string, v: ScopedVar, env: Env, y: Value) {
    match env.stored(v.scopeId + "::" + name)
    case Err(_) => false
    case Ok(Some(text)) => y == Str(text)
    case Ok(None) =>
      exists key :: IsInputKey(v.def, name, key) &&
        match env.secret(key)
        case Err(_) => false
        case Ok(Some(text)) => y == Str(text)
        case Ok(None) => !v.def.required && y == Null
  }

  /**
   * What a static variable is: the stored literal or else the environment's value, read as its
   * type, else its default, else null if it may be missing.
   */
  ghost predicate PlainIs(name: string, v: ScopedVar, env: Env, y: Value) {
    match env.stored(v.scopeId + "::" + name)
    case Err(_) => false
    case Ok(Some(text)) => Reads(v.def, text, y, env)
    case Ok(None) =>
      exists key :: IsInputKey(v.def, name, key) &&
        match (env.environment(key), v.def.default)
        case (Some(text), _) => Reads(v.def, text, y, env)
        case (None, Some(value)) => y == value
        case (None, None) => !v.def.required && y == Null
  }

  ghost predicate StaticIs(name: string, v: ScopedVar, env: Env, y: Value) {
    match v.def.kind
    case Secret => SecretIs(name, v, env, y)
    case Variable => PlainIs(name, v, env, y)
  }

  /** A dynamic reference that stays, because nothing is stored for it. */
  ghost predicate Awaits(s: string, name: string, scope: VariableScope, env: Env) {
    && IsRef(s, name) && name in scope && IsOauth(scope[name].def)
    && env.stored(scope[name].scopeId + "::" + name) == Ok(None)
  }

  /** What resolution makes of a string; where nothing fits, it fails. */
  ghost predicate Becomes(s: string, y: Value, scope: VariableScope, env: Env) {
    && ((forall name :: !IsRef(s, name)) ==> y == Str(s))
    && forall name | IsRef(s, name) ::
         name in scope &&
         if IsOauth(scope[name].def) then
           match env.stored(scope[name].scopeId + "::" + name)
           case Err(_) => false
           case Ok(Some(text)) => y == Str(text)
           case Ok(None) => y == Str(s)
         else StaticIs(name, scope[name], env, y)
  }

  lemma {:induction false} KeyExactly(def: VariableDef, name: string, key: string)
    ensures IsInputKey(def, name, key) <==> key == (match def.InputKey() case Some(k) => k case None => name)
  {
    FirstKeyExactly(def.methods);
  }

  lemma {:induction false} FirstKeyExactly(methods: seq<Method>)
    ensures FirstKey(methods).None? <==> forall i :: 0 <= i < |methods| ==> !HasKey(methods[i])
    ensures FirstKey(methods).Some? ==> exists i :: 0 <= i < |methods| && methods[i] == InputMethod(FirstKey(methods))
                                                    && forall j :: 0 <= j < i ==> !HasKey(methods[j])
  {
    if methods != [] && !HasKey(methods[0]) {
      FirstKeyExactly(methods[1..]);
      if FirstKey(methods).Some? {
        var i :| 0 <= i < |methods[1..]| && methods[1..][i] == InputMethod(FirstKey(methods))
                 && forall j :: 0 <= j < i ==> !HasKey(methods[1..][j]);
        assert methods[i + 1] == InputMethod(FirstKey(methods));
        assert forall j | 0 < j < i + 1 :: methods[j] == methods[1..][j - 1];
      } else {
        assert forall i | 0 < i < |methods| :: methods[i] == methods[1..][i - 1];
      }
    }
  }

  lemma {:induction false} ChoiceExactly(choices: seq<Value>, raw: string, env: Env, y: Value)
    ensures FirstChoice(choices, raw, env) == Some(y) <==>
            exists i :: 0 <= i < |choices| && y == choices[i] && Spells(y, raw, env)
                        && forall j :: 0 <= j < i ==> !Spells(choices[j], raw, env)
  {
    if choices != [] && !Spells(choices[0], raw, env) {
      ChoiceExactly(choices[1..], raw, env, y);
      assert forall i | 0 < i < |choices| :: choices[i] == choices[1..][i - 1];
      if i :| 0 <= i < |choices[1..]| && y == choices[1..][i] && Spells(y, raw, env)
              && forall j :: 0 <= j < i ==> !Spells(choices[1..][j], raw, env)
      {
        assert choices[i + 1] == y;
      }
    }
  }

  lemma ReadsExactly(name: string, def: VariableDef, raw: string, env: Env, y: Value)
    ensures Coerce(name, def, raw, env) == Ok(y) <==> Reads(def, raw, y, env)
  {
    ChoiceExactly(def.choices, raw, env, y);
  }

  lemma StaticExactly(name: string, v: ScopedVar, env: Env, y: Value)
    ensures ResolveValue(name, v, env) == Ok(y) <==> StaticIs(name, v, env, y)
  {
    hide Coerce, Reads, IsInputKey;
    var key := match v.def.InputKey() case Some(k) => k case None => name;
    forall k ensures IsInputKey(v.def, name, k) <==> k == key {
      KeyExactly(v.def, name, k);
    }
    forall raw ensures Coerce(name, v.def, raw, env) == Ok(y) <==> Reads(v.def, raw, y, env) {
      ReadsExactly(name, v.def, raw, env, y);
    }
  }

  lemma RefsExactly(s: string)
    ensures forall name :: ParseRef(s) == Some(name) <==> IsRef(s, name)
  {
    forall name ensures ParseRef(s) == Some(name) <==> IsRef(s, name) {
      RefExactly(s, name);
    }
  }

  lemma OauthExactly(def: VariableDef)
    ensures def.IsDynamic() <==> IsOauth(def)
  {}

  /** The walk's action on a string, in these terms. */
  lemma LeafExactly(s: string, scope: VariableScope, env: Env)
    ensures forall y :: Becomes(s, y, scope, env) <==>
                        !ActionFor(s, scope, env).Fail? && y == RewriteLeaf(s, scope, env)
    ensures forall name :: Awaits(s, name, scope, env) <==>
              && name in scope
              && ActionFor(s, scope, env) == Bind(name, scope[name].scopeId + "::" + name, scope[name].def)
    ensures ActionFor(s, scope, env).Bind? ==> Awaits(s, ActionFor(s, scope, env).name, scope, env)
  {
    hide ParseRef, IsRef, ResolveValue, StaticIs, IsOauth;
    RefsExactly(s);
    if ParseRef(s).Some? && ParseRef(s).value in scope {
      var name := ParseRef(s).value;
      OauthExactly(scope[name].def);
      forall y ensures ResolveValue(name, scope[name], env) == Ok(y) <==> StaticIs(name, scope[name], env, y) {
        StaticExactly(name, scope[name], env, y);
      }
    }
  }

  // ---------------------------------------------------------------- strings of a tree

  /** The strings of a value in walk order. */
  function Leaves(v: Value): seq<string>
    decreases v, 0
  {
    match v
    case Str(s) => [s]
    case Arr(items) => LeavesOfItems(items)
    case Obj(fields) => LeavesOfFields(fields)
    case _ => []
  }

  function LeavesOfItems(items: seq<Value>): seq<string>
    decreases items, |items|
  {
    if items == [] then [] else LeavesOfItems(items[..|items| - 1]) + Leaves(items[|items| - 1])
  }

  function LeavesOfFields(fields: seq<Entry>): seq<string>
    decreases fields, |fields|
  {
    if fields == [] then []
    else LeavesOfFields(fields[..|fields| - 1]) + Leaves(fields[|fields| - 1].value)
  }

  /** The fields of a source that are walked: all but its own `variables` block. */
  function Walked(fields: seq<Entry>): seq<Entry> {
    if fields == [] then [] else
      var last := fields[|fields| - 1];
      Walked(fields[..|fields| - 1]) + (if last.key == "variables" then [] else [last])
  }

  function SourceLeaves(source: Value): seq<string> {
    if source.Obj? then LeavesOfFields(Walked(source.fields)) else Leaves(source)
  }

  /** The value at a position: a path of child indices. */
  function At(v: Value, p: seq<nat>): Option<Value> {
    if p == [] then Some(v)
    else if v.Arr? && p[0] < |v.items| then At(v.items[p[0]], p[1..])
    else if v.Obj? && p[0] < |v.fields| then At(v.fields[p[0]].value, p[1..])
    else None
  }

  // ------------------------------------------------------ where the strings stand

  type Position = seq<nat>

  /** Document order: smaller at the first index that differs. */
  predicate Earlier(p: Position, q: Position) {
    p != [] && q != [] && (p[0] < q[0] || (p[0] == q[0] && Earlier(p[1..], q[1..])))
  }

  ghost predicate InOrder(ps: seq<Position>) {
    forall j, k :: 0 <= j < k < |ps| ==> Earlier(ps[j], ps[k])
  }

  ghost predicate IsString(v: Value, p: Position, s: string) {
    At(v, p) == Some(Str(s))
  }

  /** The strings of `v` are `leaves`, at the positions `ps`, in document order. */
  ghost predicate AreStringsOf(v: Value, leaves: seq<string>, ps: seq<Position>) {
    && |ps| == |leaves| && InOrder(ps)
    && (forall k :: 0 <= k < |ps| ==> IsString(v, ps[k], leaves[k]))
    && forall p, s | IsString(v, p, s) :: p in ps
  }

  /** Within the `variables` block at the top of a source. */
  predicate InVariables(source: Value, p: Position) {
    source.Obj? && p != [] && p[0] < |source.fields| && source.fields[p[0]].key == "variables"
  }

  /** The same for a source, its `variables` block apart. */
  ghost predicate AreSourceStrings(source: Value, leaves: seq<string>, ps: seq<Position>) {
    && |ps| == |leaves| && InOrder(ps)
    && (forall k :: 0 <= k < |ps| ==> IsString(source, ps[k], leaves[k]) && !InVariables(source, ps[k]))
    && forall p, s | IsString(source, p, s) && !InVariables(source, p) :: p in ps
  }

  /** The same for a list of values side by side. */
  ghost predicate AreStringsBelow(kids: seq<Value>, leaves: seq<string>, ps: seq<Position>) {
    && |ps| == |leaves| && InOrder(ps)
    && (forall k :: 0 <= k < |ps| ==>
          ps[k] != [] && ps[k][0] < |kids| && IsString(kids[ps[k][0]], ps[k][1..], leaves[k]))
    && forall i: nat, p, s | i < |kids| && IsString(kids[i], p, s) :: [i] + p in ps
  }

  function Below(i: nat, ps: seq<Position>): (qs: seq<Position>)
    ensures |qs| == |ps| && forall k :: 0 <= k < |ps| ==> qs[k] == [i] + ps[k]
  {
    seq(|ps|, k requires 0 <= k < |ps| => [i] + ps[k])
  }

  lemma OneMoreChild(kids: seq<Value>, leaves: seq<string>, ps: seq<Position>, kid: Value, more: seq<string>,
                     qs: seq<Position>)
    requires AreStringsBelow(kids, leaves, ps) && AreStringsOf(kid, more, qs)
    ensures AreStringsBelow(kids + [kid], leaves + more, ps + Below(|kids|, qs))
  {
    hide IsString, Earlier, InOrder;
    StayInOrder(ps, |kids|, qs);
    var all := ps + Below(|kids|, qs);
    forall k | 0 <= k < |all|
      ensures all[k] != [] && all[k][0] < |kids + [kid]|
      ensures IsString((kids + [kid])[all[k][0]], all[k][1..], (leaves + more)[k])
    {
      if k >= |ps| {
        assert all[k] == [|kids|] + qs[k - |ps|] && all[k][1..] == qs[k - |ps|];
      }
    }
    forall i: nat, p, s | i < |kids + [kid]| && IsString((kids + [kid])[i], p, s) ensures [i] + p in all {
      AmongAll(kids, kid, ps, qs, i, p, s);
    }
  }

  lemma AmongAll(kids: seq<Value>, kid: Value, ps: seq<Position>, qs: seq<Position>, i: nat, p: Position, s: string)
    requires i < |kids + [kid]| && IsString((kids + [kid])[i], p, s)
    requires i < |kids| ==> [i] + p in ps
    requires i == |kids| ==> p in qs
    ensures [i] + p in ps + Below(|kids|, qs)
  {
    hide IsString;
    if i == |kids| {
      var k :| 0 <= k < |qs| && qs[k] == p;
      assert (ps + Below(|kids|, qs))[|ps| + k] == [i] + p;
    }
  }

  lemma StayInOrder(ps: seq<Position>, n: nat, qs: seq<Position>)
    requires InOrder(ps) && InOrder(qs) && forall k :: 0 <= k < |ps| ==> ps[k] != [] && ps[k][0] < n
    ensures InOrder(ps + Below(n, qs))
  {
    hide Earlier;
    var all := ps + Below(n, qs);
    forall j, k | 0 <= j < k < |all| ensures Earlier(all[j], all[k]) {
      if k >= |ps| {
        EarlierBelow(n, qs[k - |ps|], if j < |ps| then ps[j] else qs[j - |ps|]);
      }
    }
  }

  lemma EarlierBelow(i: nat, q: Position, p: Position)
    ensures p != [] && p[0] < i ==> Earlier(p, [i] + q)
    ensures Earlier(p, q) ==> Earlier([i] + p, [i] + q)
  {
    assert ([i] + p)[1..] == p && ([i] + q)[1..] == q;
  }

  lemma NoKids()
    ensures AreStringsBelow([], [], [])
  {}

  lemma NoString(v: Value)
    requires !v.Str? && !v.Arr? && !v.Obj?
    ensures AreStringsOf(v, [], [])
  {}

  lemma OneString(s: string)
    ensures AreStringsOf(Str(s), [s], [[]])
  {}

  function Values(fields: seq<Entry>): (vs: seq<Value>)
    ensures |vs| == |fields| && forall i :: 0 <= i < |fields| ==> vs[i] == fields[i].value
  {
    seq(|fields|, i requires 0 <= i < |fields| => fields[i].value)
  }

  lemma AreStringsOfArr(items: seq<Value>, leaves: seq<string>, ps: seq<Position>)
    requires AreStringsBelow(items, leaves, ps)
    ensures AreStringsOf(Arr(items), leaves, ps)
  {
    forall p, s | IsString(Arr(items), p, s) ensures p in ps {
      assert IsString(items[p[0]], p[1..], s) && p == [p[0]] + p[1..];
    }
  }

  lemma AreStringsOfObj(fields: seq<Entry>, leaves: seq<string>, ps: seq<Position>)
    requires AreStringsBelow(Values(fields), leaves, ps)
    ensures AreStringsOf(Obj(fields), leaves, ps)
  {
    forall p, s | IsString(Obj(fields), p, s) ensures p in ps {
      assert IsString(Values(fields)[p[0]], p[1..], s) && p == [p[0]] + p[1..];
    }
  }

  /** The walk order is document order, and misses no string. */
  lemma {:induction false} LeavesInOrder(v: Value) returns (ps: seq<Position>)
    ensures AreStringsOf(v, Leaves(v), ps)
  {
    hide AreStringsOf, AreStringsBelow;
    ps := [];
    match v
    case Str(s) =>
      ps := [[]];
      OneString(s);
    case Arr(items) =>
      NoKids();
      assert items[..0] == [];
      for i := 0 to |items|
        invariant AreStringsBelow(items[..i], LeavesOfItems(items[..i]), ps)
      {
        var qs := LeavesInOrder(items[i]);
        OneMoreChild(items[..i], LeavesOfItems(items[..i]), ps, items[i], Leaves(items[i]), qs);
        assert items[..i + 1] == items[..i] + [items[i]] && items[..i + 1][..i] == items[..i];
        ps := ps + Below(i, qs);
      }
      assert items[..|items|] == items;
      AreStringsOfArr(items, LeavesOfItems(items), ps);
    case Obj(fields) =>
      NoKids();
      assert fields[..0] == [] && Values([]) == [];
      for i := 0 to |fields|
        invariant AreStringsBelow(Values(fields[..i]), LeavesOfFields(fields[..i]), ps)
      {
        var qs := LeavesInOrder(fields[i].value);
        var kid := fields[i].value;
        OneMoreChild(Values(fields[..i]), LeavesOfFields(fields[..i]), ps, kid, Leaves(kid), qs);
        assert Values(fields[..i + 1]) == Values(fields[..i]) + [fields[i].value];
        assert fields[..i + 1][..i] == fields[..i];
        ps := ps + Below(i, qs);
      }
      assert fields[..|fields|] == fields;
      AreStringsOfObj(fields, LeavesOfFields(fields), ps);
    case _ =>
      NoString(v);
  }

  /** What is walked of the fields: nothing in place of a `variables` block. */
  function WalkedValues(fields: seq<Entry>): (vs: seq<Value>)
    ensures |vs| == |fields|
    ensures forall i :: 0 <= i < |fields| ==> vs[i] == if fields[i].key == "variables" then Null else fields[i].value
  {
    seq(|fields|, i requires 0 <= i < |fields| => if fields[i].key == "variables" then Null else fields[i].value)
  }

  lemma AreSourceStringsOf(fields: seq<Entry>, leaves: seq<string>, ps: seq<Position>)
    requires AreStringsBelow(WalkedValues(fields), leaves, ps)
    ensures AreSourceStrings(Obj(fields), leaves, ps)
  {
    forall p, s | IsString(Obj(fields), p, s) && !InVariables(Obj(fields), p) ensures p in ps {
      assert IsString(WalkedValues(fields)[p[0]], p[1..], s) && p == [p[0]] + p[1..];
    }
  }

  lemma {:induction false} SourceLeavesInOrder(source: Value) returns (ps: seq<Position>)
    ensures AreSourceStrings(source, SourceLeaves(source), ps)
  {
    hide AreStringsOf, AreStringsBelow;
    if source.Obj? {
      var fields := source.fields;
      ps := [];
      NoKids();
      NoString(Null);
      assert fields[..0] == [] && WalkedValues([]) == [];
      for i := 0 to |fields|
        invariant AreStringsBelow(WalkedValues(fields[..i]), LeavesOfFields(Walked(fields[..i])), ps)
      {
        ps := WalkOneMore(fields, i, ps);
      }
      assert fields[..|fields|] == fields;
      AreSourceStringsOf(fields, LeavesOfFields(Walked(fields)), ps);
    } else {
      ps := LeavesInOrder(source);
      StringsOfSource(source, ps);
    }
  }

  lemma StringsOfSource(source: Value, ps: seq<Position>)
    requires !source.Obj? && AreStringsOf(source, Leaves(source), ps)
    ensures AreSourceStrings(source, SourceLeaves(source), ps)
  {}

  lemma WalkOneMore(fields: seq<Entry>, i: nat, ps: seq<Position>) returns (longer: seq<Position>)
    requires i < |fields| && AreStringsBelow(WalkedValues(fields[..i]), LeavesOfFields(Walked(fields[..i])), ps)
    ensures AreStringsBelow(WalkedValues(fields[..i + 1]), LeavesOfFields(Walked(fields[..i + 1])), longer)
  {
    hide AreStringsOf, AreStringsBelow, Walked, LeavesOfFields;
    var before, kid := LeavesOfFields(Walked(fields[..i])), WalkedValues(fields[..i + 1])[i];
    var qs := LeavesInOrder(kid);
    OneMoreChild(WalkedValues(fields[..i]), before, ps, kid, Leaves(kid), qs);
    assert WalkedValues(fields[..i + 1]) == WalkedValues(fields[..i]) + [kid];
    WalkedOneMore(fields, i);
    if fields[i].key == "variables" {
      assert before + [] == before && Walked(fields[..i]) + [] == Walked(fields[..i]);
    } else {
      OneMoreField(Walked(fields[..i]), fields[i]);
    }
    longer := ps + Below(i, qs);
  }

  // ------------------------------------------------------------ the rewritten tree

  function RewriteLeaf(s: string, scope: VariableScope, env: Env): Value {
    var a := ActionFor(s, scope, env);
    if a.Inline? then a.value else Str(s)
  }

  /** The tree with its inlined strings replaced and everything else as it was. */
  function Rewrite(v: Value, scope: VariableScope, env: Env): Value {
    match v
    case Str(s) => RewriteLeaf(s, scope, env)
    case Arr(items) => Arr(seq(|items|, i requires 0 <= i < |items| => Rewrite(items[i], scope, env)))
    case Obj(fields) =>
      Obj(seq(|fields|, i requires 0 <= i < |fields| => Entry(fields[i].key, Rewrite(fields[i].value, scope, env))))
    case _ => v
  }

  function RewriteEntry(e: Entry, scope: VariableScope, env: Env): Entry {
    if e.key == "variables" then e else Entry(e.key, Rewrite(e.value, scope, env))
  }

  function RewriteSource(source: Value, scope: VariableScope, env: Env): Value {
    if source.Obj? then
      Obj(seq(|source.fields|, i requires 0 <= i < |source.fields| => RewriteEntry(source.fields[i], scope, env)))
    else Rewrite(source, scope, env)
  }

  // --------------------------------------------------------- bindings, left to right

  datatype Binding = Binding(name: string, id: VarId, spec: Value)

  datatype Progress = Progress(bindings: seq<Binding>, seen: set<VarId>)

  function Step(p: Progress, s: string, scope: VariableScope, env: Env): Result<Progress, VarError> {
    match ActionFor(s, scope, env)
    case Keep => Ok(p)
    case Inline(_) => Ok(p)
    case Fail(e) => Err(e)
    case Bind(name, id, def) =>
      if id in p.seen then Ok(p)
      else
        match env.buildSpec(name, def)
        case Err(e) => Err(e)
        case Ok(spec) => Ok(Progress(p.bindings + [Binding(name, id, spec)], p.seen + {id}))
  }

  function Run(p: Progress, leaves: seq<string>, scope: VariableScope, env: Env): Result<Progress, VarError>
    decreases |leaves|
  {
    if leaves == [] then Ok(p) else
      match Step(p, leaves[0], scope, env)
      case Err(e) => Err(e)
      case Ok(p') => Run(p', leaves[1..], scope, env)
  }

  lemma {:induction false} RunConcat(p: Progress, a: seq<string>, b: seq<string>, scope: VariableScope, env: Env)
    ensures Run(p, a + b, scope, env) ==
            match Run(p, a, scope, env) { case Err(e) => Err(e) case Ok(p') => Run(p', b, scope, env) }
    decreases |a|
  {
    if a == [] {
      assert a + b == b;
    } else {
      assert (a + b)[1..] == a[1..] + b;
      match Step(p, a[0], scope, env) {
        case Ok(p') => RunConcat(p', a[1..], b, scope, env);
        case Err(_) =>
      }
    }
  }

  class Resolver {
    const scope: VariableScope
    const env: Env
    var bindings: seq<Binding>
    var seen: set<VarId>

    constructor (scope: VariableScope, env: Env)
      ensures fresh(this) && this.scope == scope && this.env == env && Now() == Progress([], {})
    {
      this.scope, this.env := scope, env;
      bindings, seen := [], {};
    }

    function Now(): Progress
      reads this
    {
      Progress(bindings, seen)
    }

    /** The result and the new state are those of running over the strings left to right. */
    method Walk(value: Value) returns (r: Result<Value, VarError>)
      modifies this
      ensures match Run(old(Now()), Leaves(value), scope, env)
              case Ok(p) => r == Ok(Rewrite(value, scope, env)) && Now() == p
              case Err(e) => r == Err(e)
      decreases value, 1
    {
      match value {
        case Str(s) =>
          RunOne(Now(), s, scope, env);
          r := WalkString(s);
        case Arr(items) =>
          var out := WalkItems(items);
          match out {
            case Err(e) => return Err(e);
            case Ok(vs) =>
              assert vs == Rewrite(value, scope, env).items;
              return Ok(Arr(vs));
          }
        case Obj(fields) =>
          var out := WalkFields(fields);
          match out {
            case Err(e) => return Err(e);
            case Ok(fs) =>
              assert fs == Rewrite(value, scope, env).fields;
              return Ok(Obj(fs));
          }
        case _ =>
          return Ok(value);
      }
    }

    method WalkString(s: string) returns (r: Result<Value, VarError>)
      modifies this
      ensures match Step(old(Now()), s, scope, env)
              case Ok(p) => r == Ok(RewriteLeaf(s, scope, env)) && Now() == p
              case Err(e) => r == Err(e)
      ensures r.Ok? ==> Becomes(s, r.value, scope, env)
      ensures r.Ok? ==> forall name | Awaits(s, name, scope, env) :: scope[name].scopeId + "::" + name in seen
      ensures (forall name :: !Awaits(s, name, scope, env)) ==> bindings == old(bindings)
    {
      hide Becomes, Awaits;
      LeafExactly(s, scope, env);
      match ActionFor(s, scope, env) {
        case Keep => return Ok(Str(s));
        case Inline(v) => return Ok(v);
        case Fail(e) => return Err(e);
        case Bind(name, id, def) =>
          if id !in seen {
            match env.buildSpec(name, def) {
              case Err(e) => return Err(e);
              case Ok(spec) =>
                seen := seen + {id};
                bindings := bindings + [Binding(name, id, spec)];
            }
          }
          return Ok(Str(s));
      }
    }

    method WalkItems(items: seq<Value>) returns (r: Result<seq<Value>, VarError>)
      modifies this
      ensures match Run(old(Now()), LeavesOfItems(items), scope, env)
              case Ok(p) =>
                && r.Ok? && |r.value| == |items| && Now() == p
                && forall i :: 0 <= i < |items| ==> r.value[i] == Rewrite(items[i], scope, env)
              case Err(e) => r == Err(e)
      decreases items, 0
    {
      var out := [];
      for i := 0 to |items|
        invariant |out| == i
        invariant Run(old(Now()), LeavesOfItems(items[..i]), scope, env) == Ok(Now())
        invariant forall j :: 0 <= j < i ==> out[j] == Rewrite(items[j], scope, env)
      {
        hide Run, Leaves, LeavesOfItems, Rewrite;
        OneMoreItem(items, i);
        RunConcat(old(Now()), LeavesOfItems(items[..i]), Leaves(items[i]), scope, env);
        var v := Walk(items[i]);
        if v.Err? {
          FailsEarly(old(Now()), items, i, scope, env);
          return Err(v.error);
        }
        out := out + [v.value];
      }
      assert items[..|items|] == items;
      return Ok(out);
    }

    method WalkFields(fields: seq<Entry>) returns (r: Result<seq<Entry>, VarError>)
      modifies this
      ensures match Run(old(Now()), LeavesOfFields(fields), scope, env)
              case Ok(p) =>
                && r.Ok? && |r.value| == |fields| && Now() == p
                && forall i :: 0 <= i < |fields| ==>
                     r.value[i] == Entry(fields[i].key, Rewrite(fields[i].value, scope, env))
              case Err(e) => r == Err(e)
      decreases fields, 0
    {
      var out := [];
      for i := 0 to |fields|
        invariant |out| == i
        invariant Run(old(Now()), LeavesOfFields(fields[..i]), scope, env) == Ok(Now())
        invariant forall j :: 0 <= j < i ==> out[j] == Entry(fields[j].key, Rewrite(fields[j].value, scope, env))
      {
        hide Run, Leaves, LeavesOfFields, Rewrite;
        OneMoreFieldAt(fields, i);
        RunConcat(old(Now()), LeavesOfFields(fields[..i]), Leaves(fields[i].value), scope, env);
        var v := Walk(fields[i].value);
        if v.Err? {
          FailsEarlyField(old(Now()), fields, i, scope, env);
          return Err(v.error);
        }
        out := out + [Entry(fields[i].key, v.value)];
      }
      assert fields[..|fields|] == fields;
      return Ok(out);
    }

    method WalkSource(fields: seq<Entry>) returns (r: Result<seq<Entry>, VarError>)
      modifies this
      ensures match Run(old(Now()), LeavesOfFields(Walked(fields)), scope, env)
              case Ok(p) =>
                && r.Ok? && |r.value| == |fields| && Now() == p
                && forall i :: 0 <= i < |fields| ==> r.value[i] == RewriteEntry(fields[i], scope, env)
              case Err(e) => r == Err(e)
    {
      hide Run, Leaves, LeavesOfFields, Walked, Rewrite;
      var out := [];
      NoFields(Now(), scope, env);
      assert fields[..0] == [];
      for i := 0 to |fields|
        invariant |out| == i
        invariant Run(old(Now()), LeavesOfFields(Walked(fields[..i])), scope, env) == Ok(Now())
        invariant forall j :: 0 <= j < i ==> out[j] == RewriteEntry(fields[j], scope, env)
      {
        WalkedOneMore(fields, i);
        if fields[i].key == "variables" {
          assert Walked(fields[..i]) + [] == Walked(fields[..i]);
          out := out + [fields[i]];
        } else {
          RunOneField(old(Now()), Walked(fields[..i]), fields[i], scope, env);
          var v := Walk(fields[i].value);
          if v.Err? {
            FailsEarlyWalked(old(Now()), fields, i, scope, env);
            return Err(v.error);
          }
          out := out + [Entry(fields[i].key, v.value)];
        }
      }
      assert fields[..|fields|] == fields;
      return Ok(out);
    }
  }

  lemma NoFields(p: Progress, scope: VariableScope, env: Env)
    ensures Run(p, LeavesOfFields(Walked([])), scope, env) == Ok(p)
  {}

  lemma RunOneField(p: Progress, before: seq<Entry>, e: Entry, scope: VariableScope, env: Env)
    ensures Run(p, LeavesOfFields(before + [e]), scope, env) ==
            match Run(p, LeavesOfFields(before), scope, env)
            case Err(x) => Err(x)
            case Ok(p') => Run(p', Leaves(e.value), scope, env)
  {
    OneMoreField(before, e);
    RunConcat(p, LeavesOfFields(before), Leaves(e.value), scope, env);
  }

  lemma FailsEarlyWalked(p: Progress, fields: seq<Entry>, i: nat, scope: VariableScope, env: Env)
    requires i < |fields| && fields[i].key != "variables"
    ensures Run(p, LeavesOfFields(Walked(fields[..i + 1])), scope, env).Err? ==>
      Run(p, LeavesOfFields(Walked(fields)), scope, env)
      == Run(p, LeavesOfFields(Walked(fields[..i + 1])), scope, env)
  {
    hide Run, LeavesOfFields;
    WalkedOneMore(fields, i);
    WalkedPrefix(fields, i + 1);
    var n := |Walked(fields[..i])|;
    assert Walked(fields)[..n + 1] == Walked(fields[..i + 1]);
    if Run(p, LeavesOfFields(Walked(fields[..i + 1])), scope, env).Err? {
      FailsEarlyField(p, Walked(fields), n, scope, env);
    }
  }

  lemma RunOne(p: Progress, s: string, scope: VariableScope, env: Env)
    ensures Run(p, [s], scope, env) == Step(p, s, scope, env)
  {
    match Step(p, s, scope, env) {
      case Ok(p') => assert Run(p', [s][1..], scope, env) == Ok(p');
      case Err(_) =>
    }
  }

  /** A failure among the first items is the failure of the whole. */
  lemma {:induction false} FailsEarly(p: Progress, items: seq<Value>, i: nat, scope: VariableScope, env: Env)
    requires i < |items| && Run(p, LeavesOfItems(items[..i + 1]), scope, env).Err?
    ensures Run(p, LeavesOfItems(items), scope, env) == Run(p, LeavesOfItems(items[..i + 1]), scope, env)
  {
    if i + 1 == |items| {
      assert items[..i + 1] == items;
    } else {
      var shorter := items[..|items| - 1];
      assert shorter[..i + 1] == items[..i + 1];
      FailsEarly(p, shorter, i, scope, env);
      RunConcat(p, LeavesOfItems(shorter), Leaves(items[|items| - 1]), scope, env);
    }
  }

  lemma {:induction false} FailsEarlyField(p: Progress, fields: seq<Entry>, i: nat,
                                           scope: VariableScope, env: Env)
    requires i < |fields| && Run(p, LeavesOfFields(fields[..i + 1]), scope, env).Err?
    ensures Run(p, LeavesOfFields(fields), scope, env) == Run(p, LeavesOfFields(fields[..i + 1]), scope, env)
  {
    if i + 1 == |fields| {
      assert fields[..i + 1] == fields;
    } else {
      var shorter := fields[..|fields| - 1];
      assert shorter[..i + 1] == fields[..i + 1];
      FailsEarlyField(p, shorter, i, scope, env);
      RunConcat(p, LeavesOfFields(shorter), Leaves(fields[|fields| - 1].value), scope, env);
    }
  }

  /** Pass B over one source: its `variables` block is skipped at the top level. */
  method ResolveRefs(source: Value, scope: VariableScope, env: Env)
    returns (r: Result<(Value, seq<Binding>), VarError>)
    ensures match Run(Progress([], {}), SourceLeaves(source), scope, env)
            case Ok(p) => r == Ok((RewriteSource(source, scope, env), p.bindings))
            case Err(e) => r == Err(e)
    ensures r.Ok? <==> Resolvable(SourceLeaves(source), scope, env)
    ensures r.Ok? ==> RewrittenTo(source, r.value.0, scope, env)
    ensures r.Ok? ==> exists at :: BoundInOrder(SourceLeaves(source), r.value.1, at, scope, env)
  {
    hide Run, SourceLeaves, Resolvable, RewrittenTo, BoundInOrder;
    ResolutionMeans(source, scope, env);
    var resolver := new Resolver(scope, env);
    if !source.Obj? {
      assert SourceLeaves(source) == Leaves(source) by { NoFieldsWalked(source); }
      var v := resolver.Walk(source);
      match v {
        case Err(e) => return Err(e);
        case Ok(tree) => return Ok((tree, resolver.bindings));
      }
    }
    FieldsWalked(source);
    var out := resolver.WalkSource(source.fields);
    match out {
      case Err(e) => return Err(e);
      case Ok(fields) =>
        assert fields == RewriteSource(source, scope, env).fields;
        return Ok((Obj(fields), resolver.bindings));
    }
  }

  lemma NoFieldsWalked(source: Value)
    requires !source.Obj?
    ensures SourceLeaves(source) == Leaves(source)
  {}

  lemma FieldsWalked(source: Value)
    requires source.Obj?
    ensures SourceLeaves(source) == LeavesOfFields(Walked(source.fields))
  {}

  lemma OneMoreItem(items: seq<Value>, i: nat)
    requires i < |items|
    ensures LeavesOfItems(items[..i + 1]) == LeavesOfItems(items[..i]) + Leaves(items[i])
  {
    assert items[..i + 1][..i] == items[..i];
  }

  lemma OneMoreFieldAt(fields: seq<Entry>, i: nat)
    requires i < |fields|
    ensures LeavesOfFields(fields[..i + 1]) == LeavesOfFields(fields[..i]) + Leaves(fields[i].value)
  {
    assert fields[..i + 1][..i] == fields[..i];
  }

  lemma OneMoreField(fields: seq<Entry>, e: Entry)
    ensures LeavesOfFields(fields + [e]) == LeavesOfFields(fields) + Leaves(e.value)
  {
    assert (fields + [e])[..|fields|] == fields;
  }

  lemma WalkedOneMore(fields: seq<Entry>, i: nat)
    requires i < |fields|
    ensures Walked(fields[..i + 1]) ==
            Walked(fields[..i]) + (if fields[i].key == "variables" then [] else [fields[i]])
  {
    assert fields[..i + 1][..i] == fields[..i];
  }

  lemma {:induction false} WalkedPrefix(fields: seq<Entry>, i: nat)
    requires i <= |fields|
    ensures |Walked(fields[..i])| <= |Walked(fields)|
    ensures Walked(fields)[..|Walked(fields[..i])|] == Walked(fields[..i])
    decreases |fields| - i
  {
    if i == |fields| {
      assert fields[..i] == fields;
    } else {
      WalkedOneMore(fields, i);
      WalkedPrefix(fields, i + 1);
      var a, b, c := Walked(fields[..i]), Walked(fields[..i + 1]), Walked(fields);
      assert c[..|a|] == c[..|b|][..|a|];
    }
  }

  // -------------------------------------------------------------- the reporting walk

  datatype StaticVarRef = StaticVarRef(name: string, id: VarId, kind: VarKind, inputKey: string, resolves: bool)

  /** A string refers to the declared static variable `name`. */
  predicate RefersTo(s: string, name: string, scope: VariableScope) {
    ParseRef(s) == Some(name) && name in scope && !scope[name].def.IsDynamic()
  }

  function RefFor(name: string, scope: VariableScope, env: Env): StaticVarRef
    requires name in scope
  {
    var v := scope[name];
    var key := match v.def.InputKey() case Some(k) => k case None => name;
    StaticVarRef(name, IdOf(name, v), v.def.kind, key, ResolveValue(name, v, env).Ok?)
  }

  function Report(out: seq<StaticVarRef>, s: string, scope: VariableScope, env: Env): seq<StaticVarRef> {
    match ParseRef(s)
    case None => out
    case Some(name) =>
      if RefersTo(s, name, scope) && (forall r | r in out :: r.name != name)
      then out + [RefFor(name, scope, env)] else out
  }

  function ReportAll(out: seq<StaticVarRef>, leaves: seq<string>, scope: VariableScope, env: Env): seq<StaticVarRef> {
    if leaves == [] then out
    else Report(ReportAll(out, leaves[..|leaves| - 1], scope, env), leaves[|leaves| - 1], scope, env)
  }

  lemma {:induction false} ReportConcat(out: seq<StaticVarRef>, a: seq<string>, b: seq<string>,
                                        scope: VariableScope, env: Env)
    ensures ReportAll(out, a + b, scope, env) == ReportAll(ReportAll(out, a, scope, env), b, scope, env)
    decreases |b|
  {
    if b == [] {
      assert a + b == a;
    } else {
      assert (a + b)[..|a + b| - 1] == a + b[..|b| - 1];
      ReportConcat(out, a, b[..|b| - 1], scope, env);
    }
  }

  class Reporter {
    const scope: VariableScope
    const env: Env
    var out: seq<StaticVarRef>
    var seen: set<string>

    ghost predicate Valid()
      reads this
    {
      forall name :: name in seen <==> exists r :: r in out && r.name == name
    }

    constructor (scope: VariableScope, env: Env)
      ensures fresh(this) && Valid() && this.scope == scope && this.env == env && out == []
    {
      this.scope, this.env := scope, env;
      out, seen := [], {};
    }

    method Collect(value: Value)
      requires Valid()
      modifies this
      ensures Valid() && out == ReportAll(old(out), Leaves(value), scope, env)
      decreases value, 1
    {
      match value {
        case Str(s) =>
          assert [s][..0] == [];
          assert ReportAll(out, [s], scope, env) == Report(out, s, scope, env);
          CollectString(s);
        case Arr(items) =>
          CollectItems(items);
        case Obj(fields) =>
          CollectFields(fields);
        case _ =>
      }
    }

    method CollectItems(items: seq<Value>)
      requires Valid()
      modifies this
      ensures Valid() && out == ReportAll(old(out), LeavesOfItems(items), scope, env)
      decreases items, 0
    {
      for i := 0 to |items|
        invariant Valid() && out == ReportAll(old(out), LeavesOfItems(items[..i]), scope, env)
      {
        assert items[..i + 1][..i] == items[..i];
        ReportConcat(old(out), LeavesOfItems(items[..i]), Leaves(items[i]), scope, env);
        Collect(items[i]);
      }
      assert items[..|items|] == items;
    }

    method CollectString(s: string)
      requires Valid()
      modifies this
      ensures Valid() && out == Report(old(out), s, scope, env)
    {
      var parsed := ParseRef(s);
      if parsed.Some? && parsed.value in scope {
        var name := parsed.value;
        if !scope[name].def.IsDynamic() && name !in seen {
          seen := seen + {name};
          out := out + [RefFor(name, scope, env)];
        }
      }
    }

    method CollectFields(fields: seq<Entry>)
      requires Valid()
      modifies this
      ensures Valid() && out == ReportAll(old(out), LeavesOfFields(fields), scope, env)
      decreases fields, 0
    {
      for i := 0 to |fields|
        invariant Valid() && out == ReportAll(old(out), LeavesOfFields(fields[..i]), scope, env)
      {
        assert fields[..i + 1][..i] == fields[..i];
        ReportConcat(old(out), LeavesOfFields(fields[..i]), Leaves(fields[i].value), scope, env);
        Collect(fields[i].value);
      }
      assert fields[..|fields|] == fields;
    }
  }

  method CollectStaticRefs(source: Value, scope: VariableScope, env: Env) returns (refs: seq<StaticVarRef>)
    ensures refs == ReportAll([], SourceLeaves(source), scope, env)
    ensures exists at :: ReportsInOrder(SourceLeaves(source), refs, at, scope, env)
  {
    hide ReportsInOrder;
    ghost var at := ReportInOrder(SourceLeaves(source), scope, env);
    var reporter := new Reporter(scope, env);
    if !source.Obj? {
      reporter.Collect(source);
      return reporter.out;
    }
    var fields := source.fields;
    for i := 0 to |fields|
      invariant fresh(reporter) && reporter.Valid() && reporter.scope == scope && reporter.env == env
      invariant reporter.out == ReportAll([], LeavesOfFields(Walked(fields[..i])), scope, env)
    {
      WalkedOneMore(fields, i);
      if fields[i].key == "variables" {
        assert Walked(fields[..i + 1]) == Walked(fields[..i]);
      } else {
        OneMoreField(Walked(fields[..i]), fields[i]);
        ReportConcat([], LeavesOfFields(Walked(fields[..i])), Leaves(fields[i].value), scope, env);
        reporter.Collect(fields[i].value);
      }
    }
    assert fields[..|fields|] == fields;
    return reporter.out;
  }

  // ------------------------------------------------------------------ the walks agree

  /** The dynamic references left in the tree, each variable once, in order of first use. */
  function Bounds(leaves: seq<string>, scope: VariableScope, env: Env): (bs: seq<Action>)
    ensures forall b | b in bs :: b.Bind?
  {
    if leaves == [] then [] else
      var earlier := Bounds(leaves[..|leaves| - 1], scope, env);
      var a := ActionFor(leaves[|leaves| - 1], scope, env);
      if a.Bind? && (forall b | b in earlier :: b.id != a.id) then earlier + [a] else earlier
  }

  predicate Binds(s: string, id: VarId, scope: VariableScope, env: Env) {
    ActionFor(s, scope, env).Bind? && ActionFor(s, scope, env).id == id
  }

  /** `i` is the first place that leaves a dynamic reference with this id. */
  predicate FirstUse(leaves: seq<string>, id: VarId, i: nat, scope: VariableScope, env: Env) {
    i < |leaves| && Binds(leaves[i], id, scope, env)
    && forall j :: 0 <= j < i ==> !Binds(leaves[j], id, scope, env)
  }

  /** The ids bound, with their first uses: each once, ordered by first use. */
  lemma {:induction false} BoundsAreFirstUses(leaves: seq<string>, scope: VariableScope, env: Env)
    returns (at: seq<nat>)
    ensures var bs := Bounds(leaves, scope, env);
      && |at| == |bs|
      && (forall k :: 0 <= k < |bs| ==> FirstUse(leaves, bs[k].id, at[k], scope, env)
                                        && bs[k] == ActionFor(leaves[at[k]], scope, env))
      && (forall j, k :: 0 <= j < k < |bs| ==> at[j] < at[k] && bs[j].id != bs[k].id)
  {
    if leaves == [] {
      at := [];
    } else {
      hide ActionFor, Binds;
      var n := |leaves| - 1;
      var shorter := leaves[..n];
      LastBinds(leaves, scope, env);
      at := BoundsAreFirstUses(shorter, scope, env);
      var earlier := Bounds(shorter, scope, env);
      var a := ActionFor(leaves[n], scope, env);
      forall k | 0 <= k < |earlier|
        ensures FirstUse(leaves, earlier[k].id, at[k], scope, env)
        ensures earlier[k] == ActionFor(leaves[at[k]], scope, env)
      {
        FirstUseLonger(shorter, leaves[n], earlier[k].id, at[k], scope, env);
        assert leaves == shorter + [leaves[n]];
      }
      if a.Bind? && (forall b | b in earlier :: b.id != a.id) {
        forall j | 0 <= j < n ensures !Binds(leaves[j], a.id, scope, env) {
          assert leaves[j] in shorter;
          BoundsComplete(shorter, leaves[j], a.id, scope, env);
        }
        at := at + [n];
      }
    }
  }

  lemma LastBinds(leaves: seq<string>, scope: VariableScope, env: Env)
    requires leaves != []
    ensures var s := leaves[|leaves| - 1]; var a := ActionFor(s, scope, env); a.Bind? ==> Binds(s, a.id, scope, env)
  {}

  lemma FirstUseLonger(leaves: seq<string>, s: string, id: VarId, i: nat, scope: VariableScope, env: Env)
    requires FirstUse(leaves, id, i, scope, env)
    ensures FirstUse(leaves + [s], id, i, scope, env) && (leaves + [s])[i] == leaves[i]
  {
    forall j | 0 <= j < i ensures !Binds((leaves + [s])[j], id, scope, env) {
      assert !Binds(leaves[j], id, scope, env);
    }
  }

  /** Every dynamic reference left in the tree is bound. */
  lemma {:induction false} BoundsComplete(leaves: seq<string>, s: string, id: VarId, scope: VariableScope, env: Env)
    ensures s in leaves && Binds(s, id, scope, env) ==> exists b :: b in Bounds(leaves, scope, env) && b.id == id
  {
    if s in leaves && Binds(s, id, scope, env) {
      var n := |leaves| - 1;
      var earlier, bs := Bounds(leaves[..n], scope, env), Bounds(leaves, scope, env);
      if b :| b in earlier && b.id == id {
        assert b in bs;
      } else if s in leaves[..n] {
        BoundsComplete(leaves[..n], s, id, scope, env);
      } else {
        assert s == leaves[n];
        assert ActionFor(s, scope, env) in bs;
      }
    }
  }

  ghost predicate NoFailure(leaves: seq<string>, scope: VariableScope, env: Env) {
    forall s | s in leaves :: !ActionFor(s, scope, env).Fail?
  }

  ghost predicate SpecsBuild(bs: seq<Action>, env: Env)
    requires forall b | b in bs :: b.Bind?
  {
    forall b | b in bs :: env.buildSpec(b.name, b.def).Ok?
  }

  /** One binding per first use, with the spec built for it. */
  ghost predicate BindingsMatch(bindings: seq<Binding>, bs: seq<Action>, env: Env)
    requires forall b | b in bs :: b.Bind?
  {
    && |bindings| == |bs|
    && forall k :: 0 <= k < |bs| ==>
         bindings[k].name == bs[k].name && bindings[k].id == bs[k].id
         && env.buildSpec(bs[k].name, bs[k].def) == Ok(bindings[k].spec)
  }

  /** The rewriting run, described without its order of events. */
  lemma {:induction false} RunMeans(leaves: seq<string>, scope: VariableScope, env: Env)
    ensures var r := Run(Progress([], {}), leaves, scope, env);
            var bs := Bounds(leaves, scope, env);
      && (r.Ok? <==> NoFailure(leaves, scope, env) && SpecsBuild(bs, env))
      && (r.Ok? ==> BindingsMatch(r.value.bindings, bs, env)
                    && forall id :: id in r.value.seen <==> exists b :: b in bs && b.id == id)
  {
    if leaves != [] {
      var n := |leaves| - 1;
      var shorter := leaves[..n];
      assert leaves == shorter + [leaves[n]];
      RunMeans(shorter, scope, env);
      RunConcat(Progress([], {}), shorter, [leaves[n]], scope, env);
      var before := Run(Progress([], {}), shorter, scope, env);
      if before.Ok? {
        RunOne(before.value, leaves[n], scope, env);
        OneMoreLeaf(before.value, shorter, leaves[n], scope, env);
      } else {
        assert NoFailure(leaves, scope, env) ==> NoFailure(shorter, scope, env);
        assert forall b | b in Bounds(shorter, scope, env) :: b in Bounds(leaves, scope, env);
      }
    }
  }

  lemma OneMoreLeaf(p: Progress, shorter: seq<string>, s: string, scope: VariableScope, env: Env)
    requires NoFailure(shorter, scope, env) && SpecsBuild(Bounds(shorter, scope, env), env)
    requires BindingsMatch(p.bindings, Bounds(shorter, scope, env), env)
    requires forall id :: id in p.seen <==> exists b :: b in Bounds(shorter, scope, env) && b.id == id
    ensures var leaves := shorter + [s];
            var r := Step(p, s, scope, env);
            var bs := Bounds(leaves, scope, env);
      && (r.Ok? <==> NoFailure(leaves, scope, env) && SpecsBuild(bs, env))
      && (r.Ok? ==> BindingsMatch(r.value.bindings, bs, env)
                    && forall id :: id in r.value.seen <==> exists b :: b in bs && b.id == id)
  {
    var leaves := shorter + [s];
    assert leaves[..|shorter|] == shorter;
    var earlier, bs := Bounds(shorter, scope, env), Bounds(leaves, scope, env);
    var a := ActionFor(s, scope, env);
    assert NoFailure(leaves, scope, env) <==> !a.Fail? by {
      assert forall x :: x in leaves <==> x in shorter || x == s;
    }
    if a.Bind? && a.id !in p.seen {
      assert bs == earlier + [a];
      assert forall b :: b in bs <==> b in earlier || b == a;
    } else {
      assert bs == earlier;
    }
  }

  /** Every entry of the report comes from a static reference in the tree. */
  lemma {:induction false} ReportSound(leaves: seq<string>, r: StaticVarRef, scope: VariableScope, env: Env)
    requires r in ReportAll([], leaves, scope, env)
    ensures r.name in scope && r == RefFor(r.name, scope, env)
    ensures exists s :: s in leaves && RefersTo(s, r.name, scope)
  {
    var n := |leaves| - 1;
    if r in ReportAll([], leaves[..n], scope, env) {
      ReportSound(leaves[..n], r, scope, env);
      var s :| s in leaves[..n] && RefersTo(s, r.name, scope);
      assert s in leaves;
    } else {
      assert leaves[n] in leaves && RefersTo(leaves[n], r.name, scope);
    }
  }

  /** Every static reference in the tree is reported. */
  lemma {:induction false} ReportComplete(leaves: seq<string>, s: string, name: string, scope: VariableScope, env: Env)
    requires s in leaves && RefersTo(s, name, scope)
    ensures exists r :: r in ReportAll([], leaves, scope, env) && r.name == name
  {
    var n := |leaves| - 1;
    var before, after := ReportAll([], leaves[..n], scope, env), ReportAll([], leaves, scope, env);
    if s in leaves[..n] {
      ReportComplete(leaves[..n], s, name, scope, env);
    }
    if r :| r in before && r.name == name {
      assert r in after;
    } else {
      assert s == leaves[n];
      assert RefFor(name, scope, env) in after;
    }
  }

  ghost predicate DistinctNames(refs: seq<StaticVarRef>) {
    forall j, k :: 0 <= j < k < |refs| ==> refs[j].name != refs[k].name
  }

  /** The report names each variable once. */
  lemma {:induction false} ReportDistinct(leaves: seq<string>, scope: VariableScope, env: Env)
    ensures DistinctNames(ReportAll([], leaves, scope, env))
  {
    if leaves != [] {
      var n := |leaves| - 1;
      ReportDistinct(leaves[..n], scope, env);
      var before, refs := ReportAll([], leaves[..n], scope, env), ReportAll([], leaves, scope, env);
      if refs != before {
        assert refs[..|before|] == before && |refs| == |before| + 1;
        forall j, k | 0 <= j < k < |refs| ensures refs[j].name != refs[k].name {
          assert refs[j] == before[j] && before[j] in before;
          if k < |before| {
            assert refs[k] == before[k];
          }
        }
      }
    }
  }

  ghost predicate AllDeclared(leaves: seq<string>, scope: VariableScope) {
    forall s | s in leaves && ParseRef(s).Some? :: ParseRef(s).value in scope
  }

  predicate IsDynamicRef(s: string, scope: VariableScope) {
    ParseRef(s).Some? && ParseRef(s).value in scope && scope[ParseRef(s).value].def.IsDynamic()
  }

  /** Dynamic references can be looked up, and those left in the tree have a spec. */
  ghost predicate DynamicsOk(leaves: seq<string>, scope: VariableScope, env: Env) {
    && (forall s | s in leaves && IsDynamicRef(s, scope) ::
          env.stored(IdOf(ParseRef(s).value, scope[ParseRef(s).value])).Ok?)
    && SpecsBuild(Bounds(leaves, scope, env), env)
  }

  ghost predicate AllResolve(refs: seq<StaticVarRef>) {
    forall r | r in refs :: r.resolves
  }

  /**
   * The two walks agree. Rewriting succeeds exactly when every reference is declared, every
   * reported static reference resolves, and the dynamic ones are in order.
   */
  lemma WalksAgree(source: Value, scope: VariableScope, env: Env)
    ensures var leaves := SourceLeaves(source);
      Run(Progress([], {}), leaves, scope, env).Ok? <==>
        && AllDeclared(leaves, scope)
        && AllResolve(ReportAll([], leaves, scope, env))
        && DynamicsOk(leaves, scope, env)
  {
    var leaves := SourceLeaves(source);
    var refs := ReportAll([], leaves, scope, env);
    RunMeans(leaves, scope, env);
    if NoFailure(leaves, scope, env) {
      forall r | r in refs ensures r.resolves {
        ReportSound(leaves, r, scope, env);
        var s :| s in leaves && RefersTo(s, r.name, scope);
        assert !ActionFor(s, scope, env).Fail?;
      }
    }
    if AllDeclared(leaves, scope) && AllResolve(refs) && DynamicsOk(leaves, scope, env) {
      forall s | s in leaves ensures !ActionFor(s, scope, env).Fail? {
        if ParseRef(s).Some? && !IsDynamicRef(s, scope) {
          assert RefersTo(s, ParseRef(s).value, scope);
          ReportComplete(leaves, s, ParseRef(s).value, scope, env);
          var r :| r in refs && r.name == ParseRef(s).value;
          ReportSound(leaves, r, scope, env);
          assert r == RefFor(r.name, scope, env) && r.resolves;
        }
      }
    }
  }

  /** With static references only, a report that resolves everything is all it takes. */
  lemma StaticOnly(source: Value, scope: VariableScope, env: Env)
    requires AllDeclared(SourceLeaves(source), scope)
    requires forall s | s in SourceLeaves(source) :: !IsDynamicRef(s, scope)
    ensures Run(Progress([], {}), SourceLeaves(source), scope, env).Ok? <==>
            AllResolve(ReportAll([], SourceLeaves(source), scope, env))
  {
    var leaves := SourceLeaves(source);
    WalksAgree(source, scope, env);
    NothingBound(leaves, scope, env);
  }

  lemma {:induction false} NothingBound(leaves: seq<string>, scope: VariableScope, env: Env)
    requires forall s | s in leaves :: !IsDynamicRef(s, scope)
    ensures Bounds(leaves, scope, env) == []
  {
    if leaves != [] {
      assert leaves[|leaves| - 1] in leaves;
      assert forall s | s in leaves[..|leaves| - 1] :: s in leaves;
      NothingBound(leaves[..|leaves| - 1], scope, env);
    }
  }

  // ------------------------------------------------------------ what a rewrite changes

  /** Position by position: a string becomes its inlined value, anything else keeps its shape. */
  lemma {:induction false} RewriteAt(v: Value, p: seq<nat>, scope: VariableScope, env: Env)
    requires At(v, p).Some?
    ensures At(Rewrite(v, scope, env), p).Some?
    ensures var x, y := At(v, p).value, At(Rewrite(v, scope, env), p).value;
      match x
      case Str(s) => y == RewriteLeaf(s, scope, env)
      case Arr(items) => y.Arr? && |y.items| == |items|
      case Obj(fields) => y.Obj? && |y.fields| == |fields|
                          && forall i :: 0 <= i < |fields| ==> y.fields[i].key == fields[i].key
      case _ => y == x
    decreases |p|
  {
    if p != [] {
      if v.Arr? {
        RewriteAt(v.items[p[0]], p[1..], scope, env);
      } else {
        RewriteAt(v.fields[p[0]].value, p[1..], scope, env);
      }
    }
  }

  /** Everything under a source's own `variables` key is untouched; the rest is rewritten. */
  lemma RewriteSourceFields(fields: seq<Entry>, scope: VariableScope, env: Env, i: nat)
    requires i < |fields|
    ensures var r := RewriteSource(Obj(fields), scope, env);
      && r.Obj? && |r.fields| == |fields| && r.fields[i].key == fields[i].key
      && (fields[i].key == "variables" ==> r.fields[i].value == fields[i].value)
      && (fields[i].key != "variables" ==>
            forall p | At(fields[i].value, p).Some? && At(fields[i].value, p).value.Str? ::
              At(r.fields[i].value, p)
              == Some(RewriteLeaf(At(fields[i].value, p).value.s, scope, env)))
  {
    forall p | At(fields[i].value, p).Some? && At(fields[i].value, p).value.Str?
      ensures At(Rewrite(fields[i].value, scope, env), p)
              == Some(RewriteLeaf(At(fields[i].value, p).value.s, scope, env))
    {
      RewriteAt(fields[i].value, p, scope, env);
    }
  }

  // ------------------------------------------------------------ the two walks, outright

  /** At `i` stands the first dynamic reference with the id of `name` that stays. */
  ghost predicate FirstAwaits(leaves: seq<string>, i: nat, name: string, scope: VariableScope, env: Env) {
    && i < |leaves| && name in scope && Awaits(leaves[i], name, scope, env)
    && forall j, n | 0 <= j < i && Awaits(leaves[j], n, scope, env) ::
         scope[n].scopeId + "::" + n != scope[name].scopeId + "::" + name
  }

  /** Every string becomes something, and the variables to bind have a spec. */
  ghost predicate Resolvable(leaves: seq<string>, scope: VariableScope, env: Env) {
    && (forall s | s in leaves :: exists y :: Becomes(s, y, scope, env))
    && forall i, name | FirstAwaits(leaves, i, name, scope, env) :: env.buildSpec(name, scope[name].def).Ok?
  }

  /** The bindings are those of the first references that stay, in their order. */
  ghost predicate BoundInOrder(leaves: seq<string>, bindings: seq<Binding>, at: seq<nat>, scope: VariableScope,
                               env: Env)
  {
    && |at| == |bindings| && (forall j, k :: 0 <= j < k < |at| ==> at[j] < at[k])
    && (forall k :: 0 <= k < |at| ==> FirstAwaits(leaves, at[k], bindings[k].name, scope, env)
                                      && BindsVariable(bindings[k], scope, env))
    && forall i, name :: FirstAwaits(leaves, i, name, scope, env) ==> i in at
  }

  ghost predicate BindsVariable(b: Binding, scope: VariableScope, env: Env) {
    && b.name in scope && b.id == scope[b.name].scopeId + "::" + b.name
    && env.buildSpec(b.name, scope[b.name].def) == Ok(b.spec)
  }

  /** What becomes of one value: a string is resolved, anything else keeps its shape. */
  ghost predicate RewritesTo(x: Value, y: Value, scope: VariableScope, env: Env) {
    match x
    case Str(s) => Becomes(s, y, scope, env)
    case Arr(items) => y.Arr? && |y.items| == |items|
    case Obj(fields) => y.Obj? && |y.fields| == |fields|
                        && forall i :: 0 <= i < |fields| ==> y.fields[i].key == fields[i].key
    case _ => y == x
  }

  /** At every position, and nothing changes within the `variables` block. */
  ghost predicate RewrittenTo(source: Value, out: Value, scope: VariableScope, env: Env) {
    forall p | At(source, p).Some? ::
      && At(out, p).Some?
      && if InVariables(source, p) then At(out, p) == At(source, p)
         else RewritesTo(At(source, p).value, At(out, p).value, scope, env)
  }

  lemma FirstAwaitsExactly(leaves: seq<string>, i: nat, name: string, scope: VariableScope, env: Env)
    ensures FirstAwaits(leaves, i, name, scope, env) <==>
            && i < |leaves| && name in scope
            && ActionFor(leaves[i], scope, env) == Bind(name, scope[name].scopeId + "::" + name, scope[name].def)
            && FirstUse(leaves, scope[name].scopeId + "::" + name, i, scope, env)
  {
    hide ActionFor, Awaits, Becomes, RewriteLeaf;
    forall j | 0 <= j < |leaves|
      ensures forall n :: Awaits(leaves[j], n, scope, env) <==>
                && n in scope
                && ActionFor(leaves[j], scope, env) == Bind(n, scope[n].scopeId + "::" + n, scope[n].def)
      ensures ActionFor(leaves[j], scope, env).Bind? ==>
                Awaits(leaves[j], ActionFor(leaves[j], scope, env).name, scope, env)
    {
      LeafExactly(leaves[j], scope, env);
    }
  }

  lemma FirstUseUnique(leaves: seq<string>, id: VarId, i: nat, j: nat, scope: VariableScope, env: Env)
    requires FirstUse(leaves, id, i, scope, env) && FirstUse(leaves, id, j, scope, env)
    ensures i == j
  {
    hide Binds;
  }

  /** The variable is bound for its first reference that stays, at `i`. */
  ghost predicate PlacedAt(leaves: seq<string>, b: Action, i: nat, scope: VariableScope, env: Env)
    requires b.Bind?
  {
    && b.name in scope && b.id == scope[b.name].scopeId + "::" + b.name && b.def == scope[b.name].def
    && FirstAwaits(leaves, i, b.name, scope, env)
  }

  /** What is bound are the first references that stay. */
  lemma BoundsExactly(leaves: seq<string>, scope: VariableScope, env: Env) returns (at: seq<nat>)
    ensures var bs := Bounds(leaves, scope, env);
      && |at| == |bs| && (forall j, k :: 0 <= j < k < |at| ==> at[j] < at[k])
      && (forall k :: 0 <= k < |bs| ==> PlacedAt(leaves, bs[k], at[k], scope, env))
      && forall i, name :: FirstAwaits(leaves, i, name, scope, env) ==> i in at && BoundAt(bs, at, i, name)
  {
    hide ActionFor, Awaits, PlacedAt, FirstUse, Binds, Bounds;
    at := BoundsAreFirstUses(leaves, scope, env);
    var bs := Bounds(leaves, scope, env);
    forall k | 0 <= k < |bs| ensures PlacedAt(leaves, bs[k], at[k], scope, env) {
      FirstUseNamed(leaves, at[k], bs[k], scope, env);
    }
    forall i: nat, name | FirstAwaits(leaves, i, name, scope, env) ensures i in at && BoundAt(bs, at, i, name) {
      FirstAwaitsExactly(leaves, i, name, scope, env);
      var id := scope[name].scopeId + "::" + name;
      FirstUseBinds(leaves, id, i, scope, env);
      BoundsComplete(leaves, leaves[i], id, scope, env);
      var b :| b in bs && b.id == id;
      var k :| 0 <= k < |bs| && bs[k] == b;
      FirstUseUnique(leaves, id, i, at[k], scope, env);
    }
  }

  ghost predicate BoundAt(bs: seq<Action>, at: seq<nat>, i: nat, name: string)
    requires |at| == |bs| && forall b | b in bs :: b.Bind?
  {
    exists k :: 0 <= k < |bs| && at[k] == i && bs[k].name == name
  }

  lemma FirstUseBinds(leaves: seq<string>, id: VarId, i: nat, scope: VariableScope, env: Env)
    requires FirstUse(leaves, id, i, scope, env)
    ensures leaves[i] in leaves && Binds(leaves[i], id, scope, env)
  {
    hide Binds;
  }

  lemma FirstUseNamed(leaves: seq<string>, i: nat, b: Action, scope: VariableScope, env: Env)
    requires b.Bind? && FirstUse(leaves, b.id, i, scope, env) && ActionFor(leaves[i], scope, env) == b
    ensures PlacedAt(leaves, b, i, scope, env)
  {
    hide ActionFor, FirstAwaits, Awaits, Binds, Becomes, RewriteLeaf;
    LeafExactly(leaves[i], scope, env);
    FirstAwaitsExactly(leaves, i, b.name, scope, env);
  }

  lemma ResolutionMeans(source: Value, scope: VariableScope, env: Env)
    ensures var leaves := SourceLeaves(source);
            var r := Run(Progress([], {}), leaves, scope, env);
      && (r.Ok? <==> Resolvable(leaves, scope, env))
      && (r.Ok? ==> RewrittenTo(source, RewriteSource(source, scope, env), scope, env))
      && (r.Ok? ==> exists at :: BoundInOrder(leaves, r.value.bindings, at, scope, env))
  {
    hide Run, RewriteSource, SourceLeaves, Bounds, ActionFor, Becomes, FirstAwaits, RewrittenTo, AreSourceStrings;
    var leaves := SourceLeaves(source);
    var bs := Bounds(leaves, scope, env);
    RunMeans(leaves, scope, env);
    var at := BoundsExactly(leaves, scope, env);
    SpecsExactly(leaves, bs, at, scope, env);
    NoFailureExactly(leaves, scope, env);
    var r := Run(Progress([], {}), leaves, scope, env);
    if r.Ok? {
      BoundMeans(leaves, r.value.bindings, bs, at, scope, env);
      RewriteMeans(source, scope, env);
    }
  }

  lemma NoFailureExactly(leaves: seq<string>, scope: VariableScope, env: Env)
    ensures NoFailure(leaves, scope, env) <==> forall s | s in leaves :: exists y :: Becomes(s, y, scope, env)
  {
    hide ActionFor, Becomes, Awaits;
    forall s | s in leaves ensures !ActionFor(s, scope, env).Fail? <==> exists y :: Becomes(s, y, scope, env) {
      LeafExactly(s, scope, env);
      if !ActionFor(s, scope, env).Fail? {
        assert Becomes(s, RewriteLeaf(s, scope, env), scope, env);
      }
    }
  }

  lemma SpecsExactly(leaves: seq<string>, bs: seq<Action>, at: seq<nat>, scope: VariableScope, env: Env)
    requires |at| == |bs| && forall b | b in bs :: b.Bind?
    requires forall k :: 0 <= k < |bs| ==> PlacedAt(leaves, bs[k], at[k], scope, env)
    requires forall i, name :: FirstAwaits(leaves, i, name, scope, env) ==> i in at && BoundAt(bs, at, i, name)
    ensures SpecsBuild(bs, env) <==>
            forall i, name | FirstAwaits(leaves, i, name, scope, env) :: env.buildSpec(name, scope[name].def).Ok?
  {
    hide Awaits;
    if SpecsBuild(bs, env) {
      forall i: nat, name | FirstAwaits(leaves, i, name, scope, env)
        ensures env.buildSpec(name, scope[name].def).Ok?
      {
        var k :| 0 <= k < |bs| && at[k] == i && bs[k].name == name;
        assert bs[k] in bs;
      }
    }
    if forall i, name | FirstAwaits(leaves, i, name, scope, env) :: env.buildSpec(name, scope[name].def).Ok? {
      forall b | b in bs ensures env.buildSpec(b.name, b.def).Ok? {
        var k :| 0 <= k < |bs| && bs[k] == b;
        assert PlacedAt(leaves, bs[k], at[k], scope, env);
      }
    }
  }

  lemma BoundMeans(leaves: seq<string>, bindings: seq<Binding>, bs: seq<Action>, at: seq<nat>, scope: VariableScope,
                   env: Env)
    requires |at| == |bs| && (forall b | b in bs :: b.Bind?) && BindingsMatch(bindings, bs, env)
    requires forall j, k :: 0 <= j < k < |at| ==> at[j] < at[k]
    requires forall k :: 0 <= k < |bs| ==> PlacedAt(leaves, bs[k], at[k], scope, env)
    requires forall i, name :: FirstAwaits(leaves, i, name, scope, env) ==> i in at
    ensures BoundInOrder(leaves, bindings, at, scope, env)
  {
    hide Awaits;
  }

  lemma RewriteMeans(source: Value, scope: VariableScope, env: Env)
    requires NoFailure(SourceLeaves(source), scope, env)
    ensures RewrittenTo(source, RewriteSource(source, scope, env), scope, env)
  {
    hide ActionFor, Becomes, Rewrite, SourceLeaves, AreSourceStrings, RewriteLeaf, NoFailure;
    var out := RewriteSource(source, scope, env);
    var ps := SourceLeavesInOrder(source);
    forall p | At(source, p).Some?
      ensures At(out, p).Some?
      ensures InVariables(source, p) ==> At(out, p) == At(source, p)
      ensures !InVariables(source, p) ==> RewritesTo(At(source, p).value, At(out, p).value, scope, env)
    {
      if source.Obj? {
        if p != [] && !InVariables(source, p) {
          RewriteAt(source.fields[p[0]].value, p[1..], scope, env);
        }
      } else {
        RewriteAt(source, p, scope, env);
      }
      if At(source, p).value.Str? && !InVariables(source, p) {
        StringBecomes(source, p, At(source, p).value.s, ps, scope, env);
      }
    }
  }

  lemma StringBecomes(source: Value, p: Position, s: string, ps: seq<Position>, scope: VariableScope, env: Env)
    requires AreSourceStrings(source, SourceLeaves(source), ps) && NoFailure(SourceLeaves(source), scope, env)
    requires At(source, p) == Some(Str(s)) && !InVariables(source, p)
    ensures Becomes(s, RewriteLeaf(s, scope, env), scope, env)
  {
    hide ActionFor, Becomes, SourceLeaves, RewriteLeaf, Awaits;
    assert IsString(source, p, s);
    var k :| 0 <= k < |ps| && ps[k] == p;
    assert IsString(source, ps[k], SourceLeaves(source)[k]);
    assert SourceLeaves(source)[k] in SourceLeaves(source);
    LeafExactly(s, scope, env);
  }

  /** At `i` stands the first reference to the static variable `name`. */
  ghost predicate FirstMention(leaves: seq<string>, i: nat, name: string, scope: VariableScope) {
    && i < |leaves| && IsRef(leaves[i], name) && name in scope && !IsOauth(scope[name].def)
    && forall j :: 0 <= j < i ==> !IsRef(leaves[j], name)
  }

  /** What the report says of a variable: where its value is kept and looked up, and whether there is one. */
  ghost predicate Describes(r: StaticVarRef, scope: VariableScope, env: Env) {
    && r.name in scope && r.id == scope[r.name].scopeId + "::" + r.name && r.kind == scope[r.name].def.kind
    && IsInputKey(scope[r.name].def, r.name, r.inputKey)
    && (r.resolves <==> exists y :: StaticIs(r.name, scope[r.name], env, y))
  }

  /** One entry for each static variable referred to, in the order of the first references. */
  ghost predicate ReportsInOrder(leaves: seq<string>, refs: seq<StaticVarRef>, at: seq<nat>, scope: VariableScope,
                                 env: Env)
  {
    && |at| == |refs| && (forall j, k :: 0 <= j < k < |at| ==> at[j] < at[k])
    && (forall k :: 0 <= k < |at| ==>
          FirstMention(leaves, at[k], refs[k].name, scope) && Describes(refs[k], scope, env))
    && forall i, name :: FirstMention(leaves, i, name, scope) ==> i in at
  }

  lemma RefDescribes(name: string, scope: VariableScope, env: Env)
    requires name in scope
    ensures Describes(RefFor(name, scope, env), scope, env)
  {
    hide IsInputKey, StaticIs, ResolveValue;
    var r, v := RefFor(name, scope, env), scope[name];
    KeyExactly(v.def, name, r.inputKey);
    forall y ensures ResolveValue(name, v, env) == Ok(y) <==> StaticIs(name, v, env, y) {
      StaticExactly(name, v, env, y);
    }
    if r.resolves {
      assert StaticIs(name, v, env, ResolveValue(name, v, env).value);
    }
  }

  lemma {:induction false} ReportInOrder(leaves: seq<string>, scope: VariableScope, env: Env) returns (at: seq<nat>)
    ensures ReportsInOrder(leaves, ReportAll([], leaves, scope, env), at, scope, env)
  {
    hide IsRef, IsOauth, ParseRef, Describes, RefFor;
    if leaves == [] {
      at := [];
    } else {
      var n := |leaves| - 1;
      var shorter := leaves[..n];
      at := ReportInOrder(shorter, scope, env);
      assert leaves == shorter + [leaves[n]];
      var before := ReportAll([], shorter, scope, env);
      at := ReportOneMore(shorter, leaves[n], before, at, scope, env);
    }
  }

  lemma MentionLonger(leaves: seq<string>, s: string, i: nat, name: string, scope: VariableScope)
    requires i < |leaves|
    ensures FirstMention(leaves + [s], i, name, scope) <==> FirstMention(leaves, i, name, scope)
  {
    hide IsRef, IsOauth;
    assert (leaves + [s])[i] == leaves[i];
    forall j | 0 <= j < i ensures (leaves + [s])[j] == leaves[j] {}
  }

  lemma RefOnce(s: string, a: string, b: string)
    requires IsRef(s, a) && IsRef(s, b)
    ensures a == b
  {
    RefExactly(s, a);
    RefExactly(s, b);
  }

  /** A static variable referred to so far has its entry. */
  lemma {:induction false} MentionReported(leaves: seq<string>, j: nat, name: string, refs: seq<StaticVarRef>,
                                           at: seq<nat>, scope: VariableScope, env: Env)
    requires ReportsInOrder(leaves, refs, at, scope, env) && j < |leaves|
    requires IsRef(leaves[j], name) && name in scope && !IsOauth(scope[name].def)
    ensures exists r :: r in refs && r.name == name
  {
    hide IsRef, IsOauth, Describes;
    if i :| 0 <= i < j && IsRef(leaves[i], name) {
      MentionReported(leaves, i, name, refs, at, scope, env);
    } else {
      assert FirstMention(leaves, j, name, scope);
      var k :| 0 <= k < |at| && at[k] == j;
      RefOnce(leaves[j], name, refs[k].name);
      assert refs[k] in refs;
    }
  }

  lemma ReportOneMore(leaves: seq<string>, s: string, refs: seq<StaticVarRef>, at: seq<nat>, scope: VariableScope,
                      env: Env) returns (longer: seq<nat>)
    requires ReportsInOrder(leaves, refs, at, scope, env)
    ensures ReportsInOrder(leaves + [s], Report(refs, s, scope, env), longer, scope, env)
  {
    hide IsRef, IsOauth, ParseRef, Describes, RefFor, FirstMention, ReportsInOrder;
    RefsExactly(s);
    if ParseRef(s).Some? && ParseRef(s).value in scope {
      var name := ParseRef(s).value;
      OauthExactly(scope[name].def);
      if !IsOauth(scope[name].def) && forall r | r in refs :: r.name != name {
        longer := ReportNew(leaves, s, name, refs, at, scope, env);
        return;
      }
    }
    longer := at;
    ReportSame(leaves, s, refs, at, scope, env);
  }

  lemma ReportNew(leaves: seq<string>, s: string, name: string, refs: seq<StaticVarRef>, at: seq<nat>,
                  scope: VariableScope, env: Env) returns (longer: seq<nat>)
    requires ReportsInOrder(leaves, refs, at, scope, env)
    requires IsRef(s, name) && name in scope && !IsOauth(scope[name].def) && forall r | r in refs :: r.name != name
    ensures ReportsInOrder(leaves + [s], refs + [RefFor(name, scope, env)], longer, scope, env)
  {
    hide IsRef, IsOauth, Describes, RefFor;
    longer := at + [|leaves|];
    forall i: nat, n | i < |leaves|
      ensures FirstMention(leaves + [s], i, n, scope) <==> FirstMention(leaves, i, n, scope)
    {
      MentionLonger(leaves, s, i, n, scope);
    }
    forall j | 0 <= j < |leaves| ensures !IsRef(leaves[j], name) {
      if IsRef(leaves[j], name) {
        MentionReported(leaves, j, name, refs, at, scope, env);
      }
    }
    RefDescribes(name, scope, env);
    assert RefFor(name, scope, env).name == name by { RefNamed(name, scope, env); }
    assert FirstMention(leaves + [s], |leaves|, name, scope);
  }

  lemma RefNamed(name: string, scope: VariableScope, env: Env)
    requires name in scope
    ensures RefFor(name, scope, env).name == name
  {}

  lemma ReportSame(leaves: seq<string>, s: string, refs: seq<StaticVarRef>, at: seq<nat>, scope: VariableScope,
                   env: Env)
    requires ReportsInOrder(leaves, refs, at, scope, env)
    requires forall name | IsRef(s, name) && name in scope && !IsOauth(scope[name].def) ::
               exists r :: r in refs && r.name == name
    ensures ReportsInOrder(leaves + [s], refs, at, scope, env)
  {
    hide IsRef, IsOauth, Describes;
    forall i: nat, n | i < |leaves|
      ensures FirstMention(leaves + [s], i, n, scope) <==> FirstMention(leaves, i, n, scope)
    {
      MentionLonger(leaves, s, i, n, scope);
    }
    forall r | r in refs ensures exists j :: 0 <= j < |leaves| && IsRef((leaves + [s])[j], r.name) {
      var k :| 0 <= k < |refs| && refs[k] == r;
      assert FirstMention(leaves, at[k], r.name, scope);
      assert IsRef((leaves + [s])[at[k]], r.name);
    }
    assert forall n :: !FirstMention(leaves + [s], |leaves|, n, scope);
  }
}
