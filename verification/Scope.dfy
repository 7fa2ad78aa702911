/**
 * Declared variables and their lexical scope (crates/pawrly-config/src/variables.rs and
 * loader.rs): a source sees the global block, then the blocks of the files along its include
 * chain, then its own block, inner declarations shadowing outer ones.
 */
module Scope {
  import opened Prelude
  import opened Json

  datatype VarKind = Variable | Secret

  datatype VarType = StringType | IntegerType | NumberType | BooleanType | EnumType

  datatype Method = InputMethod(key: Option<string>) | OauthMethod(body: Value)

  datatype VariableDef = VariableDef(
    kind: VarKind,
    varType: VarType,
    default: Option<Value>,
    choices: seq<Value>,
    required: bool,
    methods: seq<Method>,
    oauth: Option<Value>,
    input: Option<string>)
  {
    predicate IsDynamic() {
      oauth.Some? || exists m :: m in methods && m.OauthMethod?
    }

    /** The name under which the value is looked up, when one is declared. */
    function InputKey(): Option<string> {
      if input.Some? then input else FirstKey(methods)
    }
  }

  /** The key of the first input method that has one. */
  function FirstKey(methods: seq<Method>): Option<string> {
    if methods == [] then None
    else if methods[0].InputMethod? && methods[0].key.Some? then methods[0].key
    else FirstKey(methods[1..])
  }

  datatype ScopedVar = ScopedVar(def: VariableDef, scopeId: string)

  type VariableScope = map<string, ScopedVar>

  method MergeInto(base: VariableScope, overlay: VariableScope) returns (merged: VariableScope)
    ensures merged == base + overlay
  {
    merged := base;
    var keys := overlay.Keys;
    while keys != {}
      invariant keys <= overlay.Keys
      invariant merged == base + (overlay - keys)
      decreases keys
    {
      var k :| k in keys;
      merged := merged[k := overlay[k]];
      keys := keys - {k};
    }
    assert overlay - {} == overlay;
  }

  /** The scope after the first `n` files of the chain. */
  function ScopeAlong(global: VariableScope, chain: seq<string>, frags: map<string, VariableScope>, n: nat)
    : VariableScope
    requires n <= |chain|
  {
    if n == 0 then global
    else
      var outer := ScopeAlong(global, chain, frags, n - 1);
      if chain[n - 1] in frags then outer + frags[chain[n - 1]] else outer
  }

  method SourceScope(local: Option<VariableScope>, chain: seq<string>, global: VariableScope,
                     frags: map<string, VariableScope>) returns (scope: VariableScope)
    ensures forall name, v :: name in scope && scope[name] == v <==> Resolves(name, v, local, chain, global, frags)
  {
    scope := global;
    for i := 0 to |chain|
      invariant scope == ScopeAlong(global, chain, frags, i)
    {
      if chain[i] in frags {
        scope := MergeInto(scope, frags[chain[i]]);
      }
    }
    if local.Some? {
      scope := MergeInto(scope, local.value);
    }
    forall name, v
      ensures name in scope && scope[name] == v <==> Resolves(name, v, local, chain, global, frags)
    {
      InnermostAlong(global, chain, frags, |chain|, name);
    }
  }

  predicate DeclaredAt(name: string, chain: seq<string>, frags: map<string, VariableScope>, i: nat) {
    i < |chain| && chain[i] in frags && name in frags[chain[i]]
  }

  /** `v` is the innermost declaration of `name`. */
  ghost predicate Resolves(name: string, v: ScopedVar, local: Option<VariableScope>, chain: seq<string>,
                           global: VariableScope, frags: map<string, VariableScope>)
  {
    if local.Some? && name in local.value then v == local.value[name]
    else if exists i: nat :: DeclaredAt(name, chain, frags, i) then
      exists i: nat :: DeclaredAt(name, chain, frags, i) && v == frags[chain[i]][name]
                       && forall j: nat :: i < j ==> !DeclaredAt(name, chain, frags, j)
    else name in global && v == global[name]
  }

  /** Along the first `n` files, a name means its last declaration, else the global one. */
  lemma {:induction false} InnermostAlong(global: VariableScope, chain: seq<string>,
                                          frags: map<string, VariableScope>, n: nat, name: string)
    requires n <= |chain|
    ensures var scope := ScopeAlong(global, chain, frags, n);
      if exists i: nat :: i < n && DeclaredAt(name, chain, frags, i) then
        exists i: nat :: i < n && DeclaredAt(name, chain, frags, i)
                         && name in scope && scope[name] == frags[chain[i]][name]
                         && forall j: nat :: i < j < n ==> !DeclaredAt(name, chain, frags, j)
      else (name in scope <==> name in global) && (name in scope ==> scope[name] == global[name])
  {
    if n > 0 {
      InnermostAlong(global, chain, frags, n - 1, name);
      if DeclaredAt(name, chain, frags, n - 1) {
        assert n - 1 < n;
      }
    }
  }
}
