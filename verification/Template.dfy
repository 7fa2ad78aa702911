/**
 * `substitute_params` (crates/pawrly-engine/src/local.rs): `${param:KEY}` holes are filled by one
 * textual replacement per parameter, in whatever order the parameter map yields.
 */
module Template {
  import opened Prelude
  import opened Text

  type Params = map<string, string>

  function Needle(k: string): (n: string)
    ensures n != "" && n[0] == '$'
  {
    ['$'] + AfterDollar(k)
  }

  function AfterDollar(k: string): string {
    "{param:" + (k + ['}'])
  }

  /** `str::replace`: leftmost, non-overlapping occurrences of a non-empty needle. */
  function Replace(s: string, needle: string, v: string): string
    requires needle != ""
    decreases |s|
  {
    if s == "" then ""
    else if needle <= s then v + Replace(s[|needle|..], needle, v)
    else [s[0]] + Replace(s[1..], needle, v)
  }

  function ReplaceAll(s: string, order: seq<string>, params: Params): string
    requires forall k | k in order :: k in params
    decreases |order|
  {
    if order == [] then s
    else
      var n := |order| - 1;
      assert forall k | k in order[..n] :: k in order;
      Replace(ReplaceAll(s, order[..n], params), Needle(order[n]), params[order[n]])
  }

  // ------------------------------------------------------------------------ templates

  datatype Piece = Text(text: string) | Hole(key: string)

  predicate PieceOk(p: Piece) {
    match p
    case Text(t) => '$' !in t
    case Hole(k) => KeyOk(k)
  }

  predicate KeyOk(k: string) { '$' !in k && '}' !in k }

  predicate TemplateOk(ps: seq<Piece>) {
    forall p | p in ps :: PieceOk(p)
  }

  predicate KeysOk(params: Params) {
    forall k | k in params :: KeyOk(k)
  }

  /** At this `$`, the text may begin the needle of `k`, now or together with what follows it. */
  predicate Begins(text: string, i: nat, k: string) {
    i < |text| && text[i] == '$' && (text[i..] <= Needle(k) || Needle(k) <= text[i..])
  }

  /** Nothing in the text begins the needle of `k`. */
  ghost predicate Inert(text: string, k: string) {
    forall i: nat :: !Begins(text, i, k)
  }

  /** The value of `a` may spell a hole of `b`, and filling that hole would show. */
  predicate ClashAt(params: Params, a: string, b: string, i: nat) {
    a in params && b in params && a != b && params[b] != Needle(b) && Begins(params[a], i, b)
  }

  ghost predicate Clash(params: Params) {
    exists a, b, i: nat :: ClashAt(params, a, b, i)
  }

  function ShowPiece(p: Piece): string {
    match p
    case Text(t) => t
    case Hole(k) => Needle(k)
  }

  function Show(ps: seq<Piece>): string {
    if ps == [] then "" else ShowPiece(ps[0]) + Show(ps[1..])
  }

  /** One hole filled, if it names `k`. */
  function FillPiece(p: Piece, k: string, v: string): Piece {
    if p == Hole(k) then Text(v) else p
  }

  function Fill(ps: seq<Piece>, k: string, v: string): (r: seq<Piece>)
    ensures |r| == |ps| && forall i :: 0 <= i < |ps| ==> r[i] == FillPiece(ps[i], k, v)
  {
    seq(|ps|, i requires 0 <= i < |ps| => FillPiece(ps[i], k, v))
  }

  /** Every hole with a value filled at once; a hole without one stays verbatim. */
  function Substitute(ps: seq<Piece>, params: Params): (r: seq<Piece>)
    ensures |r| == |ps|
    ensures forall i :: 0 <= i < |ps| ==>
      r[i] == if ps[i].Hole? && ps[i].key in params then Text(params[ps[i].key]) else ps[i]
  {
    seq(|ps|, i requires 0 <= i < |ps| =>
      if ps[i].Hole? && ps[i].key in params then Text(params[ps[i].key]) else ps[i])
  }

  // ----------------------------------------------------------------- one replacement

  lemma {:induction false} ReplaceAfterText(t: string, rest: string, k: string, v: string)
    requires Inert(t, k)
    ensures Replace(t + rest, Needle(k), v) == t + Replace(rest, Needle(k), v)
    decreases |t|
  {
    hide Needle;
    if t == "" {
      assert t + rest == rest;
    } else {
      InertTail(t, k);
      ReplaceAfterText(t[1..], rest, k, v);
      NeedleNotAtText(t, rest, k);
      assert (t + rest)[1..] == t[1..] + rest;
      assert t == [t[0]] + t[1..];
    }
  }

  lemma InertTail(t: string, k: string)
    requires t != "" && Inert(t, k)
    ensures Inert(t[1..], k)
  {
    hide Needle;
    forall i: nat ensures !Begins(t[1..], i, k) {
      assert !Begins(t, i + 1, k);
      assert i < |t[1..]| ==> t[1..][i..] == t[i + 1..];
    }
  }

  lemma NeedleNotAtText(t: string, rest: string, k: string)
    requires t != "" && Inert(t, k)
    ensures !(Needle(k) <= t + rest)
  {
    assert !Begins(t, 0, k) && t[0..] == t;
    if Needle(k) <= t + rest {
      PrefixSplits(Needle(k), t, rest);
    }
  }

  lemma PrefixSplits(n: string, t: string, rest: string)
    requires n <= t + rest
    ensures n <= t || t <= n
    ensures n != "" && t != "" ==> n[0] == t[0]
  {
    assert n == (t + rest)[..|n|];
  }

  lemma DollarFreeInert(t: string, k: string)
    requires '$' !in t
    ensures Inert(t, k)
  {}

  lemma ReplaceAtHole(k: string, rest: string, v: string)
    ensures Replace(Needle(k) + rest, Needle(k), v) == v + Replace(rest, Needle(k), v)
  {
    assert Needle(k) <= Needle(k) + rest;
    assert (Needle(k) + rest)[|Needle(k)|..] == rest;
  }

  /** The first `}` tells the keys of two holes apart. */
  lemma HolesDiffer(k: string, h: string, rest: string)
    requires KeyOk(k) && KeyOk(h) && Needle(k) <= Needle(h) + rest
    ensures k == h
  {
    var s := Needle(h) + rest;
    var kTail, hTail := k + ['}'], h + ['}'] + rest;
    assert |Needle(k)| == 8 + |kTail|;
    forall i | 0 <= i < |kTail| ensures i < |hTail| && kTail[i] == hTail[i] {
      assert Needle(k)[8 + i] == kTail[i];
      assert s[8 + i] == hTail[i];
    }
    var more := hTail[|kTail|..];
    assert hTail == k + ['}'] + more;
    IndexOfUnique(k, '}', more);
    IndexOfUnique(h, '}', rest);
    assert k == hTail[..|k|] && h == hTail[..|h|];
  }

  lemma ReplaceAfterHole(h: string, rest: string, k: string, v: string)
    requires KeyOk(k) && KeyOk(h) && k != h
    ensures Replace(Needle(h) + rest, Needle(k), v) == Needle(h) + Replace(rest, Needle(k), v)
  {
    var s := Needle(h) + rest;
    if Needle(k) <= s {
      HolesDiffer(k, h, rest);
    }
    assert s[1..] == AfterDollar(h) + rest;
    DollarFreeInert(AfterDollar(h), k);
    ReplaceAfterText(AfterDollar(h), rest, k, v);
  }

  /** A partly filled template in which only holes of `k` begin its needle. */
  ghost predicate ReadyFor(ps: seq<Piece>, k: string) {
    forall p | p in ps :: PieceReady(p, k)
  }

  ghost predicate PieceReady(p: Piece, k: string) {
    match p
    case Text(t) => Inert(t, k)
    case Hole(h) => KeyOk(h)
  }

  /** Replacing one needle then fills exactly the holes of that key. */
  lemma {:induction false} ReplaceFills(ps: seq<Piece>, k: string, v: string)
    requires ReadyFor(ps, k) && KeyOk(k)
    ensures Replace(Show(ps), Needle(k), v) == Show(Fill(ps, k, v))
    decreases |ps|
  {
    hide Inert, Needle;
    if ps != [] {
      var rest := ps[1..];
      assert forall p | p in rest :: p in ps;
      ReplaceFills(rest, k, v);
      assert ps[0] in ps;
      assert Fill(ps, k, v)[1..] == Fill(rest, k, v);
      match ps[0]
      case Text(t) => ReplaceAfterText(t, Show(rest), k, v);
      case Hole(h) =>
        if h == k {
          ReplaceAtHole(k, Show(rest), v);
        } else {
          ReplaceAfterHole(h, Show(rest), k, v);
        }
    }
  }

  /** A hole filled with itself looks the same. */
  lemma {:induction false} FillSelf(ps: seq<Piece>, k: string)
    ensures Show(Fill(ps, k, Needle(k))) == Show(ps)
  {
    hide Needle;
    if ps != [] {
      FillSelf(ps[1..], k);
      assert Fill(ps, k, Needle(k))[1..] == Fill(ps[1..], k, Needle(k));
    }
  }

  lemma {:induction false} ReplaceSelf(s: string, needle: string)
    requires needle != ""
    ensures Replace(s, needle, needle) == s
    decreases |s|
  {
    if s == "" {
    } else if needle <= s {
      var rest := s[|needle|..];
      ReplaceSelf(rest, needle);
      assert s == needle + rest;
    } else {
      var rest := s[1..];
      ReplaceSelf(rest, needle);
      assert s == [s[0]] + rest;
    }
  }

  // ------------------------------------------------------------------ all replacements

  function Only(params: Params, keys: seq<string>): Params {
    map k | k in params && k in keys :: params[k]
  }

  ghost predicate IsOrder(order: seq<string>, params: Params) {
    Distinct(order) && Elements(order) == params.Keys
  }

  lemma OrderListsKeys(order: seq<string>, params: Params)
    requires IsOrder(order, params)
    ensures forall k :: k in order <==> k in params
  {
    assert forall k :: k in order <==> k in Elements(order);
  }

  /** Without a clash, any list of replacements fills exactly the holes of those keys. */
  lemma {:induction false} ReplaceAllFills(ps: seq<Piece>, order: seq<string>, params: Params)
    requires TemplateOk(ps) && KeysOk(params) && !Clash(params)
    requires Distinct(order) && forall k | k in order :: k in params
    ensures ReplaceAll(Show(ps), order, params) == Show(Substitute(ps, Only(params, order)))
    decreases |order|
  {
    hide Replace, Fill, Show, Clash, Needle;
    if order == [] {
      assert Substitute(ps, Only(params, order)) == ps;
    } else {
      var n := |order| - 1;
      var k, shorter := order[n], order[..n];
      assert forall x | x in shorter :: x in order;
      ReplaceAllFills(ps, shorter, params);
      assert k in order && k !in shorter;
      assert order == shorter + [k];
      var before := Substitute(ps, Only(params, shorter));
      SubstituteOneMore(ps, shorter, k, params);
      if params[k] == Needle(k) {
        ReplaceSelf(Show(before), Needle(k));
        FillSelf(before, k);
      } else {
        ReadyWithoutClash(ps, shorter, k, params);
        ReplaceFills(before, k, params[k]);
      }
    }
  }

  lemma SubstituteOneMore(ps: seq<Piece>, keys: seq<string>, k: string, params: Params)
    requires k in params && forall x | x in keys :: x in params
    ensures Fill(Substitute(ps, Only(params, keys)), k, params[k]) == Substitute(ps, Only(params, keys + [k]))
  {
    assert forall x :: x in keys + [k] <==> x in keys || x == k;
  }

  lemma ReadyWithoutClash(ps: seq<Piece>, keys: seq<string>, k: string, params: Params)
    requires TemplateOk(ps) && !Clash(params) && k in params && params[k] != Needle(k)
    requires k !in keys && forall x | x in keys :: x in params
    ensures ReadyFor(Substitute(ps, Only(params, keys)), k)
  {
    hide Needle, Begins;
    var before := Substitute(ps, Only(params, keys));
    forall p | p in before ensures PieceReady(p, k) {
      var j :| 0 <= j < |before| && before[j] == p;
      assert ps[j] in ps;
      if ps[j].Text? {
        DollarFreeInert(ps[j].text, k);
      } else if ps[j].key in keys {
        forall i: nat ensures !Begins(params[ps[j].key], i, k) {
          assert !ClashAt(params, ps[j].key, k, i);
        }
      }
    }
  }

  /**
   * The loop replaces in some order of the keys. Unless the parameters clash, it agrees on every
   * template with filling all holes at once, whatever that order.
   */
  method SubstituteParams(sql: string, params: Params) returns (out: string, ghost order: seq<string>)
    ensures IsOrder(order, params) && (forall k | k in order :: k in params) && out == ReplaceAll(sql, order, params)
    ensures forall ps :: TemplateOk(ps) && KeysOk(params) && !Clash(params) && sql == Show(ps) ==>
              out == Show(Substitute(ps, params))
  {
    hide Replace, Clash, Needle;
    out, order := sql, [];
    var keys := params.Keys;
    while keys != {}
      invariant keys <= params.Keys && Elements(order) == params.Keys - keys && Distinct(order)
      invariant forall k | k in order :: k in params
      invariant out == ReplaceAll(sql, order, params)
      decreases keys
    {
      var k :| k in keys;
      out := Replace(out, Needle(k), params[k]);
      assert k !in Elements(order);
      ghost var more := order + [k];
      assert more[..|order|] == order;
      assert Elements(more) == Elements(order) + {k};
      order := more;
      keys := keys - {k};
    }
    OrderListsKeys(order, params);
    forall ps | TemplateOk(ps) && KeysOk(params) && !Clash(params) && sql == Show(ps)
      ensures out == Show(Substitute(ps, params))
    {
      ReplaceAllFills(ps, order, params);
      assert Only(params, order) == params;
    }
  }

  // -------------------------------------------------------------- when order matters

  /** Every template, in every order, is filled as if all at once. */
  ghost predicate FillsAlways(params: Params) {
    forall ps, order ::
      TemplateOk(ps) && IsOrder(order, params) && (forall k | k in order :: k in params) ==>
        ReplaceAll(Show(ps), order, params) == Show(Substitute(ps, params))
  }

  /** Two orders of replacement give different texts for some template. */
  ghost predicate OrderMatters(params: Params) {
    exists ps, order, order' :: TemplateOk(ps) && Differ(ps, order, order', params)
  }

  ghost predicate Differ(ps: seq<Piece>, order: seq<string>, order': seq<string>, params: Params) {
    && IsOrder(order, params) && IsOrder(order', params)
    && (forall k | k in order :: k in params) && (forall k | k in order' :: k in params)
    && ReplaceAll(Show(ps), order, params) != ReplaceAll(Show(ps), order', params)
  }

  /** The order of replacement is harmless if and only if no value may spell another's hole. */
  lemma OrderMattersExactly(params: Params)
    requires KeysOk(params)
    ensures FillsAlways(params) <==> !Clash(params)
    ensures OrderMatters(params) <==> Clash(params)
  {
    hide ReplaceAll, Show, Substitute, ClashAt;
    if Clash(params) {
      var a, b, i: nat :| ClashAt(params, a, b, i);
      var ps, order, order' := ClashShows(params, a, b, i);
      assert Differ(ps, order, order', params);
    } else {
      forall ps, order | TemplateOk(ps) && IsOrder(order, params) && (forall k | k in order :: k in params)
        ensures ReplaceAll(Show(ps), order, params) == Show(Substitute(ps, params))
      {
        OrderListsKeys(order, params);
        ReplaceAllFills(ps, order, params);
        assert Only(params, order) == params;
      }
    }
  }

  /** A clash shows on a hole of `a` with what is left of the needle of `b`, when `b` comes last. */
  lemma ClashShows(params: Params, a: string, b: string, i: nat)
    returns (ps: seq<Piece>, order: seq<string>, order': seq<string>)
    requires KeysOk(params) && ClashAt(params, a, b, i)
    ensures TemplateOk(ps) && Differ(ps, order, order', params)
  {
    hide Replace, Show;
    var w, n := params[a][i..], Needle(b);
    var text := if |w| <= |n| then n[|w|..] else "";
    ps := [Hole(a), Text(text)];
    var others := ListOf(params.Keys - {a, b});
    order, order' := others + [a, b], others + [b, a];
    ElementsPushTwo(others, a, b);
    ElementsPushTwo(others, b, a);
    assert forall x :: x in others <==> x in Elements(others);
    OrderListsKeys(order, params);
    OrderListsKeys(order', params);
    OthersIdle(ps, others, params, a, text);
    LastTwo(Show(ps), others, a, b, params);
    LastTwo(Show(ps), others, b, a, params);
    NeedleTail(b, text, |n| - |text|);
    FillHoleOf(a, params[a], b, params[b], text);
    assert n <= (params[a] + text)[i..];
    ReplaceChanges(params[a] + text, n, params[b], i);
  }

  lemma NeedleTail(b: string, text: string, k: nat)
    requires KeyOk(b) && 0 < k <= |Needle(b)| && text == Needle(b)[k..]
    ensures '$' !in text
  {
    assert forall j | 0 <= j < |text| :: text[j] == AfterDollar(b)[j + k - 1];
  }

  /** Of a hole of `a` and a text without `$`, only the needle of `a` is replaced. */
  lemma FillHoleOf(a: string, x: string, b: string, y: string, text: string)
    requires KeyOk(a) && KeyOk(b) && a != b && '$' !in text
    ensures var ps := [Hole(a), Text(text)];
      Replace(Show(ps), Needle(a), x) == x + text && Replace(Show(ps), Needle(b), y) == Show(ps)
  {
    hide Replace, Show;
    var ps := [Hole(a), Text(text)];
    ReplaceFills(ps, a, x) by { DollarFreeInert(text, a); }
    ReplaceFills(ps, b, y) by { DollarFreeInert(text, b); }
    assert Fill(ps, b, y) == ps;
    ShowTwo(Fill(ps, a, x), x, text);
  }

  lemma ShowTwo(ps: seq<Piece>, value: string, text: string)
    requires ps == [Text(value), Text(text)]
    ensures Show(ps) == value + text
  {
    assert ps[1..] == [Text(text)] && [Text(text)][1..] == [];
    assert Show([Text(text)]) == text + "" == text;
  }

  lemma ElementsPush(s: seq<string>, k: string)
    ensures Elements(s + [k]) == Elements(s) + {k}
  {
    assert forall x :: x in s + [k] <==> x in s || x == k;
  }

  lemma ElementsPushTwo(s: seq<string>, a: string, b: string)
    ensures Elements(s + [a, b]) == Elements(s) + {a, b}
  {
    assert forall x :: x in s + [a, b] <==> x in s || x == a || x == b;
  }

  lemma {:induction false} ListOf(keys: set<string>) returns (s: seq<string>)
    ensures Distinct(s) && Elements(s) == keys
  {
    if keys == {} {
      s := [];
    } else {
      var k :| k in keys;
      var rest := ListOf(keys - {k});
      assert forall x :: x in rest <==> x in Elements(rest);
      ElementsPush(rest, k);
      s := rest + [k];
      assert keys - {k} + {k} == keys;
    }
  }

  /** Replacing keys the template does not name does nothing. */
  lemma {:induction false} OthersIdle(ps: seq<Piece>, order: seq<string>, params: Params, a: string, text: string)
    requires ps == [Hole(a), Text(text)] && KeyOk(a) && '$' !in text && KeysOk(params)
    requires a !in order && forall k | k in order :: k in params
    ensures ReplaceAll(Show(ps), order, params) == Show(ps)
    decreases |order|
  {
    hide Replace, Show, Needle;
    if order != [] {
      var n := |order| - 1;
      assert forall k | k in order[..n] :: k in order;
      OthersIdle(ps, order[..n], params, a, text);
      assert order[n] in order;
      DollarFreeInert(text, order[n]);
      ReplaceFills(ps, order[n], params[order[n]]);
      assert Fill(ps, order[n], params[order[n]]) == ps;
    }
  }

  lemma LastTwo(s: string, others: seq<string>, a: string, b: string, params: Params)
    requires a in params && b in params && forall k | k in others :: k in params
    ensures forall k | k in others + [a, b] :: k in params
    ensures ReplaceAll(s, others + [a, b], params)
            == Replace(Replace(ReplaceAll(s, others, params), Needle(a), params[a]), Needle(b), params[b])
  {
    hide Replace, Needle;
    var order := others + [a, b];
    assert order[..|order| - 1] == others + [a];
    assert (others + [a])[..|others|] == others;
  }

  /** Replacing a needle that occurs by another text changes the string. */
  lemma {:induction false} ReplaceChanges(s: string, needle: string, v: string, i: nat)
    requires needle != "" && v != needle && i <= |s| && needle <= s[i..]
    ensures Replace(s, needle, v) != s
    decreases |s|
  {
    if needle <= s {
      var rest := s[|needle|..];
      ReplaceLength(rest, needle, v);
      assert s == needle + rest;
      assert |v| == |needle| ==> (v + Replace(rest, needle, v))[..|v|] == v;
    } else {
      assert i > 0 && s[1..][i - 1..] == s[i..];
      ReplaceChanges(s[1..], needle, v, i - 1);
      assert Replace(s, needle, v)[1..] == Replace(s[1..], needle, v);
    }
  }

  lemma {:induction false} ReplaceLength(s: string, needle: string, v: string)
    requires needle != ""
    ensures |v| >= |needle| ==> |Replace(s, needle, v)| >= |s|
    ensures |v| <= |needle| ==> |Replace(s, needle, v)| <= |s|
    decreases |s|
  {
    if s == "" {
    } else if needle <= s {
      ReplaceLength(s[|needle|..], needle, v);
    } else {
      ReplaceLength(s[1..], needle, v);
    }
  }

  /** Values without `$` never clash. */
  lemma DollarFreeNeverClash(params: Params)
    requires forall k | k in params :: '$' !in params[k]
    ensures !Clash(params)
  {}

  /** A value that spells another hole clashes with it. */
  lemma SpelledHoleClashes(params: Params, a: string, b: string)
    requires a in params && b in params && a != b && params[a] == Needle(b) && params[b] != Needle(b)
    ensures Clash(params)
  {
    assert params[a][0..] == params[a];
    assert ClashAt(params, a, b, 0);
  }

  /** For instance: a value that is another hole is filled in one order and left in the other. */
  lemma OrderCanMatter()
    ensures var params := map["a" := Needle("b"), "b" := "x"];
            ReplaceAll(Needle("a"), ["a", "b"], params) == "x"
            && ReplaceAll(Needle("a"), ["b", "a"], params) == Needle("b")
            && Clash(params)
  {
    var params := map["a" := Needle("b"), "b" := "x"];
    SpelledHoleClashes(params, "a", "b");
    var ab, ba := ["a", "b"], ["b", "a"];
    assert ab[..1] == ["a"] && ba[..1] == ["b"];
    assert ["a"][..0] == [] && ["b"][..0] == [];
    ReplaceOnly("a", Needle("b"));
    ReplaceOnly("b", "x");
    ReplaceAfterHole("a", "", "b", "x");
    assert Needle("a") + "" == Needle("a");
  }

  lemma ReplaceOnly(k: string, v: string)
    ensures Replace(Needle(k), Needle(k), v) == v
  {
    ReplaceAtHole(k, "", v);
    assert Needle(k) + "" == Needle(k) && v + "" == v;
  }

  /** Spelled out: a hole is its key between `${param:` and `}`, and its value takes its place. */
  lemma HoleFilled(before: string, k: string, after: string, params: Params, order: seq<string>)
    requires '$' !in before && '$' !in after && k in params
    requires KeysOk(params) && !Clash(params) && IsOrder(order, params)
    ensures forall x | x in order :: x in params
    ensures ReplaceAll(before + ("${param:" + k + "}") + after, order, params) == before + params[k] + after
  {
    hide Clash, Show, ReplaceAll;
    OrderListsKeys(order, params);
    var ps := [Text(before), Hole(k), Text(after)];
    assert Needle(k) == "${param:" + k + "}";
    ShowThree(ps, before, Needle(k), after);
    ReplaceAllFills(ps, order, params);
    assert Only(params, order) == params;
    ShowThree(Substitute(ps, params), before, params[k], after);
  }

  lemma ShowThree(ps: seq<Piece>, a: string, b: string, c: string)
    requires |ps| == 3 && ShowPiece(ps[0]) == a && ShowPiece(ps[1]) == b && ShowPiece(ps[2]) == c
    ensures Show(ps) == a + b + c
  {
    assert ps[1..][0] == ps[1] && ps[1..][1..][0] == ps[2] && ps[1..][1..][1..] == [];
    assert Show(ps[1..][1..]) == c + "" == c;
    assert Show(ps[1..]) == b + c;
    assert a + (b + c) == a + b + c;
  }
}
