/**
 * The `{member}` / `{member | filter}` references of a derived metric
 * (crates/pawrly-core/src/semantic.rs): the scanner as the loop it is, the language it
 * accepts, and the members a metric references.
 */
module Tokens {
  import opened Prelude
  import opened Text

  datatype Token = Token(member: string, filter: Option<string>)

  datatype TokenError = UnbalancedOpen | EmptyReference | UnbalancedClose | NoToken

  // ---------------------------------------------------------------- one token

  /** The text between a pair of braces, split on its first `|`. */
  function TokenOf(body: string): Token {
    var bar := IndexOf(body, '|');
    if bar < |body| then
      var filter := Trim(body[bar + 1..]);
      Token(Trim(body[..bar]), if filter == "" then None else Some(filter))
    else
      Token(Trim(body), None)
  }

  // ------------------------------------------------- the language of the scanner

  /** `text{body}`: some text, then one braced reference. */
  datatype Chunk = Chunk(text: string, body: string)

  /** Text before a reference has no `{`; a body runs to the first `}` and names a member. */
  predicate ChunkOk(c: Chunk) {
    '{' !in c.text && '}' !in c.body && TokenOf(c.body).member != ""
  }

  predicate ChunksOk(cs: seq<Chunk>) {
    forall c | c in cs :: ChunkOk(c)
  }

  predicate TailOk(tail: string) {
    '{' !in tail && '}' !in tail
  }

  function ShowChunk(c: Chunk): string {
    c.text + ['{'] + (c.body + ['}'])
  }

  function Show(cs: seq<Chunk>, tail: string): string {
    if cs == [] then tail else ShowChunk(cs[0]) + Show(cs[1..], tail)
  }

  function TokensOf(cs: seq<Chunk>): (ts: seq<Token>)
    ensures |ts| == |cs|
    ensures forall i :: 0 <= i < |cs| ==> ts[i] == TokenOf(cs[i].body)
  {
    if cs == [] then [] else [TokenOf(cs[0].body)] + TokensOf(cs[1..])
  }

  // --------------------------------------------------------------- the scanner

  /** What scanning `rest` adds to the tokens found so far. */
  function Scan(rest: string): Result<seq<Token>, TokenError>
    decreases |rest|
  {
    var start := IndexOf(rest, '{');
    if start == |rest| then
      if '}' in rest then Err(UnbalancedClose) else Ok([])
    else
      var after := rest[start + 1..];
      var end := IndexOf(after, '}');
      if end == |after| then Err(UnbalancedOpen)
      else
        var token := TokenOf(after[..end]);
        if token.member == "" then Err(EmptyReference)
        else Prefixed([token], Scan(after[end + 1..]))
  }

  function Prefixed(found: seq<Token>, r: Result<seq<Token>, TokenError>): Result<seq<Token>, TokenError> {
    match r
    case Err(e) => Err(e)
    case Ok(more) => Ok(found + more)
  }

  lemma PrefixedTwice(found: seq<Token>, token: Token, r: Result<seq<Token>, TokenError>)
    ensures Prefixed([], r) == r
    ensures Prefixed(found, Prefixed([token], r)) == Prefixed(found + [token], r)
  {
    match r {
      case Ok(more) => assert found + ([token] + more) == found + [token] + more && [] + more == more;
      case Err(_) =>
    }
  }

  function DerivedTokensSpec(expr: string): Result<seq<Token>, TokenError> {
    match Scan(expr)
    case Err(e) => Err(e)
    case Ok(ts) => if ts == [] then Err(NoToken) else Ok(ts)
  }

  method DerivedTokens(expr: string) returns (r: Result<seq<Token>, TokenError>)
    ensures r == DerivedTokensSpec(expr)
  {
    var tokens: seq<Token> := [];
    var rest := expr;
    var start := IndexOf(rest, '{');
    PrefixedTwice([], Token("", None), Scan(expr));
    while start < |rest|
      invariant start == IndexOf(rest, '{')
      invariant Scan(expr) == Prefixed(tokens, Scan(rest))
      decreases |rest|
    {
      var after := rest[start + 1..];
      var end := IndexOf(after, '}');
      if end == |after| {
        return Err(UnbalancedOpen);
      }
      var token := TokenOf(after[..end]);
      if token.member == "" {
        return Err(EmptyReference);
      }
      rest := after[end + 1..];
      PrefixedTwice(tokens, token, Scan(rest));
      tokens := tokens + [token];
      start := IndexOf(rest, '{');
    }
    if '}' in rest {
      return Err(UnbalancedClose);
    }
    assert tokens + [] == tokens;
    if tokens == [] {
      return Err(NoToken);
    }
    return Ok(tokens);
  }

  // -------------------------------------------------------------- what it accepts

  lemma ScanChunk(c: Chunk, more: string)
    requires '{' !in c.text && '}' !in c.body
    ensures Scan(ShowChunk(c) + more) ==
            if TokenOf(c.body).member == "" then Err(EmptyReference)
            else match Scan(more) { case Err(e) => Err(e) case Ok(ts) => Ok([TokenOf(c.body)] + ts) }
  {
    var rest := ShowChunk(c) + more;
    assert rest == c.text + ['{'] + (c.body + ['}'] + more);
    IndexOfUnique(c.text, '{', c.body + ['}'] + more);
    var after := rest[|c.text| + 1..];
    assert after == c.body + ['}'] + more;
    IndexOfUnique(c.body, '}', more);
    assert after[..|c.body|] == c.body;
    assert after[|c.body| + 1..] == more;
  }

  /** Scanning rendered chunks gives back one token per chunk, in order. */
  lemma {:induction false} ScanShow(cs: seq<Chunk>, tail: string)
    requires ChunksOk(cs) && TailOk(tail)
    ensures Scan(Show(cs, tail)) == Ok(TokensOf(cs))
  {
    if cs == [] {
      IndexOfAbsent(tail, '{');
    } else {
      assert cs[0] in cs;
      ScanChunk(cs[0], Show(cs[1..], tail));
      ScanShow(cs[1..], tail);
    }
  }

  lemma ShowChunkPlus(c: Chunk, more: string)
    ensures ShowChunk(c) + more == c.text + ['{'] + (c.body + ['}'] + more)
  {}

  /** Every accepted string is such a rendering, so `Show` describes the language exactly. */
  lemma {:induction false} ScanShape(rest: string) returns (cs: seq<Chunk>, tail: string)
    requires Scan(rest).Ok?
    ensures ChunksOk(cs) && TailOk(tail)
    ensures Show(cs, tail) == rest && Scan(rest) == Ok(TokensOf(cs))
    decreases |rest|
  {
    var start := IndexOf(rest, '{');
    if start == |rest| {
      assert rest[..start] == rest;
      cs, tail := [], rest;
    } else {
      var after := rest[start + 1..];
      var end := IndexOf(after, '}');
      var c := Chunk(rest[..start], after[..end]);
      var more, tail' := ScanShape(after[end + 1..]);
      cs, tail := [c] + more, tail';
      assert cs[1..] == more;
      assert rest == ShowChunk(c) + after[end + 1..] by {
        SplitAtIndex(rest, '{');
        SplitAtIndex(after, '}');
        ShowChunkPlus(c, after[end + 1..]);
      }
      forall x | x in cs ensures ChunkOk(x) {
        if x != c { assert x in more; }
      }
    }
  }

  /** The exact language: acceptance, and the tokens returned, for every string. */
  lemma AcceptedExactly(expr: string, ts: seq<Token>)
    ensures DerivedTokensSpec(expr) == Ok(ts) <==>
            exists cs, tail :: ChunksOk(cs) && TailOk(tail) && cs != []
                               && Show(cs, tail) == expr && TokensOf(cs) == ts
  {
    if DerivedTokensSpec(expr) == Ok(ts) {
      var cs, tail := ScanShape(expr);
      assert ChunksOk(cs) && TailOk(tail) && cs != [] && Show(cs, tail) == expr && TokensOf(cs) == ts;
    }
    if cs, tail :| ChunksOk(cs) && TailOk(tail) && cs != [] && Show(cs, tail) == expr && TokensOf(cs) == ts {
      ScanShow(cs, tail);
    }
  }

  // ------------------------------------------------- rendered references round trip

  /** A reference as a person writes it, with any white space around its parts. */
  datatype Written = Written(text: string, before: string, member: string, after: string,
                             filter: Option<Filter>)
  datatype Filter = Filter(before: string, sql: string, after: string)

  predicate BraceFree(s: string) { '{' !in s && '}' !in s }

  predicate WrittenOk(w: Written) {
    && BraceFree(w.text)
    && AllSpace(w.before) && AllSpace(w.after)
    && w.member != "" && Trimmed(w.member) && '|' !in w.member && BraceFree(w.member)
    && match w.filter {
         case None => true
         case Some(f) => AllSpace(f.before) && AllSpace(f.after) && Trimmed(f.sql) && BraceFree(f.sql)
       }
  }

  function BodyOf(w: Written): string {
    var member := w.before + w.member + w.after;
    match w.filter
    case None => member
    case Some(f) => member + ['|'] + (f.before + f.sql + f.after)
  }

  /** An empty filter is dropped by the scanner. */
  function MeaningOf(w: Written): Token {
    Token(w.member, if w.filter.Some? && w.filter.value.sql != "" then Some(w.filter.value.sql) else None)
  }

  function Chunks(ws: seq<Written>): (cs: seq<Chunk>)
    ensures |cs| == |ws|
    ensures forall i :: 0 <= i < |ws| ==> cs[i] == Chunk(ws[i].text, BodyOf(ws[i]))
  {
    if ws == [] then [] else [Chunk(ws[0].text, BodyOf(ws[0]))] + Chunks(ws[1..])
  }

  lemma BodyMeaning(w: Written)
    requires WrittenOk(w)
    ensures TokenOf(BodyOf(w)) == MeaningOf(w) && '}' !in BodyOf(w)
  {
    var member := w.before + w.member + w.after;
    assert forall c | c in w.before || c in w.after :: IsSpace(c);
    assert '|' !in member && '}' !in member;
    TrimPadded(w.before, w.member, w.after);
    match w.filter
    case None =>
      IndexOfAbsent(member, '|');
    case Some(f) =>
      var rest := f.before + f.sql + f.after;
      assert forall c | c in f.before || c in f.after :: IsSpace(c);
      TrimPadded(f.before, f.sql, f.after);
      IndexOfUnique(member, '|', rest);
      var body := member + ['|'] + rest;
      assert body[..|member|] == member && body[|member| + 1..] == rest;
      assert '}' !in body;
  }

  /**
   * Round trip: text and references written in any alternation scan back to exactly the
   * references, in order; with no reference the scan fails.
   */
  lemma WrittenRoundTrip(ws: seq<Written>, tail: string)
    requires (forall w | w in ws :: WrittenOk(w)) && BraceFree(tail)
    ensures ws == [] ==> DerivedTokensSpec(Show(Chunks(ws), tail)) == Err(NoToken)
    ensures ws != [] ==>
      match DerivedTokensSpec(Show(Chunks(ws), tail))
      case Ok(ts) => |ts| == |ws| && forall i :: 0 <= i < |ws| ==> ts[i] == MeaningOf(ws[i])
      case Err(_) => false
  {
    var cs := Chunks(ws);
    forall i | 0 <= i < |ws| ensures ChunkOk(cs[i]) && TokenOf(cs[i].body) == MeaningOf(ws[i]) {
      assert ws[i] in ws;
      BodyMeaning(ws[i]);
    }
    ScanShow(cs, tail);
  }

  // ---------------------------------------------------------- members of a metric

  datatype Operand = Operand(member: string, filter: Option<string>)

  datatype MetricKind =
    | Ratio(numerator: Operand, denominator: Operand)
    | Derived(expr: string)
    | Cumulative(measure: string)
    | Offset(measure: string)
    | Share(measure: string)

  datatype Metric = Metric(name: string, kind: MetricKind)

  /** Every member a metric mentions, in order; a bad derived expression is an error. */
  function References(m: Metric): Result<seq<Token>, TokenError> {
    match m.kind
    case Ratio(n, d) => Ok([Token(n.member, n.filter), Token(d.member, d.filter)])
    case Derived(expr) => DerivedTokensSpec(expr)
    case Cumulative(x) => Ok([Token(x, None)])
    case Offset(x) => Ok([Token(x, None)])
    case Share(x) => Ok([Token(x, None)])
  }
}
