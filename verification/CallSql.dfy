/**
 * Rendering a function call as SQL text (crates/pawrly-core/src/function.rs): numbers and booleans
 * are written bare, everything else as a string literal with its quotes doubled. A lexer for SQL
 * literals reads the arguments back.
 */
module CallSql {
  import opened Prelude
  import opened Text

  datatype CallArg = CallArg(value: string, quoted: bool)

  // ------------------------------------------------------------- what may stand bare

  function AsciiLower(c: char): char {
    if 'A' <= c <= 'Z' then (c - 'A') + 'a' else c
  }

  function Lowercase(s: string): (r: string)
    ensures |r| == |s| && forall i :: 0 <= i < |s| ==> r[i] == AsciiLower(s[i])
  {
    seq(|s|, i requires 0 <= i < |s| => AsciiLower(s[i]))
  }

  predicate IsDigit(c: char) { '0' <= c <= '9' }

  predicate IsAlphabetic(c: char) { 'a' <= c <= 'z' || 'A' <= c <= 'Z' }

  predicate IsDigits(s: string) { forall c | c in s :: IsDigit(c) }

  function Unsigned(s: string): string {
    if s != "" && (s[0] == '+' || s[0] == '-') then s[1..] else s
  }

  function DecimalValue(digits: string): nat
    requires IsDigits(digits)
  {
    if digits == "" then 0 else
      assert digits[|digits| - 1] in digits;
      10 * DecimalValue(digits[..|digits| - 1]) + (digits[|digits| - 1] - '0') as nat
  }

  /** `str::parse::<i64>` succeeds. */
  predicate ParsesAsInteger(s: string) {
    var digits := Unsigned(s);
    digits != "" && IsDigits(digits)
    && DecimalValue(digits) <= (if s[0] == '-' then 0x8000_0000_0000_0000 else 0x7FFF_FFFF_FFFF_FFFF)
  }

  function ExponentMark(s: string): (i: nat)
    ensures i <= |s| && (i < |s| ==> s[i] in ['e', 'E'])
  {
    if s == "" || s[0] in ['e', 'E'] then 0 else 1 + ExponentMark(s[1..])
  }

  predicate IsMantissa(s: string) {
    var dot := IndexOf(s, '.');
    if dot == |s| then s != "" && IsDigits(s)
    else IsDigits(s[..dot]) && IsDigits(s[dot + 1..]) && |s| > 1
  }

  /** `str::parse::<f64>` succeeds. */
  predicate ParsesAsFloat(s: string) {
    var t := Unsigned(s);
    Lowercase(t) in ["inf", "infinity", "nan"] || IsDecimal(t)
  }

  predicate IsDecimal(t: string) {
    var mark := ExponentMark(t);
    && IsMantissa(t[..mark])
    && (mark < |t| ==> var e := Unsigned(t[mark + 1..]); e != "" && IsDigits(e))
  }

  predicate IsSafeBareLiteral(value: string) {
    || Lowercase(value) == "true"
    || Lowercase(value) == "false"
    || ((forall c | c in value :: IsAlphabetic(c) ==> c in ['e', 'E'])
        && (ParsesAsInteger(value) || ParsesAsFloat(value)))
  }

  predicate TypeIsString(typeStr: string) {
    Lowercase(Trim(typeStr)) !in
      ["int", "integer", "int32", "int64", "bigint", "long", "smallint", "double", "float",
       "float32", "float64", "real", "decimal", "numeric", "bool", "boolean"]
  }

  function NewArg(value: string, typeStr: string): CallArg {
    CallArg(value, TypeIsString(typeStr) || !IsSafeBareLiteral(value))
  }

  /** What `NewArg` guarantees of its results: a bare value is a literal of its own. */
  predicate Built(a: CallArg) {
    !a.quoted ==> IsSafeBareLiteral(a.value)
  }

  lemma BuiltByNew(value: string, typeStr: string)
    ensures Built(NewArg(value, typeStr)) && NewArg(value, typeStr).value == value
    ensures TypeIsString(typeStr) ==> NewArg(value, typeStr).quoted
  {}

  // ------------------------------------------------------------------------ rendering

  function Escape(s: string): string {
    if s == "" then "" else EscapeChar(s[0]) + Escape(s[1..])
  }

  function RenderArg(a: CallArg): string {
    if a.quoted then ['\''] + (Escape(a.value) + ['\'']) else a.value
  }

  function Join(args: seq<CallArg>): string {
    if args == [] then ""
    else if |args| == 1 then RenderArg(args[0])
    else RenderArg(args[0]) + (", " + Join(args[1..]))
  }

  function RenderCallSql(namespace: string, name: string, args: seq<CallArg>): string {
    "SELECT * FROM " + namespace + "." + name + "(" + Join(args) + ")"
  }

  // ---------------------------------------------------------------------------- lexing

  datatype Lexed<T> = Lexed(item: T, rest: string) | Stuck

  /** The rest of a string literal: a doubled quote stands for one, a single one ends it. */
  function LexQuoted(s: string): Lexed<string>
    decreases |s|
  {
    if s == "" then Stuck
    else if s[0] != '\'' then
      match LexQuoted(s[1..])
      case Lexed(text, rest) => Lexed([s[0]] + text, rest)
      case Stuck => Stuck
    else if |s| > 1 && s[1] == '\'' then
      match LexQuoted(s[2..])
      case Lexed(text, rest) => Lexed(['\''] + text, rest)
      case Stuck => Stuck
    else Lexed("", s[1..])
  }

  predicate EndsBare(c: char) { c == ',' || c == ')' || c == '\'' || c == ' ' }

  function BareLength(s: string): (n: nat)
    ensures n <= |s|
  {
    if s == "" || EndsBare(s[0]) then 0 else 1 + BareLength(s[1..])
  }

  /** A numeric literal, part by part: `-12.5e+3` is `-`, `12`, `.`, `5`, `e+3`. */
  datatype Number = Number(sign: string, whole: string, point: string, frac: string, exp: string)

  function NumberText(n: Number): string {
    n.sign + (n.whole + n.point + n.frac + n.exp)
  }

  /** Digits on at least one side of the point, and digits in an exponent. */
  predicate NumberOk(n: Number) {
    && n.sign in ["", "+", "-"] && IsDigits(n.whole) && IsDigits(n.frac) && n.whole + n.frac != ""
    && (n.point == "." || (n.point == "" && n.frac == ""))
    && (n.exp == "" || ExponentOk(n.exp))
  }

  predicate ExponentOk(exp: string) {
    && |exp| >= 2 && exp[0] in ['e', 'E']
    && (if exp[1] in ['+', '-'] then |exp| > 2 && IsDigits(exp[2..]) else IsDigits(exp[1..]))
  }

  predicate IsBoolean(s: string) {
    Lowercase(s) in ["true", "false"]
  }

  /** A SQL literal that stands without quotes. */
  ghost predicate IsBareLiteral(s: string) {
    IsBoolean(s) || exists n :: NumberOk(n) && NumberText(n) == s
  }

  /** One literal: a quoted string, or a bare number or boolean. */
  ghost function LexArg(s: string): Lexed<CallArg> {
    if s != "" && s[0] == '\'' then
      match LexQuoted(s[1..])
      case Lexed(text, rest) => Lexed(CallArg(text, true), rest)
      case Stuck => Stuck
    else
      var n := BareLength(s);
      if IsBareLiteral(s[..n]) then Lexed(CallArg(s[..n], false), s[n..]) else Stuck
  }

  lemma QuotedShrinks(s: string)
    ensures LexQuoted(s).Lexed? ==> |LexQuoted(s).rest| < |s|
    decreases |s|
  {}

  lemma ArgShrinks(s: string)
    ensures LexArg(s).Lexed? ==> |LexArg(s).rest| < |s|
  {
    if s != "" && s[0] == '\'' {
      QuotedShrinks(s[1..]);
    } else if n :| NumberOk(n) && NumberText(n) == "" {
      assert n.whole + n.frac == "";
    }
  }

  /** A parenthesised list, after its opening parenthesis. */
  ghost function LexList(s: string): Lexed<seq<CallArg>>
    decreases |s|
  {
    ArgShrinks(s);
    match LexArg(s)
    case Stuck => Stuck
    case Lexed(a, rest) =>
      if rest != "" && rest[0] == ')' then Lexed([a], rest[1..])
      else if |rest| > 1 && rest[0] == ',' && rest[1] == ' ' then
        match LexList(rest[2..])
        case Lexed(more, end) => Lexed([a] + more, end)
        case Stuck => Stuck
      else Stuck
  }

  /** A call as read back: the function's two names and its arguments. */
  datatype Call = Call(namespace: string, name: string, args: seq<CallArg>)

  /** A query of everything a call yields: the names up to the first `.` and `(`, then the list to the end. */
  ghost function LexCall(sql: string): Option<Call> {
    var select := "SELECT * FROM ";
    var open := IndexOf(sql, '(');
    if open == |sql| || !(select <= sql[..open]) then None
    else
      var names := sql[|select|..open];
      var dot := IndexOf(names, '.');
      var s := sql[open + 1..];
      if dot == |names| then None
      else if s == ")" then Some(Call(names[..dot], names[dot + 1..], []))
      else
        match LexList(s)
        case Lexed(args, rest) => if rest == "" then Some(Call(names[..dot], names[dot + 1..], args)) else None
        case Stuck => None
  }

  // ------------------------------------------------------------------------ round trip

  function EscapeChar(c: char): string {
    if c == '\'' then "''" else [c]
  }

  lemma LexEscaped(c: char, tail: string)
    ensures LexQuoted(EscapeChar(c) + tail) ==
            match LexQuoted(tail) { case Lexed(text, rest) => Lexed([c] + text, rest) case Stuck => Stuck }
  {
    assert (EscapeChar(c) + tail)[|EscapeChar(c)|..] == tail;
  }

  lemma {:induction false} QuotedRoundTrip(v: string, rest: string)
    requires rest != "" ==> rest[0] != '\''
    ensures LexQuoted(Escape(v) + (['\''] + rest)) == Lexed(v, rest)
    decreases |v|
  {
    hide LexQuoted;
    var end := ['\''] + rest;
    if v == "" {
      assert Escape(v) + end == end;
      QuoteEnds(rest);
    } else {
      QuotedRoundTrip(v[1..], rest);
      LexEscaped(v[0], Escape(v[1..]) + end);
      assert Escape(v) + end == EscapeChar(v[0]) + (Escape(v[1..]) + end);
      assert v == [v[0]] + v[1..];
    }
  }

  lemma QuoteEnds(rest: string)
    requires rest != "" ==> rest[0] != '\''
    ensures LexQuoted(['\''] + rest) == Lexed("", rest)
  {
    assert (['\''] + rest)[1..] == rest;
  }

  /** Nothing in a bare literal ends it early. */
  lemma BareChars(v: string)
    requires IsSafeBareLiteral(v)
    ensures v != "" && forall c | c in v :: !EndsBare(c)
  {
    hide ParsesAsInteger, ParsesAsFloat, Lowercase, EndsBare;
    if IsBoolean(v) {
      BooleanChars(v);
    } else if ParsesAsInteger(v) {
      IntegerChars(v);
    } else {
      FloatsEndNot(v);
    }
  }

  lemma IntegerChars(v: string)
    requires ParsesAsInteger(v)
    ensures v != "" && forall c | c in v :: !EndsBare(c)
  {
    SignedChars(v);
  }

  lemma FloatsEndNot(v: string)
    requires ParsesAsFloat(v) && (forall c | c in v :: IsAlphabetic(c) ==> c in ['e', 'E'])
    ensures v != "" && forall c | c in v :: !EndsBare(c)
  {
    hide ParsesAsFloat;
    FloatChars(v);
  }

  lemma BooleanChars(v: string)
    requires IsBoolean(v)
    ensures v != "" && forall c | c in v :: !EndsBare(c)
  {
    forall c | c in v ensures !EndsBare(c) {
      var i :| 0 <= i < |v| && v[i] == c;
      assert Lowercase(v)[i] == AsciiLower(c);
    }
  }

  lemma SignedChars(v: string)
    requires IsDigits(Unsigned(v))
    ensures forall c | c in v :: c == '+' || c == '-' || IsDigit(c)
  {
    forall c | c in v ensures c == '+' || c == '-' || IsDigit(c) {
      var i :| 0 <= i < |v| && v[i] == c;
      if Unsigned(v) != v && i > 0 {
        assert Unsigned(v)[i - 1] == c;
      }
    }
  }

  predicate FloatChar(c: char) { c in ['+', '-', '.', 'e', 'E'] || IsDigit(c) }

  lemma MantissaChars(s: string)
    requires IsMantissa(s)
    ensures s != "" && forall c | c in s :: FloatChar(c)
  {
    var dot := IndexOf(s, '.');
    forall c | c in s ensures FloatChar(c) {
      var i :| 0 <= i < |s| && s[i] == c;
      if i < dot {
        assert s[..dot][i] == c;
      } else if i > dot {
        assert s[dot + 1..][i - dot - 1] == c;
      }
    }
  }

  lemma FloatChars(v: string)
    requires ParsesAsFloat(v) && (forall c | c in v :: IsAlphabetic(c) ==> c in ['e', 'E'])
    ensures v != "" && forall c | c in v :: FloatChar(c)
  {
    var t := Unsigned(v);
    var mark := ExponentMark(t);
    assert forall c | c in t :: c in v;
    NotAWord(t);
    MantissaChars(t[..mark]);
    forall c | c in v ensures FloatChar(c) {
      var i :| 0 <= i < |v| && v[i] == c;
      if t == v || i > 0 {
        var k := if t == v then i else i - 1;
        assert t[k] == c;
        if k < mark {
          assert t[..mark][k] == c;
        } else if k > mark {
          var e := t[mark + 1..];
          assert e[k - mark - 1] == c;
          SignedChars(e);
        }
      }
    }
  }

  lemma NotAWord(t: string)
    requires forall c | c in t :: IsAlphabetic(c) ==> c in ['e', 'E']
    ensures Lowercase(t) !in ["inf", "infinity", "nan"]
  {
    var l := Lowercase(t);
    assert t != "" ==> t[0] in t && l[0] == AsciiLower(t[0]);
  }

  // ---------------------------------------------------- the code's test for literals

  /** A number as the two parsers see it: the sign, the mantissa up to the mark, the exponent. */
  lemma NumberParses(n: Number)
    requires NumberOk(n)
    ensures IsSafeBareLiteral(NumberText(n))
  {
    hide Unsigned, IsDecimal, NumberOk, NumberText, ExponentOk, IsMantissa;
    UnsignedNumber(n);
    MantissaOf(n);
    NumberExponent(n);
    DecimalOf(n.whole + n.point + n.frac, n.exp);
    NumberChars(n);
    assert forall c | FloatChar(c) :: IsAlphabetic(c) ==> c in ['e', 'E'];
  }

  lemma UnsignedNumber(n: Number)
    requires NumberOk(n)
    ensures Unsigned(NumberText(n)) == n.whole + n.point + n.frac + n.exp
  {
    NumberStart(n);
    var t := n.whole + n.point + n.frac + n.exp;
    if n.sign == "" {
      assert "" + t == t;
    } else {
      assert (n.sign + t)[0] == n.sign[0] && (n.sign + t)[1..] == t;
    }
  }

  lemma NumberExponent(n: Number)
    requires NumberOk(n)
    ensures n.exp == "" || ExponentOk(n.exp)
  {}

  lemma DecimalOf(m: string, exp: string)
    requires IsMantissa(m) && (forall c | c in m :: c !in ['e', 'E']) && (exp == "" || ExponentOk(exp))
    ensures IsDecimal(m + exp)
  {
    hide IsMantissa;
    var t := m + exp;
    ExponentMarkAt(m, exp);
    assert t[..|m|] == m;
    if exp != "" {
      assert t[|m| + 1..] == exp[1..];
      assert exp[1] in ['+', '-'] ==> exp[1..][1..] == exp[2..];
      SignedExponent(exp);
    }
  }

  lemma SignedExponent(exp: string)
    requires ExponentOk(exp)
    ensures Unsigned(exp[1..]) == if exp[1] in ['+', '-'] then exp[2..] else exp[1..]
    ensures Unsigned(exp[1..]) != "" && IsDigits(Unsigned(exp[1..]))
  {
    assert exp[1..][0] == exp[1] && exp[1..][1..] == exp[2..];
  }

  lemma NumberStart(n: Number)
    requires NumberOk(n)
    ensures var t := n.whole + n.point + n.frac + n.exp; t != "" && (IsDigit(t[0]) || t[0] == '.')
  {
    var t := n.whole + n.point + n.frac + n.exp;
    if n.whole != "" {
      assert t[0] == n.whole[0] && n.whole[0] in n.whole;
    } else {
      assert t[0] == n.point[0];
    }
  }

  lemma {:induction false} ExponentMarkAt(m: string, exp: string)
    requires forall c | c in m :: c !in ['e', 'E']
    requires exp == "" || exp[0] in ['e', 'E']
    ensures ExponentMark(m + exp) == |m|
    decreases |m|
  {
    if m == "" {
      assert m + exp == exp;
    } else {
      assert m[0] in m;
      assert (m + exp)[1..] == m[1..] + exp;
      ExponentMarkAt(m[1..], exp);
    }
  }

  lemma MantissaOf(n: Number)
    requires NumberOk(n)
    ensures IsMantissa(n.whole + n.point + n.frac)
    ensures forall c | c in n.whole + n.point + n.frac :: c !in ['e', 'E']
  {
    var m := n.whole + n.point + n.frac;
    if n.point == "" {
      assert m == n.whole;
      IndexOfAbsent(m, '.');
    } else {
      assert m == n.whole + ['.'] + n.frac;
      IndexOfUnique(n.whole, '.', n.frac);
      assert m[..|n.whole|] == n.whole && m[|n.whole| + 1..] == n.frac;
    }
  }

  lemma NumberChars(n: Number)
    requires NumberOk(n)
    ensures forall c | c in NumberText(n) :: FloatChar(c)
  {
    forall c | c in n.exp ensures FloatChar(c) {
      var i :| 0 <= i < |n.exp| && n.exp[i] == c;
      if i >= 2 {
        assert if n.exp[1] in ['+', '-'] then n.exp[2..][i - 2] == c else n.exp[1..][i - 1] == c;
      } else if i == 1 && n.exp[1] !in ['+', '-'] {
        assert n.exp[1..][0] == c;
      }
    }
  }

  /** Its parts, read off a text that the parsers accept. */
  lemma ParsesToNumber(v: string) returns (n: Number)
    requires IsSafeBareLiteral(v) && !IsBoolean(v)
    ensures NumberOk(n) && NumberText(n) == v
  {
    hide IsDecimal, Unsigned, IsMantissa;
    var t := Unsigned(v);
    var sign := SignOf(v);
    if ParsesAsInteger(v) {
      n := Number(sign, t, "", "", "");
      assert t + "" + "" + "" == t && t + "" == t;
    } else {
      NoWord(v);
      n := DecimalParts(t);
      n := n.(sign := sign);
      assert v == sign + (n.whole + n.point + n.frac + n.exp);
    }
  }

  lemma NoWord(v: string)
    requires ParsesAsFloat(v) && forall c | c in v :: IsAlphabetic(c) ==> c in ['e', 'E']
    ensures IsDecimal(Unsigned(v))
  {
    hide IsDecimal;
    assert forall c | c in Unsigned(v) :: c in v;
    NotAWord(Unsigned(v));
  }

  lemma SignOf(v: string) returns (sign: string)
    ensures sign in ["", "+", "-"] && v == sign + Unsigned(v)
  {
    if Unsigned(v) == v {
      sign := "";
    } else {
      sign := if v[0] == '+' then "+" else "-";
      assert v == sign + v[1..];
    }
  }

  lemma DecimalParts(t: string) returns (n: Number)
    requires IsDecimal(t)
    ensures NumberOk(n)
    ensures n.whole + n.point + n.frac + n.exp == t
  {
    hide IsMantissa;
    var mark := ExponentMark(t);
    var m, exp := t[..mark], t[mark..];
    var p := MantissaParts(m);
    n := Number("", p.whole, p.point, p.frac, exp);
    assert n.whole + n.point + n.frac + n.exp == m + exp;
    assert t == m + exp;
    if exp != "" {
      assert exp[0] == t[mark] && exp[1..] == t[mark + 1..];
      var e := exp[1..];
      assert Unsigned(e) != "" && IsDigits(Unsigned(e));
      assert e[0] == exp[1] && e[1..] == exp[2..];
      assert ExponentOk(exp);
    }
  }

  lemma MantissaParts(m: string) returns (n: Number)
    requires IsMantissa(m)
    ensures NumberOk(n) && n.sign == "" && n.exp == "" && n.whole + n.point + n.frac == m
  {
    var dot := IndexOf(m, '.');
    if dot == |m| {
      n := Number("", m, "", "", "");
      assert m + "" + "" == m && m + "" == m;
    } else {
      n := Number("", m[..dot], ".", m[dot + 1..], "");
      SplitAtIndex(m, '.');
      assert m[..dot] + "." + m[dot + 1..] == m;
      assert |m[..dot] + m[dot + 1..]| == |m| - 1;
    }
  }

  /** The code's test accepts exactly the literals that may stand without quotes. */
  lemma SafeExactly(v: string)
    ensures IsSafeBareLiteral(v) <==> IsBareLiteral(v)
  {
    hide IsSafeBareLiteral, NumberOk, NumberText;
    if IsBoolean(v) {
      BooleanIsSafe(v);
    } else if IsSafeBareLiteral(v) {
      var n := ParsesToNumber(v);
    } else if n :| NumberOk(n) && NumberText(n) == v {
      NumberParses(n);
    }
  }

  lemma BooleanIsSafe(v: string)
    requires IsBoolean(v)
    ensures IsSafeBareLiteral(v)
  {}

  // --------------------------------------------------------------------- round trip

  lemma {:induction false} BareRoundTrip(v: string, rest: string)
    requires forall c | c in v :: !EndsBare(c)
    requires rest != "" && EndsBare(rest[0])
    ensures BareLength(v + rest) == |v|
    decreases |v|
  {
    if v == "" {
      assert v + rest == rest;
    } else {
      assert v[0] in v;
      assert (v + rest)[1..] == v[1..] + rest;
      BareRoundTrip(v[1..], rest);
    }
  }

  lemma ArgRoundTrip(a: CallArg, rest: string)
    requires Built(a) && rest != "" && (rest[0] == ',' || rest[0] == ')')
    ensures LexArg(RenderArg(a) + rest) == Lexed(a, rest)
  {
    var s := RenderArg(a) + rest;
    if a.quoted {
      QuotedRoundTrip(a.value, rest);
      assert s[1..] == Escape(a.value) + (['\''] + rest);
    } else {
      BareChars(a.value);
      SafeExactly(a.value);
      assert s[0] == a.value[0] && a.value[0] in a.value;
      BareRoundTrip(a.value, rest);
      assert s[..|a.value|] == a.value && s[|a.value|..] == rest;
    }
  }

  lemma OneMoreArg(a: CallArg, more: string)
    requires Built(a)
    ensures LexList(RenderArg(a) + (", " + more)) ==
            match LexList(more) { case Lexed(args, end) => Lexed([a] + args, end) case Stuck => Stuck }
  {
    ArgRoundTrip(a, ", " + more);
    assert (", " + more)[2..] == more;
  }

  lemma JoinMore(args: seq<CallArg>, after: string)
    requires |args| > 1
    ensures Join(args) + after == RenderArg(args[0]) + (", " + (Join(args[1..]) + after))
  {
    hide RenderArg;
  }

  lemma {:induction false} ListRoundTrip(args: seq<CallArg>, rest: string)
    requires args != [] && forall a | a in args :: Built(a)
    ensures LexList(Join(args) + ([')'] + rest)) == Lexed(args, rest)
    decreases |args|
  {
    hide LexArg, RenderArg, Built;
    assert args[0] in args;
    var after := [')'] + rest;
    if |args| == 1 {
      ArgRoundTrip(args[0], after);
      assert after[1..] == rest;
      assert args == [args[0]];
    } else {
      ListRoundTrip(args[1..], rest);
      OneMoreArg(args[0], Join(args[1..]) + after);
      JoinMore(args, after);
      assert args == [args[0]] + args[1..];
    }
  }

  /** Identifiers end before a `.` or `(`. */
  predicate NamesOk(namespace: string, name: string) {
    '(' !in namespace && '(' !in name && '.' !in namespace
  }

  lemma NamesSplit(namespace: string, name: string)
    requires '.' !in namespace
    ensures var names, dot := namespace + ['.'] + name, IndexOf(namespace + ['.'] + name, '.');
      dot == |namespace| < |names| && names[..dot] == namespace && names[dot + 1..] == name
  {
    IndexOfUnique(namespace, '.', name);
  }

  /** Reading a rendered call back gives exactly its names and arguments: values, order and quoting. */
  lemma CallRoundTrip(namespace: string, name: string, args: seq<CallArg>)
    requires NamesOk(namespace, name) && forall a | a in args :: Built(a)
    ensures LexCall(RenderCallSql(namespace, name, args)) == Some(Call(namespace, name, args))
  {
    hide LexList, RenderArg, Built;
    var head := "SELECT * FROM " + namespace + "." + name;
    var sql := RenderCallSql(namespace, name, args);
    var s := Join(args) + ")";
    assert sql == head + ['('] + s;
    assert '(' !in "SELECT * FROM " && '(' !in ".";
    IndexOfUnique(head, '(', s);
    assert sql[|head| + 1..] == s && sql[..|head|] == head;
    var names := namespace + ['.'] + name;
    assert head == "SELECT * FROM " + names && sql[|"SELECT * FROM "|..|head|] == names;
    NamesSplit(namespace, name);
    if args == [] {
      assert s == ")";
    } else {
      assert s == Join(args) + ([')'] + "");
      ListRoundTrip(args, "");
      assert args[0] in args;
      RenderNonEmpty(args[0]);
      assert |s| > 1;
    }
  }

  lemma RenderNonEmpty(a: CallArg)
    requires Built(a)
    ensures RenderArg(a) != ""
  {
    if !a.quoted {
      BareChars(a.value);
    }
  }

  /** Distinct calls never render to the same text. */
  lemma RenderInjective(c: Call, c': Call)
    requires NamesOk(c.namespace, c.name) && NamesOk(c'.namespace, c'.name)
    requires (forall a | a in c.args :: Built(a)) && (forall a | a in c'.args :: Built(a))
    requires RenderCallSql(c.namespace, c.name, c.args) == RenderCallSql(c'.namespace, c'.name, c'.args)
    ensures c == c'
  {
    CallRoundTrip(c.namespace, c.name, c.args);
    CallRoundTrip(c'.namespace, c'.name, c'.args);
  }

  /** An argument stands bare exactly if it is a literal of its own and its type is written as a bare one. */
  lemma BareExactly(value: string, typeStr: string)
    ensures NewArg(value, typeStr).value == value
    ensures !NewArg(value, typeStr).quoted <==> IsBareLiteral(value) && IsBareType(typeStr)
  {
    hide IsSafeBareLiteral, IsBareLiteral;
    SafeExactly(value);
    if !TypeIsString(typeStr) {
      var before, after := TrimSplit(typeStr);
    }
    if before, name, after :| AllSpace(before) && AllSpace(after) && typeStr == before + name + after
                              && Lowercase(name) in BARE_TYPES
    {
      TrimmedType(name);
      TrimPadded(before, name, after);
    }
  }

  const BARE_TYPES: set<string> :=
    {"int", "integer", "int32", "int64", "smallint", "bigint", "long",
     "float", "float32", "float64", "double", "real", "decimal", "numeric", "bool", "boolean"}

  /** One of these names in any letter case, with any white space around it. */
  ghost predicate IsBareType(typeStr: string) {
    exists before, name, after ::
      AllSpace(before) && AllSpace(after) && typeStr == before + name + after && Lowercase(name) in BARE_TYPES
  }

  lemma TrimmedType(name: string)
    requires Lowercase(name) in BARE_TYPES
    ensures Trimmed(name)
  {
    var lower := Lowercase(name);
    assert |lower| > 0 && 'a' <= lower[0] <= 'z' && (lower[|lower| - 1] >= 'a' || lower[|lower| - 1] in "246");
  }
}
