/** Quoting identifiers for emitted SQL, and reading them back with the tokenizer. */
module Quoting {
  import opened Prelude
  import opened Lexer
  import opened LexerSpec

  /** The fully reserved keywords of PostgreSQL 16, appendix C. */
  const RESERVED: set<string> := {
    "all", "analyse", "analyze", "and", "any", "array", "as", "asc", "asymmetric", "both", "case", "cast", "check",
    "collate", "column", "constraint", "create", "current_catalog", "current_date", "current_role", "current_time",
    "current_timestamp", "current_user", "default", "deferrable", "desc", "distinct", "do", "else", "end",
    "except", "false", "fetch", "for", "foreign", "from", "grant", "group", "having", "in", "initially",
    "intersect", "into", "lateral", "leading", "limit", "localtime", "localtimestamp", "not", "null", "offset",
    "on", "only", "or", "order", "placing", "primary", "references", "returning", "select", "session_user", "some",
    "symmetric", "system_user", "table", "then", "to", "trailing", "true", "union", "unique", "user", "using",
    "variadic", "when", "where", "window", "with"
  }

  function LowerChar(c: char): char {
    if 'A' <= c <= 'Z' then (c as int + 32) as char else c
  }

  function Lower(s: string): (r: string)
    ensures |r| == |s| && forall i :: 0 <= i < |s| ==> r[i] == LowerChar(s[i])
  {
    if s == [] then [] else [LowerChar(s[0])] + Lower(s[1..])
  }

  predicate IsControl(c: char) { c as int < 32 || c as int == 127 }

  predicate PlainStart(c: char) { 'a' <= c <= 'z' || c == '_' }

  predicate PlainPart(c: char) { PlainStart(c) || IsAsciiDigit(c) }

  predicate IsPlain(name: string) {
    name != [] && PlainStart(name[0]) && forall i :: 0 < i < |name| ==> PlainPart(name[i])
  }

  function Double(s: string): string {
    if s == [] then [] else (if s[0] == '"' then "\"\"" else [s[0]]) + Double(s[1..])
  }

  function Enclose(name: string): string {
    "\"" + Double(name) + "\""
  }

  /** Names an identifier can be emitted for. */
  predicate Quotable(name: string) {
    name != [] && forall i :: 0 <= i < |name| ==> !IsControl(name[i])
  }

  /** The name bare when Postgres reads it back unchanged, in double quotes otherwise; None when it is refused. */
  function QuoteIdent(name: string): Option<string> {
    if !Quotable(name) then None
    else if Lower(name) in RESERVED then Some(Enclose(name))
    else if IsPlain(name) then Some(name)
    else Some(Enclose(name))
  }

  function QuoteQualified(schema: string, name: string): Option<string> {
    var s := QuoteIdent(schema);
    if s.None? then None
    else
      var n := QuoteIdent(name);
      if n.None? then None else Some(s.value + "." + n.value)
  }

  /** Every doubled quote read as one, left to right. */
  function Undouble(s: string): string
    decreases |s|
  {
    if s == [] then []
    else if |s| >= 2 && s[0] == '"' && s[1] == '"' then ['"'] + Undouble(s[2..])
    else [s[0]] + Undouble(s[1..])
  }

  /** The identifier a token spells, folded as Postgres folds it. */
  function Ident(text: string, t: Token): Option<string>
    requires t.start < t.end <= |text|
    requires t.kind == QWord ==> t.start + 2 <= t.end
  {
    match t.kind
    case Word => Some(Lower(text[t.start..t.end]))
    case QWord => Some(Undouble(text[t.start + 1..t.end - 1]))
    case _ => None
  }

  lemma {:induction false} UndoubleDouble(s: string)
    ensures Undouble(Double(s)) == s
  {
    if s != [] {
      UndoubleDouble(s[1..]);
      if s[0] == '"' {
        assert Double(s)[2..] == Double(s[1..]);
      } else {
        assert Double(s)[1..] == Double(s[1..]);
      }
    }
  }

  lemma {:induction false} DoubleIsBody(s: string)
    ensures QuotedBody(Double(s), '"', false)
  {
    if s != [] {
      DoubleIsBody(s[1..]);
      if s[0] == '"' {
        assert Double(s)[2..] == Double(s[1..]);
      } else {
        assert Double(s)[1..] == Double(s[1..]);
      }
    }
  }

  lemma PlainLowers(name: string)
    requires IsPlain(name)
    ensures Lower(name) == name
  {}

  lemma {:induction false} WordEndAt(text: string, i: nat, e: nat)
    requires i <= e <= |text| && forall k :: i <= k < e ==> WordPart(text[k])
    requires e < |text| ==> !WordPart(text[e])
    ensures WordEnd(text, i) == e
    decreases e - i
  {
    if i < e { WordEndAt(text, i + 1, e); }
  }

  /** What may follow an identifier without changing how it reads. */
  predicate Separates(after: string) {
    after != [] ==> !WordPart(after[0]) && after[0] != '"'
  }

  lemma BareReads(before: string, name: string, after: string, escapes: bool)
    requires IsPlain(name) && Separates(after)
    ensures var text := before + name + after;
            LexemeAt(text, |before|, escapes) == Tok(Word, |before| + |name|)
            && Ident(text, Token(Word, |before|, |before| + |name|)) == Some(name)
  {
    var text, i := before + name + after, |before|;
    assert text[i] == name[0];
    forall k | i <= k < i + |name| ensures text[k] == name[k - i] {}
    WordEndAt(text, i + 1, i + |name|);
    PlainLowers(name);
    assert text[i..i + |name|] == name;
  }

  lemma EnclosedReads(before: string, name: string, after: string, escapes: bool)
    requires Separates(after)
    ensures var text, q := before + Enclose(name) + after, Enclose(name);
            LexemeAt(text, |before|, escapes) == Tok(QWord, |before| + |q|)
            && Ident(text, Token(QWord, |before|, |before| + |q|)) == Some(name)
  {
    var text, q, i := before + Enclose(name) + after, Enclose(name), |before|;
    var e := i + |q| - 1;
    assert text[i] == q[0] == '"' && text[e] == q[|q| - 1] == '"';
    assert text[i + 1..e] == Double(name);
    DoubleIsBody(name);
    UndoubleDouble(name);
    assert ClosesAt(text, i + 1, e, '"', false);
    QuoteFinds(text, i + 1, e, '"', false);
  }

  /** One token of this kind starts at `i`, whatever came before it. */
  predicate ReadsAt(text: string, i: nat, kind: Kind, e: nat)
    requires i < |text|
  {
    LexemeAt(text, i, true) == Tok(kind, e) && LexemeAt(text, i, false) == Tok(kind, e)
  }

  /** In any context that separates it, a quoted name reads as one token that spells the name. */
  lemma QuotedReads(text: string, before: string, name: string, q: string, after: string) returns (kind: Kind)
    requires QuoteIdent(name) == Some(q) && Separates(after) && text == before + q + after
    ensures (kind == Word && |q| > 0) || (kind == QWord && |q| >= 2)
    ensures ReadsAt(text, |before|, kind, |before| + |q|)
    ensures Ident(text, Token(kind, |before|, |before| + |q|)) == Some(name)
  {
    if IsPlain(name) && Lower(name) !in RESERVED {
      BareReads(before, name, after, true);
      BareReads(before, name, after, false);
      kind := Word;
    } else {
      EnclosedReads(before, name, after, true);
      EnclosedReads(before, name, after, false);
      kind := QWord;
    }
  }

  /** Quoting and reading undo each other: one token, spelling the name; and only refused names are refused. */
  lemma QuoteRoundTrip(name: string)
    ensures QuoteIdent(name).Some? <==> Quotable(name)
    ensures QuoteIdent(name).Some? ==>
              var q := QuoteIdent(name).value;
              exists kind :: (kind == Word || (kind == QWord && |q| >= 2)) && |q| > 0
                && Tokens(q) == Some([Token(kind, 0, |q|)]) && Ident(q, Token(kind, 0, |q|)) == Some(name)
  {
    if Quotable(name) {
      var q := QuoteIdent(name).value;
      var none: string := [];
      assert none + q + none == q;
      assert !Escaping(q, [], 0);
      var kind := QuotedReads(q, none, name, q, none);
      assert [] + [Token(kind, 0, |q|)] == [Token(kind, 0, |q|)];
      assert Lex(q, |q|, [Token(kind, 0, |q|)]) == Some([Token(kind, 0, |q|)]);
    }
  }

  ghost predicate ReadsAs(text: string, toks: seq<Token>, schema: string, name: string) {
    && |toks| == 3 && toks[1].kind == Dot
    && (forall i :: 0 <= i < 3 ==> toks[i].start < toks[i].end <= |text|)
    && (forall i :: 0 <= i < 3 && toks[i].kind == QWord ==> toks[i].start + 2 <= toks[i].end)
    && Ident(text, toks[0]) == Some(schema) && Ident(text, toks[2]) == Some(name)
  }

  lemma LexToken(text: string, i: nat, toks: seq<Token>, kind: Kind, e: nat)
    requires i < |text| && LexemeAt(text, i, Escaping(text, toks, i)) == Tok(kind, e)
    ensures Lex(text, i, toks) == Lex(text, e, toks + [Token(kind, i, e)])
  {}

  lemma DotReads(text: string, i: nat, escapes: bool)
    requires i < |text| && text[i] == '.'
    ensures LexemeAt(text, i, escapes) == Tok(Dot, i + 1)
  {
  }

  function ThreeTokens(q: string, a: nat, k0: Kind, k2: Kind): seq<Token> {
    [Token(k0, 0, a), Token(Dot, a, a + 1), Token(k2, a + 1, |q|)]
  }

  lemma LexThree(q: string, a: nat, k0: Kind, k2: Kind)
    requires 0 < a && a + 1 < |q| && q[a] == '.'
    requires ReadsAt(q, 0, k0, a) && ReadsAt(q, a + 1, k2, |q|)
    ensures Tokens(q) == Some(ThreeTokens(q, a, k0, k2))
  {
    var one, two := [Token(k0, 0, a)], [Token(k0, 0, a), Token(Dot, a, a + 1)];
    LexToken(q, 0, [], k0, a);
    assert [] + [Token(k0, 0, a)] == one;
    DotReads(q, a, Escaping(q, one, a));
    LexToken(q, a, one, Dot, a + 1);
    assert one + [Token(Dot, a, a + 1)] == two;
    LexToken(q, a + 1, two, k2, |q|);
    assert two + [Token(k2, a + 1, |q|)] == ThreeTokens(q, a, k0, k2);
  }

  lemma DotSeparates(n: string)
    ensures Separates("." + n)
  {
    assert ("." + n)[0] == '.';
  }

  lemma QualifiedParts(s: string, n: string)
    ensures var q := s + "." + n;
            q == [] + s + ("." + n) && q == (s + ".") + n + [] && |q| == |s| + 1 + |n| && q[|s|] == '.'
  {
    assert (s + "." + n)[|s|] == "."[0];
  }

  lemma PartsRead(q: string, schema: string, s: string, name: string, n: string)
    requires QuoteIdent(schema) == Some(s) && QuoteIdent(name) == Some(n) && q == s + "." + n
    ensures Tokens(q).Some? && ReadsAs(q, Tokens(q).value, schema, name)
  {
    QualifiedParts(s, n);
    DotSeparates(n);
    var k0 := QuotedReads(q, [], schema, s, "." + n);
    var k2 := QuotedReads(q, s + ".", name, n, []);
    assert ReadsAt(q, |s| + 1, k2, |q|);
    assert Tokens(q) == Some(ThreeTokens(q, |s|, k0, k2)) by { LexThree(q, |s|, k0, k2); }
    ThreeRead(q, |s|, k0, k2, schema, name);
  }

  /** A qualified name reads as identifier, dot, identifier. */
  lemma QualifiedReads(schema: string, name: string)
    requires QuoteQualified(schema, name).Some?
    ensures var q := QuoteQualified(schema, name).value;
            Tokens(q).Some? && ReadsAs(q, Tokens(q).value, schema, name)
  {
    PartsRead(QuoteQualified(schema, name).value, schema, QuoteIdent(schema).value, name, QuoteIdent(name).value);
  }

  lemma ThreeRead(q: string, a: nat, k0: Kind, k2: Kind, schema: string, name: string)
    requires 0 < a && a + 1 < |q|
    requires (k0 == Word || (k0 == QWord && a >= 2)) && (k2 == Word || (k2 == QWord && a + 3 <= |q|))
    requires Ident(q, Token(k0, 0, a)) == Some(schema) && Ident(q, Token(k2, a + 1, |q|)) == Some(name)
    ensures ReadsAs(q, ThreeTokens(q, a, k0, k2), schema, name)
  {}

  /** So two different pairs never quote alike. */
  lemma QualifiedInjective(schema: string, name: string, schema': string, name': string)
    requires QuoteQualified(schema, name).Some? && QuoteQualified(schema', name') == QuoteQualified(schema, name)
    ensures schema' == schema && name' == name
  {
    QualifiedReads(schema, name);
    QualifiedReads(schema', name');
  }
}
