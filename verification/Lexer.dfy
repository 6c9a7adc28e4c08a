/**
  The PL/pgSQL tokenizer: spans of words, quoted identifiers, dots, semicolons and everything
  else, with whitespace and comments skipped and string literals kept whole (PostgreSQL 16
  documentation, section 4.1 "Lexical Structure").
 */
module Lexer {
  import opened Prelude

  datatype Kind = Word | QWord | Dot | Semi | Other

  datatype Token = Token(kind: Kind, start: nat, end: nat)

  predicate IsSpace(c: char) {
    c == ' ' || c == '\t' || c == '\n' || c == '\r' || c == '\U{000C}' || c == '\U{000B}'
  }

  predicate IsAsciiDigit(c: char) { '0' <= c <= '9' }

  /** The zeros of the decimal digits past ASCII, as of Unicode 15; each starts a run of ten. */
  const ZEROS: seq<int> := [
    0x0660, 0x06F0, 0x07C0, 0x0966, 0x09E6, 0x0A66, 0x0AE6, 0x0B66, 0x0BE6, 0x0C66, 0x0CE6, 0x0D66, 0x0DE6,
    0x0E50, 0x0ED0, 0x0F20, 0x1040, 0x1090, 0x17E0, 0x1810, 0x1946, 0x19D0, 0x1A80, 0x1A90, 0x1B50, 0x1BB0,
    0x1C40, 0x1C50, 0xA620, 0xA8D0, 0xA900, 0xA9D0, 0xA9F0, 0xAA50, 0xABF0, 0xFF10, 0x104A0, 0x10D30, 0x11066,
    0x110F0, 0x11136, 0x111D0, 0x112F0, 0x11450, 0x114D0, 0x11650, 0x116C0, 0x11730, 0x118E0, 0x11950, 0x11C50,
    0x11D50, 0x11DA0, 0x11F50, 0x16A60, 0x16AC0, 0x16B50, 0x1D7CE, 0x1D7D8, 0x1D7E2, 0x1D7EC, 0x1D7F6, 0x1E140,
    0x1E2F0, 0x1E4F0, 0x1E950, 0x1FBF0
  ]

  predicate InRun(code: int, zeros: seq<int>) {
    zeros != [] && (zeros[0] <= code < zeros[0] + 10 || InRun(code, zeros[1..]))
  }

  /** A decimal digit of any script, as a pattern's `\d` takes it. */
  predicate IsDigit(c: char) {
    IsAsciiDigit(c) || (c as int > 127 && InRun(c as int, ZEROS))
  }

  predicate IsAlpha(c: char) { 'a' <= c <= 'z' || 'A' <= c <= 'Z' }

  /** A letter, an underscore, or anything that is not ASCII. */
  predicate WordStart(c: char) { IsAlpha(c) || c == '_' || c as int > 127 }

  predicate WordPart(c: char) { WordStart(c) || IsAsciiDigit(c) || c == '$' }

  predicate TagStart(c: char) { IsAlpha(c) || c == '_' || c as int >= 128 }

  predicate TagPart(c: char) { TagStart(c) || IsAsciiDigit(c) }

  predicate StartsWith(text: string, i: nat, part: string) {
    i + |part| <= |text| && text[i..i + |part|] == part
  }

  /** Two particular characters, one after the other. */
  predicate Pair(text: string, i: nat, a: char, b: char) {
    i + 1 < |text| && text[i] == a && text[i + 1] == b
  }

  // --- where each lexeme ends; every scan is a recursion the loops below follow ---

  /** First line end at or after `i`, exclusive; the end of the text when there is none. */
  function LineEnd(text: string, i: nat): (r: nat)
    requires i <= |text|
    ensures i <= r <= |text|
    decreases |text| - i
  {
    if i == |text| then i
    else if text[i] == '\n' || text[i] == '\r' then i + 1
    else LineEnd(text, i + 1)
  }

  /** Past the `*` `/` that closes `depth` nested comments, or None when one is left open. */
  function CommentEnd(text: string, j: nat, depth: nat): (r: Option<nat>)
    requires j <= |text|
    ensures r.Some? ==> j <= r.value <= |text|
    decreases |text| - j
  {
    if depth == 0 then Some(j)
    else if j >= |text| then None
    else if Pair(text, j, '/', '*') then CommentEnd(text, j + 2, depth + 1)
    else if Pair(text, j, '*', '/') then CommentEnd(text, j + 2, depth - 1)
    else CommentEnd(text, j + 1, depth)
  }

  /** The closing quote at or after `j`, or None when it is left open. */
  function QuoteEnd(text: string, j: nat, quote: char, escapes: bool): (r: Option<nat>)
    ensures r.Some? ==> j <= r.value < |text| && text[r.value] == quote
    decreases |text| - j
  {
    if j >= |text| then None
    else if escapes && text[j] == '\\' then QuoteEnd(text, j + 2, quote, escapes)
    else if Pair(text, j, quote, quote) then QuoteEnd(text, j + 2, quote, escapes)
    else if text[j] == quote then Some(j)
    else QuoteEnd(text, j + 1, quote, escapes)
  }

  function TagEnd(text: string, i: nat): (r: nat)
    requires i <= |text|
    ensures i <= r <= |text|
    decreases |text| - i
  {
    if i < |text| && TagPart(text[i]) then TagEnd(text, i + 1) else i
  }

  /** The end of the dollar-quote tag that starts at `i`, both dollars included. */
  function DollarTag(text: string, i: nat): (r: Option<nat>)
    requires i <= |text|
    ensures r.Some? ==> i + 2 <= r.value <= |text|
  {
    if i >= |text| || text[i] != '$' then None
    else
      var j := if i + 1 < |text| && TagStart(text[i + 1]) then TagEnd(text, i + 2) else i + 1;
      if j < |text| && text[j] == '$' then Some(j + 1) else None
  }

  /** First occurrence of `part` at or after `j`. */
  function Find(text: string, part: string, j: nat): (r: Option<nat>)
    ensures r.Some? ==> j <= r.value && r.value + |part| <= |text| && StartsWith(text, r.value, part)
    decreases |text| - j
  {
    if j + |part| > |text| then None
    else if StartsWith(text, j, part) then Some(j)
    else Find(text, part, j + 1)
  }

  function WordEnd(text: string, i: nat): (r: nat)
    requires i <= |text|
    ensures i <= r <= |text|
    decreases |text| - i
  {
    if i < |text| && WordPart(text[i]) then WordEnd(text, i + 1) else i
  }

  function DigitsEnd(text: string, i: nat): (r: nat)
    requires i <= |text|
    ensures i <= r <= |text|
    decreases |text| - i
  {
    if i < |text| && IsDigit(text[i]) then DigitsEnd(text, i + 1) else i
  }

  function FractionEnd(text: string, i: nat): (r: nat)
    requires i <= |text|
    ensures i <= r <= |text|
  {
    if i + 1 < |text| && text[i] == '.' && IsDigit(text[i + 1]) then DigitsEnd(text, i + 1) else i
  }

  function ExponentEnd(text: string, i: nat): (r: nat)
    requires i <= |text|
    ensures i <= r <= |text|
  {
    if i < |text| && (text[i] == 'e' || text[i] == 'E') then
      var s := if i + 1 < |text| && (text[i + 1] == '+' || text[i + 1] == '-') then i + 2 else i + 1;
      if s < |text| && IsDigit(text[s]) then DigitsEnd(text, s) else i
    else i
  }

  /** Digits, an optional fraction, an optional exponent. */
  function NumberEnd(text: string, i: nat): (r: nat)
    requires i < |text| && IsDigit(text[i])
    ensures i < r <= |text|
  {
    ExponentEnd(text, FractionEnd(text, DigitsEnd(text, i + 1)))
  }

  // --- one lexeme ---

  /** What starts at a position: something skipped, a token, or a construct left open. */
  datatype Lexeme = Skip(end: nat) | Tok(kind: Kind, end: nat) | Open

  function CommentAt(text: string, i: nat): (r: Lexeme)
    requires i + 2 <= |text|
    ensures r.Skip? ==> i < r.end <= |text|
    ensures !r.Tok?
  {
    var e := CommentEnd(text, i + 2, 1);
    if e.Some? then Skip(e.value) else Open
  }

  function QuoteAt(text: string, i: nat, escapes: bool): (r: Lexeme)
    requires i < |text|
    ensures r.Tok? ==> i < r.end <= |text|
    ensures !r.Skip?
  {
    var c := text[i];
    var e := QuoteEnd(text, i + 1, c, c == '\'' && escapes);
    if e.Some? then Tok(if c == '"' then QWord else Other, e.value + 1) else Open
  }

  /** A dollar quote whose opening tag ends at `m`. */
  function DollarAt(text: string, i: nat, m: nat): (r: Lexeme)
    requires i < m <= |text|
    ensures r.Tok? ==> i < r.end <= |text|
    ensures !r.Skip?
  {
    var e := Find(text, text[i..m], m);
    if e.Some? then Tok(Other, e.value + (m - i)) else Open
  }

  function PlainAt(text: string, i: nat): (r: Lexeme)
    requires i < |text|
    ensures r.Tok? && i < r.end <= |text|
  {
    var c := text[i];
    if WordStart(c) then Tok(Word, WordEnd(text, i + 1))
    else if IsDigit(c) then Tok(Other, NumberEnd(text, i))
    else Tok(if c == '.' then Dot else if c == ';' then Semi else Other, i + 1)
  }

  /** `escapes` when the token just before, adjacent, is the letter of an E-string. */
  function LexemeAt(text: string, i: nat, escapes: bool): (r: Lexeme)
    requires i < |text|
    ensures !r.Open? ==> i < r.end <= |text|
  {
    if IsSpace(text[i]) then Skip(i + 1)
    else if Pair(text, i, '-', '-') then Skip(LineEnd(text, i + 1))
    else if Pair(text, i, '/', '*') then CommentAt(text, i)
    else if text[i] == '\'' || text[i] == '"' then QuoteAt(text, i, escapes)
    else if DollarTag(text, i).Some? then DollarAt(text, i, DollarTag(text, i).value)
    else PlainAt(text, i)
  }

  /** The token is an `e` or `E` that touches position `i`. */
  predicate IsEscapeLetter(text: string, t: Token, i: nat) {
    t.kind == Word && t.end == i && t.start < i <= |text| && (text[t.start..i] == "e" || text[t.start..i] == "E")
  }

  /** Whether the last token is the letter of an E-string that starts at `i`. */
  predicate Escaping(text: string, toks: seq<Token>, i: nat) {
    |toks| > 0 && IsEscapeLetter(text, toks[|toks| - 1], i)
  }

  function Lex(text: string, i: nat, toks: seq<Token>): Option<seq<Token>>
    decreases |text| - i
  {
    if i >= |text| then Some(toks)
    else match LexemeAt(text, i, Escaping(text, toks, i))
      case Skip(e) => Lex(text, e, toks)
      case Tok(kind, e) => Lex(text, e, toks + [Token(kind, i, e)])
      case Open => None
  }

  /** The tokens of a text; None when a string, quoted identifier, dollar quote or comment is left open. */
  function Tokens(text: string): Option<seq<Token>> {
    Lex(text, 0, [])
  }

  // --- the loops ---

  method FindCommentEnd(text: string, i: nat) returns (r: Option<nat>)
    requires i + 2 <= |text|
    ensures r == CommentEnd(text, i + 2, 1)
  {
    var depth, j := 1, i + 2;
    while j < |text| && depth > 0
      invariant j <= |text| && CommentEnd(text, j, depth) == CommentEnd(text, i + 2, 1)
    {
      if Pair(text, j, '/', '*') {
        depth, j := depth + 1, j + 2;
      } else if Pair(text, j, '*', '/') {
        depth, j := depth - 1, j + 2;
      } else {
        j := j + 1;
      }
    }
    r := if depth > 0 then None else Some(j);
  }

  method FindQuoteEnd(text: string, i: nat, quote: char, escapes: bool) returns (r: Option<nat>)
    ensures r == QuoteEnd(text, i, quote, escapes)
  {
    var j := i;
    while j < |text|
      invariant QuoteEnd(text, j, quote, escapes) == QuoteEnd(text, i, quote, escapes)
    {
      if escapes && text[j] == '\\' {
        j := j + 2;
      } else if text[j] == quote && Pair(text, j, quote, quote) {
        j := j + 2;
      } else if text[j] == quote {
        return Some(j);
      } else {
        j := j + 1;
      }
    }
    r := None;
  }

  method FindWordEnd(text: string, i: nat) returns (j: nat)
    requires i <= |text|
    ensures j == WordEnd(text, i)
  {
    j := i;
    while j < |text| && WordPart(text[j])
      invariant i <= j <= |text| && WordEnd(text, j) == WordEnd(text, i)
    {
      j := j + 1;
    }
  }

  method Scan(text: string, i: nat, escapes: bool) returns (r: Lexeme)
    requires i < |text|
    ensures r == LexemeAt(text, i, escapes)
  {
    var c := text[i];
    if IsSpace(c) {
      r := Skip(i + 1);
    } else if Pair(text, i, '-', '-') {
      r := Skip(LineEnd(text, i + 1));
    } else if Pair(text, i, '/', '*') {
      var e := FindCommentEnd(text, i);
      r := if e.None? then Open else Skip(e.value);
    } else if c == '\'' || c == '"' {
      var e := FindQuoteEnd(text, i + 1, c, c == '\'' && escapes);
      r := if e.None? then Open else Tok(if c == '"' then QWord else Other, e.value + 1);
    } else if DollarTag(text, i).Some? {
      var m := DollarTag(text, i).value;
      var e := Find(text, text[i..m], m);
      r := if e.None? then Open else Tok(Other, e.value + (m - i));
    } else if WordStart(c) {
      var j := FindWordEnd(text, i + 1);
      r := Tok(Word, j);
    } else if IsDigit(c) {
      r := Tok(Other, NumberEnd(text, i));
    } else {
      r := Tok(if c == '.' then Dot else if c == ';' then Semi else Other, i + 1);
    }
  }

  /** The tokenizer's index loop. */
  method Tokenize(text: string) returns (r: Option<seq<Token>>)
    ensures r == Tokens(text)
  {
    var out: seq<Token>, i := [], 0;
    while i < |text|
      invariant i <= |text| && Lex(text, i, out) == Tokens(text)
    {
      var lexeme := Scan(text, i, Escaping(text, out, i));
      match lexeme {
        case Skip(e) =>
          i := e;
        case Tok(kind, e) =>
          out, i := out + [Token(kind, i, e)], e;
        case Open =>
          return None;
      }
    }
    r := Some(out);
  }
}
