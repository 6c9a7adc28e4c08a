/**
  Tokenizing a text with something inserted: what a lexeme reads depends on nothing before it,
  and on little after it.
 */
module Relex {
  import opened Prelude
  import opened Lexer

  // --- nothing before a lexeme matters ---

  /** From `i` on the one text reads as the other does from `j` on. */
  predicate Same(text: string, i: nat, u: string, j: nat) {
    i <= |text| && j <= |u| && text[i..] == u[j..]
  }

  lemma SameLater(text: string, i: nat, u: string, j: nat, k: nat)
    requires Same(text, i, u, j) && i + k <= |text|
    ensures Same(text, i + k, u, j + k) && |text| - i == |u| - j
    ensures k < |text| - i ==> text[i + k] == u[j + k]
  {
    assert text[i + k..] == text[i..][k..] && u[j + k..] == u[j..][k..];
    if k < |text| - i { assert text[i..][k] == u[j..][k]; }
  }

  lemma SamePair(text: string, i: nat, u: string, j: nat)
    requires Same(text, i, u, j)
    ensures forall a, b :: Pair(text, i, a, b) == Pair(u, j, a, b)
  {
    SameLater(text, i, u, j, 0);
    if i + 1 < |text| { SameLater(text, i, u, j, 1); }
  }

  lemma SameStarts(text: string, i: nat, u: string, j: nat, part: string)
    requires Same(text, i, u, j)
    ensures StartsWith(text, i, part) == StartsWith(u, j, part)
  {
    SameLater(text, i, u, j, 0);
    if i + |part| <= |text| {
      assert text[i..i + |part|] == text[i..][..|part|] && u[j..j + |part|] == u[j..][..|part|];
    }
  }

  lemma {:induction false} SameLineEnd(text: string, i: nat, u: string, j: nat)
    requires Same(text, i, u, j)
    ensures LineEnd(u, j) - j == LineEnd(text, i) - i
    decreases |text| - i
  {
    SameLater(text, i, u, j, 0);
    if i < |text| {
      SameLater(text, i, u, j, 1);
      SameLineEnd(text, i + 1, u, j + 1);
    }
  }

  /** Both ends are missing, or they lie equally far on. */
  predicate SameEnd(a: Option<nat>, i: nat, b: Option<nat>, j: nat) {
    if a.None? then b.None? else b.Some? && b.value - j == a.value - i
  }

  lemma {:induction false} SameCommentEnd(text: string, i: nat, u: string, j: nat, depth: nat)
    requires Same(text, i, u, j)
    ensures SameEnd(CommentEnd(text, i, depth), i, CommentEnd(u, j, depth), j)
    decreases |text| - i
  {
    SameLater(text, i, u, j, 0);
    if depth > 0 && i < |text| {
      SamePair(text, i, u, j);
      if Pair(text, i, '/', '*') {
        SameLater(text, i, u, j, 2);
        SameCommentEnd(text, i + 2, u, j + 2, depth + 1);
      } else if Pair(text, i, '*', '/') {
        SameLater(text, i, u, j, 2);
        SameCommentEnd(text, i + 2, u, j + 2, depth - 1);
      } else {
        SameLater(text, i, u, j, 1);
        SameCommentEnd(text, i + 1, u, j + 1, depth);
      }
    }
  }

  lemma {:induction false} SameQuoteEnd(text: string, i: nat, u: string, j: nat, quote: char, escapes: bool)
    requires Same(text, i, u, j)
    ensures SameEnd(QuoteEnd(text, i, quote, escapes), i, QuoteEnd(u, j, quote, escapes), j)
    decreases |text| - i
  {
    SameLater(text, i, u, j, 0);
    if i < |text| {
      SamePair(text, i, u, j);
      if (escapes && text[i] == '\\') || Pair(text, i, quote, quote) {
        if i + 2 <= |text| {
          SameLater(text, i, u, j, 2);
          SameQuoteEnd(text, i + 2, u, j + 2, quote, escapes);
        }
      } else {
        SameLater(text, i, u, j, 1);
        SameQuoteEnd(text, i + 1, u, j + 1, quote, escapes);
      }
    }
  }

  lemma {:induction false} SameTagEnd(text: string, i: nat, u: string, j: nat)
    requires Same(text, i, u, j)
    ensures TagEnd(u, j) - j == TagEnd(text, i) - i
    decreases |text| - i
  {
    SameLater(text, i, u, j, 0);
    if i < |text| {
      SameLater(text, i, u, j, 1);
      SameTagEnd(text, i + 1, u, j + 1);
    }
  }

  lemma SameDollarTag(text: string, i: nat, u: string, j: nat)
    requires Same(text, i, u, j)
    ensures SameEnd(DollarTag(text, i), i, DollarTag(u, j), j)
  {
    SameLater(text, i, u, j, 0);
    if i < |text| && text[i] == '$' {
      SameLater(text, i, u, j, 1);
      if i + 1 < |text| && TagStart(text[i + 1]) {
        SameLater(text, i, u, j, 2);
        SameTagEnd(text, i + 2, u, j + 2);
        SameLater(text, i, u, j, TagEnd(text, i + 2) - i);
      }
    }
  }

  lemma {:induction false} SameFind(text: string, i: nat, u: string, j: nat, part: string)
    requires Same(text, i, u, j)
    ensures SameEnd(Find(text, part, i), i, Find(u, part, j), j)
    decreases |text| - i
  {
    SameLater(text, i, u, j, 0);
    SameStarts(text, i, u, j, part);
    if i < |text| {
      SameLater(text, i, u, j, 1);
      SameFind(text, i + 1, u, j + 1, part);
    }
  }

  lemma {:induction false} SameWordEnd(text: string, i: nat, u: string, j: nat)
    requires Same(text, i, u, j)
    ensures WordEnd(u, j) - j == WordEnd(text, i) - i
    decreases |text| - i
  {
    SameLater(text, i, u, j, 0);
    if i < |text| {
      SameLater(text, i, u, j, 1);
      SameWordEnd(text, i + 1, u, j + 1);
    }
  }

  lemma {:induction false} SameDigitsEnd(text: string, i: nat, u: string, j: nat)
    requires Same(text, i, u, j)
    ensures DigitsEnd(u, j) - j == DigitsEnd(text, i) - i
    decreases |text| - i
  {
    SameLater(text, i, u, j, 0);
    if i < |text| {
      SameLater(text, i, u, j, 1);
      SameDigitsEnd(text, i + 1, u, j + 1);
    }
  }

  lemma SameFractionEnd(text: string, i: nat, u: string, j: nat)
    requires Same(text, i, u, j)
    ensures FractionEnd(u, j) - j == FractionEnd(text, i) - i
  {
    SameLater(text, i, u, j, 0);
    if i + 1 < |text| {
      SameLater(text, i, u, j, 1);
      SameDigitsEnd(text, i + 1, u, j + 1);
    }
  }

  lemma SameExponentEnd(text: string, i: nat, u: string, j: nat)
    requires Same(text, i, u, j)
    ensures ExponentEnd(u, j) - j == ExponentEnd(text, i) - i
  {
    SameLater(text, i, u, j, 0);
    if i + 1 < |text| {
      SameLater(text, i, u, j, 1);
      SameDigitsEnd(text, i + 1, u, j + 1);
      if i + 2 < |text| {
        SameLater(text, i, u, j, 2);
        SameDigitsEnd(text, i + 2, u, j + 2);
      }
    }
  }

  lemma SameDigits(text: string, i: nat, u: string, j: nat) returns (a: nat, c: nat)
    requires Same(text, i, u, j)
    ensures a == DigitsEnd(text, i) && c == DigitsEnd(u, j) && c - j == a - i && Same(text, a, u, c)
  {
    SameDigitsEnd(text, i, u, j);
    a, c := DigitsEnd(text, i), DigitsEnd(u, j);
    SameLater(text, i, u, j, a - i);
  }

  lemma SameFraction(text: string, i: nat, u: string, j: nat) returns (a: nat, c: nat)
    requires Same(text, i, u, j)
    ensures a == FractionEnd(text, i) && c == FractionEnd(u, j) && c - j == a - i && Same(text, a, u, c)
  {
    SameFractionEnd(text, i, u, j);
    a, c := FractionEnd(text, i), FractionEnd(u, j);
    SameLater(text, i, u, j, a - i);
  }

  lemma SameNumberEnd(text: string, i: nat, u: string, j: nat)
    requires Same(text, i, u, j) && i < |text| && IsDigit(text[i]) && j < |u| && IsDigit(u[j])
    ensures NumberEnd(u, j) - j == NumberEnd(text, i) - i
  {
    SameLater(text, i, u, j, 1);
    var a, c := SameDigits(text, i + 1, u, j + 1);
    var b, d := SameFraction(text, a, u, c);
    SameExponentEnd(text, b, u, d);
  }

  /** A lexeme moved to where its text now stands. */
  function MovedLexeme(x: Lexeme, i: nat, j: nat): Lexeme
    requires !x.Open? ==> i <= x.end
  {
    match x
    case Skip(e) => Skip(e - i + j)
    case Tok(kind, e) => Tok(kind, e - i + j)
    case Open => Open
  }

  lemma SamePlain(text: string, i: nat, u: string, j: nat)
    requires Same(text, i, u, j) && i < |text| && j < |u|
    ensures PlainAt(u, j) == MovedLexeme(PlainAt(text, i), i, j)
  {
    SameLater(text, i, u, j, 0);
    SameLater(text, i, u, j, 1);
    SameWordEnd(text, i + 1, u, j + 1);
    if IsDigit(text[i]) { SameNumberEnd(text, i, u, j); }
  }

  lemma SameDollar(text: string, i: nat, u: string, j: nat, m: nat)
    requires Same(text, i, u, j) && i < m <= |text| && m - i + j <= |u|
    ensures DollarAt(u, j, m - i + j) == MovedLexeme(DollarAt(text, i, m), i, j)
  {
    SameLater(text, i, u, j, m - i);
    assert text[i..m] == u[j..m - i + j] by {
      assert text[i..m] == text[i..][..m - i] && u[j..m - i + j] == u[j..][..m - i];
    }
    SameFind(text, m, u, m - i + j, text[i..m]);
  }

  lemma SameSkipped(text: string, i: nat, u: string, j: nat)
    requires Same(text, i, u, j) && i < |text|
    ensures j < |u| && u[j] == text[i]
    ensures Pair(u, j, '-', '-') == Pair(text, i, '-', '-') && Pair(u, j, '/', '*') == Pair(text, i, '/', '*')
    ensures LineEnd(u, j + 1) - j == LineEnd(text, i + 1) - i
    ensures Pair(text, i, '/', '*') ==> CommentAt(u, j) == MovedLexeme(CommentAt(text, i), i, j)
  {
    SameLater(text, i, u, j, 0);
    SameLater(text, i, u, j, 1);
    SamePair(text, i, u, j);
    SameLineEnd(text, i + 1, u, j + 1);
    if Pair(text, i, '/', '*') {
      SameLater(text, i, u, j, 2);
      SameCommentEnd(text, i + 2, u, j + 2, 1);
    }
  }

  lemma SameQuoted(text: string, i: nat, u: string, j: nat, escapes: bool)
    requires Same(text, i, u, j) && i < |text| && j < |u| && u[j] == text[i]
    ensures QuoteAt(u, j, escapes) == MovedLexeme(QuoteAt(text, i, escapes), i, j)
  {
    SameLater(text, i, u, j, 1);
    SameQuoteEnd(text, i + 1, u, j + 1, text[i], text[i] == '\'' && escapes);
  }

  lemma SameTagged(text: string, i: nat, u: string, j: nat)
    requires Same(text, i, u, j) && i < |text| && j < |u|
    ensures DollarTag(u, j).Some? == DollarTag(text, i).Some?
    ensures DollarTag(text, i).Some? ==>
              DollarAt(u, j, DollarTag(u, j).value) == MovedLexeme(DollarAt(text, i, DollarTag(text, i).value), i, j)
  {
    SameDollarTag(text, i, u, j);
    if DollarTag(text, i).Some? {
      SameDollar(text, i, u, j, DollarTag(text, i).value);
    }
  }

  /** What a lexeme is depends only on the text from its start on. */
  lemma SameLexeme(text: string, i: nat, u: string, j: nat, escapes: bool)
    requires Same(text, i, u, j) && i < |text|
    ensures j < |u| && LexemeAt(u, j, escapes) == MovedLexeme(LexemeAt(text, i, escapes), i, j)
  {
    SameSkipped(text, i, u, j);
    SameQuoted(text, i, u, j, escapes);
    SameTagged(text, i, u, j);
    SamePlain(text, i, u, j);
  }

  // --- what follows a boundary does not matter to what ends before it ---

  /** The two texts read alike up to position `n`, and both go on. */
  predicate Agree(text: string, u: string, n: nat) {
    n < |text| && n < |u| && text[..n] == u[..n]
  }

  lemma AgreeAt(text: string, u: string, n: nat, k: nat)
    requires Agree(text, u, n) && k < n
    ensures text[k] == u[k]
  {
    assert text[..n][k] == u[..n][k];
  }

  lemma AgreeSlice(text: string, u: string, n: nat, i: nat, j: nat)
    requires Agree(text, u, n) && i <= j <= n
    ensures text[i..j] == u[i..j]
  {
    forall k | i <= k < j ensures text[k] == u[k] { AgreeAt(text, u, n, k); }
  }

  lemma AgreePair(text: string, u: string, n: nat, i: nat)
    requires Agree(text, u, n) && i + 2 <= n
    ensures forall a, b :: Pair(text, i, a, b) == Pair(u, i, a, b)
  {
    AgreeAt(text, u, n, i);
    AgreeAt(text, u, n, i + 1);
  }

  lemma AgreeStarts(text: string, u: string, n: nat, i: nat, part: string)
    requires Agree(text, u, n) && i + |part| <= n
    ensures StartsWith(text, i, part) == StartsWith(u, i, part)
  {
    AgreeSlice(text, u, n, i, i + |part|);
  }

  lemma {:induction false} AgreeLineEnd(text: string, u: string, n: nat, i: nat)
    requires Agree(text, u, n) && i <= |text| && LineEnd(text, i) <= n
    ensures LineEnd(u, i) == LineEnd(text, i)
    decreases |text| - i
  {
    if i < n {
      AgreeAt(text, u, n, i);
      if text[i] != '\n' && text[i] != '\r' { AgreeLineEnd(text, u, n, i + 1); }
    }
  }

  lemma {:induction false} AgreeCommentEnd(text: string, u: string, n: nat, i: nat, depth: nat)
    requires Agree(text, u, n) && i <= |text| && CommentEnd(text, i, depth).Some?
             && CommentEnd(text, i, depth).value <= n
    ensures CommentEnd(u, i, depth) == CommentEnd(text, i, depth)
    ensures depth > 0 ==> i + 2 <= CommentEnd(text, i, depth).value
    decreases |text| - i
  {
    if depth > 0 {
      if Pair(text, i, '/', '*') {
        AgreeCommentEnd(text, u, n, i + 2, depth + 1);
      } else if Pair(text, i, '*', '/') {
        AgreeCommentEnd(text, u, n, i + 2, depth - 1);
      } else {
        AgreeCommentEnd(text, u, n, i + 1, depth);
      }
      AgreePair(text, u, n, i);
    }
  }

  lemma {:induction false} AgreeQuoteEnd(text: string, u: string, n: nat, i: nat, quote: char, escapes: bool)
    requires Agree(text, u, n) && QuoteEnd(text, i, quote, escapes).Some?
             && QuoteEnd(text, i, quote, escapes).value + 1 < n
    ensures QuoteEnd(u, i, quote, escapes) == QuoteEnd(text, i, quote, escapes)
    decreases |text| - i
  {
    AgreeAt(text, u, n, i);
    AgreePair(text, u, n, i);
    if (escapes && text[i] == '\\') || Pair(text, i, quote, quote) {
      AgreeQuoteEnd(text, u, n, i + 2, quote, escapes);
    } else if text[i] != quote {
      AgreeQuoteEnd(text, u, n, i + 1, quote, escapes);
    }
  }

  lemma {:induction false} AgreeFind(text: string, u: string, n: nat, part: string, i: nat)
    requires Agree(text, u, n) && Find(text, part, i).Some? && Find(text, part, i).value + |part| <= n
    ensures Find(u, part, i) == Find(text, part, i)
    decreases |text| - i
  {
    AgreeStarts(text, u, n, i, part);
    if !StartsWith(text, i, part) { AgreeFind(text, u, n, part, i + 1); }
  }

  /** Runs of one class of characters that stop before `n`, and where a character outside the class stops them. */
  lemma {:induction false} AgreeTagEnd(text: string, u: string, n: nat, i: nat, b: nat)
    requires Agree(text, u, n) && i <= b < n && !TagPart(text[b])
    ensures TagEnd(u, i) == TagEnd(text, i) <= b
    decreases b - i
  {
    AgreeAt(text, u, n, i);
    if i < b && TagPart(text[i]) { AgreeTagEnd(text, u, n, i + 1, b); }
  }

  lemma {:induction false} AgreeWordEnd(text: string, u: string, n: nat, i: nat)
    requires Agree(text, u, n) && i <= |text| && WordEnd(text, i) < n
    ensures WordEnd(u, i) == WordEnd(text, i)
    decreases |text| - i
  {
    AgreeAt(text, u, n, i);
    if WordPart(text[i]) { AgreeWordEnd(text, u, n, i + 1); }
  }

  lemma {:induction false} AgreeDigitsEnd(text: string, u: string, n: nat, i: nat, b: nat)
    requires Agree(text, u, n) && i <= b < n && !IsDigit(text[b])
    ensures DigitsEnd(u, i) == DigitsEnd(text, i) <= b
    decreases b - i
  {
    AgreeAt(text, u, n, i);
    if i < b && IsDigit(text[i]) { AgreeDigitsEnd(text, u, n, i + 1, b); }
  }

  /** A `;`, a whitespace character or a comment starts at `b`, and what there is of it before `n` shows which. */
  predicate Boundary(text: string, b: nat, n: nat) {
    && b < n <= |text|
    && (|| text[b] == ';' || IsSpace(text[b])
        || (b + 1 < n && text[b] == '-' && text[b + 1] == '-') || (b + 1 < n && text[b] == '/' && text[b + 1] == '*'))
  }

  lemma AgreeFractionEnd(text: string, u: string, n: nat, i: nat, b: nat)
    requires Agree(text, u, n) && Boundary(text, b, n) && i <= b
    ensures FractionEnd(u, i) == FractionEnd(text, i) <= b
  {
    AgreeAt(text, u, n, i);
    if i < b {
      AgreeAt(text, u, n, i + 1);
      AgreeDigitsEnd(text, u, n, i + 1, b);
    }
  }

  /** Whether digits follow, and up to where, is the same for both texts. */
  lemma AgreeDigits(text: string, u: string, n: nat, s: nat, b: nat)
    requires Agree(text, u, n) && Boundary(text, b, n) && s <= b
    ensures IsDigit(text[s]) == IsDigit(u[s]) && DigitsEnd(u, s) == DigitsEnd(text, s) <= b
    ensures s == b ==> !IsDigit(text[s])
  {
    AgreeAt(text, u, n, s);
    AgreeAt(text, u, n, b);
    AgreeDigitsEnd(text, u, n, s, b);
  }

  lemma AgreeExponentEnd(text: string, u: string, n: nat, i: nat, b: nat)
    requires Agree(text, u, n) && Boundary(text, b, n) && i <= b
    ensures ExponentEnd(u, i) == ExponentEnd(text, i) <= b
  {
    AgreeAt(text, u, n, i);
    if i < b && (text[i] == 'e' || text[i] == 'E') {
      AgreeAt(text, u, n, i + 1);
      AgreeDigits(text, u, n, i + 1, b);
      if i + 2 <= b {
        AgreeDigits(text, u, n, i + 2, b);
      } else if i + 2 < n {
        AgreeAt(text, u, n, i + 2);
      }
    }
  }

  lemma AgreePlain(text: string, u: string, n: nat, i: nat, b: nat)
    requires Agree(text, u, n) && Boundary(text, b, n) && i < b && PlainAt(text, i).end <= b
    ensures PlainAt(u, i) == PlainAt(text, i)
  {
    AgreeAt(text, u, n, i);
    if WordStart(text[i]) {
      AgreeWordEnd(text, u, n, i + 1);
    } else if IsDigit(text[i]) {
      AgreeDigitsEnd(text, u, n, i + 1, b);
      var a := DigitsEnd(text, i + 1);
      AgreeFractionEnd(text, u, n, a, b);
      AgreeExponentEnd(text, u, n, FractionEnd(text, a), b);
    }
  }

  lemma AgreeDollarTag(text: string, u: string, n: nat, i: nat, b: nat)
    requires Agree(text, u, n) && Boundary(text, b, n) && i < b
    ensures DollarTag(u, i) == DollarTag(text, i)
    ensures DollarTag(text, i).Some? ==> DollarTag(text, i).value <= b
  {
    AgreeAt(text, u, n, i);
    AgreeAt(text, u, n, i + 1);
    if text[i] == '$' && TagStart(text[i + 1]) {
      AgreeTagEnd(text, u, n, i + 2, b);
      AgreeAt(text, u, n, TagEnd(text, i + 2));
    }
  }

  lemma AgreeDollar(text: string, u: string, n: nat, i: nat, m: nat)
    requires Agree(text, u, n) && i < m <= n && DollarAt(text, i, m).Tok? && DollarAt(text, i, m).end <= n
    ensures DollarAt(u, i, m) == DollarAt(text, i, m)
  {
    AgreeSlice(text, u, n, i, m);
    AgreeFind(text, u, n, text[i..m], m);
  }

  lemma AgreeSkipped(text: string, u: string, n: nat, i: nat)
    requires Agree(text, u, n) && i < n
    ensures u[i] == text[i]
    ensures i + 2 <= n ==>
              && Pair(u, i, '-', '-') == Pair(text, i, '-', '-')
              && Pair(u, i, '/', '*') == Pair(text, i, '/', '*')
    ensures LineEnd(text, i + 1) <= n ==> LineEnd(u, i + 1) == LineEnd(text, i + 1)
    ensures i + 2 <= n && CommentAt(text, i).Skip? && CommentAt(text, i).end <= n ==>
            CommentAt(u, i) == CommentAt(text, i)
  {
    AgreeAt(text, u, n, i);
    if i + 2 <= n {
      AgreePair(text, u, n, i);
      if CommentAt(text, i).Skip? && CommentAt(text, i).end <= n { AgreeCommentEnd(text, u, n, i + 2, 1); }
    }
    if LineEnd(text, i + 1) <= n { AgreeLineEnd(text, u, n, i + 1); }
  }

  /** A lexeme that ends by a boundary is the same whatever stands after the boundary's own lexeme. */
  lemma AgreeLexeme(text: string, u: string, n: nat, i: nat, b: nat, escapes: bool)
    requires Agree(text, u, n) && Boundary(text, b, n) && i < b
    requires !LexemeAt(text, i, escapes).Open? && LexemeAt(text, i, escapes).end <= b
    ensures LexemeAt(u, i, escapes) == LexemeAt(text, i, escapes)
  {
    AgreeSkipped(text, u, n, i);
    if IsSpace(text[i]) || Pair(text, i, '-', '-') || Pair(text, i, '/', '*') {
    } else if text[i] == '\'' || text[i] == '"' {
      AgreeQuoteEnd(text, u, n, i + 1, text[i], text[i] == '\'' && escapes);
    } else {
      AgreeDollarTag(text, u, n, i, b);
      if DollarTag(text, i).Some? {
        AgreeDollar(text, u, n, i, DollarTag(text, i).value);
      } else {
        AgreePlain(text, u, n, i, b);
      }
    }
  }

  /** The boundary's own lexeme, when it ends exactly at `n`. */
  lemma AgreeBoundary(text: string, u: string, n: nat, b: nat, escapes: bool)
    requires Agree(text, u, n) && b < n && !LexemeAt(text, b, escapes).Open? && LexemeAt(text, b, escapes).end == n
    requires LexemeAt(text, b, escapes).Skip? || LexemeAt(text, b, escapes).kind == Semi
    ensures Boundary(text, b, n) && LexemeAt(u, b, escapes) == LexemeAt(text, b, escapes)
  {
    AgreeSkipped(text, u, n, b);
    if !IsSpace(text[b]) && !Pair(text, b, '-', '-') && !Pair(text, b, '/', '*') {
      assert text[b] == ';';
    }
  }
}
