/**
  What the tokenizer guarantees, against grammars of its own: comments as nested trees, quoted
  text as a body whose quotes are doubled, and a text as tokens separated by complete trivia.
 */
module LexerSpec {
  import opened Prelude
  import opened Lexer

  // --- nested comments as trees ---

  datatype Item = Ch(c: char) | Nested(items: seq<Item>)

  function RenderItems(items: seq<Item>): string
    decreases items, 0
  {
    if items == [] then []
    else RenderItem(items[0]) + RenderItems(items[1..])
  }

  function RenderItem(item: Item): string
    decreases item, 1
  {
    match item
    case Ch(c) => [c]
    case Nested(items) => "/*" + RenderItems(items) + "*/"
  }

  /** A plain character never forms a delimiter with the character after it. */
  predicate ItemsWellFormed(items: seq<Item>)
    decreases items, 0
  {
    items == [] ||
    (&& ItemWellFormed(items[0]) && ItemsWellFormed(items[1..])
     && (items[0].Ch? ==>
           var next := RenderItems(items[1..]) + "*/";
           !IsDelimiter(items[0].c, next[0])))
  }

  predicate ItemWellFormed(item: Item)
    decreases item, 1
  {
    item.Nested? ==> ItemsWellFormed(item.items)
  }

  /** A complete block comment. */
  ghost predicate IsBlockComment(s: string) {
    exists items :: ItemsWellFormed(items) && s == RenderItem(Nested(items))
  }

  lemma StartsWithConcat(text: string, j: nat, a: string, b: string)
    requires j <= |text|
    ensures StartsWith(text, j, a + b) <==> StartsWith(text, j, a) && StartsWith(text, j + |a|, b)
  {
    if j + |a| + |b| <= |text| {
      assert text[j..j + |a + b|] == text[j..j + |a|] + text[j + |a|..j + |a| + |b|];
      if text[j..j + |a + b|] == a + b {
        assert (a + b)[..|a|] == a && (a + b)[|a|..] == b;
        assert text[j..j + |a|] == text[j..j + |a + b|][..|a|];
      }
    }
  }

  lemma PairStarts(text: string, j: nat, a: char, b: char)
    ensures Pair(text, j, a, b) <==> StartsWith(text, j, [a, b])
  {
    if j + 2 <= |text| { assert text[j..j + 2] == [text[j], text[j + 1]]; }
  }

  predicate IsDelimiter(a: char, b: char) {
    (a == '/' && b == '*') || (a == '*' && b == '/')
  }

  lemma Regroup3(a: string, b: string, c: string)
    ensures a + b + c == a + (b + c)
  {}

  /** The scan passes over well-formed items and leaves one level at the delimiter after them. */
  lemma {:induction false} ScanItems(text: string, j: nat, depth: nat, items: seq<Item>)
    requires j <= |text| && depth > 0 && ItemsWellFormed(items)
    requires StartsWith(text, j, RenderItems(items) + "*/")
    ensures j + |RenderItems(items)| + 2 <= |text|
    ensures CommentEnd(text, j, depth) == CommentEnd(text, j + |RenderItems(items)| + 2, depth - 1)
    decreases items, 0
  {
    if items == [] {
      assert RenderItems(items) + "*/" == ['*', '/'];
      PairStarts(text, j, '*', '/');
    } else {
      var head, rest := RenderItem(items[0]), RenderItems(items[1..]) + "*/";
      Regroup3(head, RenderItems(items[1..]), "*/");
      ScanItem(text, j, depth, items[0], rest);
      ScanItems(text, j + |head|, depth, items[1..]);
    }
  }

  lemma {:induction false} ScanItem(text: string, j: nat, depth: nat, item: Item, rest: string)
    requires j <= |text| && depth > 0 && ItemWellFormed(item) && rest != []
    requires item.Ch? ==> !IsDelimiter(item.c, rest[0])
    requires StartsWith(text, j, RenderItem(item) + rest)
    ensures j + |RenderItem(item)| <= |text| && StartsWith(text, j + |RenderItem(item)|, rest)
    ensures CommentEnd(text, j, depth) == CommentEnd(text, j + |RenderItem(item)|, depth)
    decreases item, 1
  {
    StartsWithConcat(text, j, RenderItem(item), rest);
    match item {
      case Ch(c) =>
      case Nested(inner) =>
        var body := RenderItems(inner) + "*/";
        assert RenderItem(item) == "/*" + body;
        StartsWithConcat(text, j, "/*", body);
        PairStarts(text, j, '/', '*');
        assert "/*" == ['/', '*'];
        ScanItems(text, j + 2, depth + 1, inner);
    }
  }

  /** `depth` runs of items, each closed by its delimiter. */
  function RenderLevels(levels: seq<seq<Item>>): string {
    if levels == [] then [] else RenderItems(levels[0]) + "*/" + RenderLevels(levels[1..])
  }

  ghost predicate LevelsWellFormed(levels: seq<seq<Item>>) {
    forall i :: 0 <= i < |levels| ==> ItemsWellFormed(levels[i])
  }

  function PutChar(c: char, levels: seq<seq<Item>>): seq<seq<Item>>
    requires levels != []
  {
    [[Ch(c)] + levels[0]] + levels[1..]
  }

  function PutNested(levels: seq<seq<Item>>): seq<seq<Item>>
    requires |levels| > 1
  {
    [[Nested(levels[0])] + levels[1]] + levels[2..]
  }

  lemma PutCharRenders(c: char, levels: seq<seq<Item>>)
    requires levels != [] && LevelsWellFormed(levels) && RenderLevels(levels) != []
    requires !IsDelimiter(c, RenderLevels(levels)[0])
    ensures RenderLevels(PutChar(c, levels)) == [c] + RenderLevels(levels) && LevelsWellFormed(PutChar(c, levels))
  {
    var first := [Ch(c)] + levels[0];
    assert first[1..] == levels[0] && PutChar(c, levels)[1..] == levels[1..];
    assert RenderItems(first) == [c] + RenderItems(levels[0]);
    assert RenderLevels(levels)[0] == (RenderItems(levels[0]) + "*/")[0];
    assert ItemsWellFormed(first);
  }

  lemma Regroup(a: string, b: string, c: string)
    ensures ("/*" + a + "*/" + b) + "*/" + c == "/*" + (a + "*/" + (b + "*/" + c))
  {}

  lemma PutNestedRenders(levels: seq<seq<Item>>)
    requires |levels| > 1 && LevelsWellFormed(levels)
    ensures RenderLevels(PutNested(levels)) == "/*" + RenderLevels(levels) && LevelsWellFormed(PutNested(levels))
  {
    var first := [Nested(levels[0])] + levels[1];
    assert first[1..] == levels[1];
    assert PutNested(levels)[1..] == levels[2..] == levels[1..][1..];
    assert RenderItem(first[0]) == "/*" + RenderItems(levels[0]) + "*/";
    Regroup(RenderItems(levels[0]), RenderItems(levels[1]), RenderLevels(levels[2..]));
    assert ItemsWellFormed(first);
  }

  /** Whatever the scan closes can be read back as comments. */
  lemma {:induction false} ScanReads(text: string, j: nat, depth: nat) returns (levels: seq<seq<Item>>)
    requires j <= |text| && CommentEnd(text, j, depth).Some?
    ensures |levels| == depth && LevelsWellFormed(levels)
    ensures text[j..CommentEnd(text, j, depth).value] == RenderLevels(levels)
    decreases |text| - j
  {
    var e := CommentEnd(text, j, depth).value;
    if depth == 0 {
      levels := [];
    } else if Pair(text, j, '/', '*') {
      var inner := ScanReads(text, j + 2, depth + 1);
      levels := PutNested(inner);
      PutNestedRenders(inner);
    } else if Pair(text, j, '*', '/') {
      var rest := ScanReads(text, j + 2, depth - 1);
      levels := [[]] + rest;
    } else {
      var rest := ScanReads(text, j + 1, depth);
      assert |RenderLevels(rest)| >= 2;
      levels := PutChar(text[j], rest);
      PutCharRenders(text[j], rest);
    }
  }

  lemma CommentsOpen(text: string, a: nat, b: nat)
    requires a <= b <= |text| && IsBlockComment(text[a..b])
    ensures Pair(text, a, '/', '*') && CommentEnd(text, a + 2, 1) == Some(b)
  {
    var items :| ItemsWellFormed(items) && text[a..b] == RenderItem(Nested(items));
    var body := RenderItems(items) + "*/";
    assert text[a..b] == "/*" + body;
    assert text[a] == text[a..b][0] && text[a + 1] == text[a..b][1];
    assert text[a + 2..a + 2 + |body|] == text[a..b][2..];
    ScanItems(text, a + 2, 1, items);
  }

  /** A comment opened at `i` is closed exactly when a complete nested comment starts there, at its end. */
  lemma CommentExact(text: string, i: nat)
    requires Pair(text, i, '/', '*')
    ensures var r := CommentEnd(text, i + 2, 1);
            && (r.Some? ==> IsBlockComment(text[i..r.value]))
            && (r.None? ==> forall e :: i <= e <= |text| ==> !IsBlockComment(text[i..e]))
  {
    var r := CommentEnd(text, i + 2, 1);
    if r.Some? {
      var levels := ScanReads(text, i + 2, 1);
      assert levels[1..] == [] && levels == [levels[0]];
      assert text[i..r.value] == text[i..i + 2] + text[i + 2..r.value];
      assert text[i..r.value] == RenderItem(Nested(levels[0]));
    } else {
      forall e | i <= e <= |text| ensures !IsBlockComment(text[i..e]) {
        if IsBlockComment(text[i..e]) { CommentsOpen(text, i, e); }
      }
    }
  }

  // --- quoted text ---

  /** A body between quotes: every quote in it is doubled, and in an E-string a backslash escapes what follows. */
  predicate QuotedBody(s: string, quote: char, escapes: bool)
    decreases |s|
  {
    if s == [] then true
    else if escapes && s[0] == '\\' then |s| >= 2 && QuotedBody(s[2..], quote, escapes)
    else if s[0] == quote then |s| >= 2 && s[1] == quote && QuotedBody(s[2..], quote, escapes)
    else QuotedBody(s[1..], quote, escapes)
  }

  /** The body ends at `e`: there a quote stands that is not the first of a doubled pair. */
  predicate ClosesAt(text: string, j: nat, e: nat, quote: char, escapes: bool) {
    && j <= e < |text| && text[e] == quote && (e + 1 < |text| ==> text[e + 1] != quote)
    && QuotedBody(text[j..e], quote, escapes)
  }

  ghost predicate StaysOpen(text: string, j: nat, quote: char, escapes: bool) {
    forall e: nat :: !ClosesAt(text, j, e, quote, escapes)
  }

  lemma {:induction false} QuoteCloses(text: string, j: nat, quote: char, escapes: bool)
    requires escapes ==> quote != '\\'
    ensures var r := QuoteEnd(text, j, quote, escapes); r.Some? ==> ClosesAt(text, j, r.value, quote, escapes)
    decreases |text| - j
  {
    var r := QuoteEnd(text, j, quote, escapes);
    if j < |text| && r.Some? {
      var e := r.value;
      if (escapes && text[j] == '\\') || Pair(text, j, quote, quote) {
        QuoteCloses(text, j + 2, quote, escapes);
        assert text[j..e][2..] == text[j + 2..e] && text[j..e][0] == text[j] && text[j..e][1] == text[j + 1];
        if Pair(text, j, quote, quote) { assert text[j..j + 2][1] == quote && text[j..j + 2][0] == quote; }
      } else if text[j] == quote {
        assert j + 2 <= |text| ==> text[j..j + 2] == [quote, text[j + 1]];
      } else {
        QuoteCloses(text, j + 1, quote, escapes);
        assert text[j..e][1..] == text[j + 1..e];
      }
    }
  }

  lemma {:induction false} QuoteFinds(text: string, j: nat, e: nat, quote: char, escapes: bool)
    requires (escapes ==> quote != '\\') && ClosesAt(text, j, e, quote, escapes)
    ensures QuoteEnd(text, j, quote, escapes) == Some(e)
    decreases e - j
  {
    var s := text[j..e];
    if j == e {
      assert !Pair(text, j, quote, quote) by {
        if j + 2 <= |text| { assert text[j..j + 2][1] == text[j + 1]; }
      }
    } else if (escapes && s[0] == '\\') || s[0] == quote {
      assert s[2..] == text[j + 2..e];
      if !(escapes && s[0] == '\\') { assert s[1] == text[j + 1]; assert text[j..j + 2] == [quote, quote]; }
      QuoteFinds(text, j + 2, e, quote, escapes);
    } else {
      assert s[1..] == text[j + 1..e];
      assert text[j] != quote;
      assert !Pair(text, j, quote, quote) by {
        if j + 2 <= |text| { assert text[j..j + 2][0] == text[j]; }
      }
      QuoteFinds(text, j + 1, e, quote, escapes);
    }
  }

  /** A quote is closed exactly where a body ends at an undoubled quote, and left open when there is no such place. */
  lemma QuoteExact(text: string, j: nat, quote: char, escapes: bool)
    requires escapes ==> quote != '\\'
    ensures forall e: nat :: QuoteEnd(text, j, quote, escapes) == Some(e) <==> ClosesAt(text, j, e, quote, escapes)
  {
    QuoteCloses(text, j, quote, escapes);
    forall e: nat | ClosesAt(text, j, e, quote, escapes) ensures QuoteEnd(text, j, quote, escapes) == Some(e) {
      QuoteFinds(text, j, e, quote, escapes);
    }
  }

  lemma {:induction false} FindExact(text: string, part: string, j: nat)
    ensures var r := Find(text, part, j);
            && (r.None? <==> forall e :: j <= e ==> !StartsWith(text, e, part))
            && (r.Some? ==> forall e :: j <= e < r.value ==> !StartsWith(text, e, part))
    decreases |text| - j
  {
    if j + |part| <= |text| && !StartsWith(text, j, part) {
      FindExact(text, part, j + 1);
    }
  }

  // --- the text as a whole ---

  lemma {:induction false} LineEndExact(text: string, i: nat)
    requires i <= |text|
    ensures var r := LineEnd(text, i);
            && (forall k :: i <= k < r - 1 ==> text[k] != '\n' && text[k] != '\r')
            && (r == |text| || (r > i && (text[r - 1] == '\n' || text[r - 1] == '\r')))
    decreases |text| - i
  {
    if i < |text| && text[i] != '\n' && text[i] != '\r' { LineEndExact(text, i + 1); }
  }

  /** One skipped piece: a whitespace character, a line comment up to its line's end, or a complete block comment. */
  ghost predicate IsTrivia(text: string, a: nat, b: nat) {
    && a < b <= |text|
    && (|| (b == a + 1 && IsSpace(text[a]))
        || (&& Pair(text, a, '-', '-')
            && (forall k :: a <= k < b - 1 ==> text[k] != '\n' && text[k] != '\r')
            && (b == |text| || text[b - 1] == '\n' || text[b - 1] == '\r'))
        || IsBlockComment(text[a..b]))
  }

  // --- tokens, by a grammar of their own ---

  /** All of `text[a..b]` belongs to a word, and the character after it does not. */
  predicate IsWordRun(text: string, a: nat, b: nat) {
    && a <= b <= |text| && (forall k :: a <= k < b ==> WordPart(text[k]))
    && (b < |text| ==> !WordPart(text[b]))
  }

  predicate IsDigits(text: string, a: nat, b: nat) {
    a < b <= |text| && forall k :: a <= k < b ==> IsDigit(text[k])
  }

  /** Nothing, or a point and digits. */
  predicate IsFraction(text: string, d: nat, f: nat) {
    d == f <= |text| || (d < |text| && text[d] == '.' && IsDigits(text, d + 1, f))
  }

  /** Nothing, or an `e`, a sign or none, and digits. */
  predicate IsExponent(text: string, f: nat, e: nat) {
    f == e <= |text|
    || (&& f + 1 < |text| && (text[f] == 'e' || text[f] == 'E')
        && (IsDigits(text, f + 1, e) || ((text[f + 1] == '+' || text[f + 1] == '-') && IsDigits(text, f + 2, e))))
  }

  /** Digits up to `d`, a fraction up to `f`, an exponent up to `e`. */
  predicate IsNumber(text: string, a: nat, d: nat, f: nat, e: nat) {
    IsDigits(text, a, d) && IsFraction(text, d, f) && IsExponent(text, f, e)
  }

  /** The longest number that starts at `a` ends at `e`. */
  ghost predicate IsLongestNumber(text: string, a: nat, e: nat) {
    && (exists d: nat, f: nat :: IsNumber(text, a, d, f, e))
    && forall d: nat, f: nat, other: nat :: IsNumber(text, a, d, f, other) ==> other <= e
  }

  /** `$`, a name or nothing, `$`. */
  predicate IsTag(text: string, a: nat, m: nat) {
    && a + 2 <= m <= |text| && text[a] == '$' && text[m - 1] == '$'
    && (a + 1 < m - 1 ==> TagStart(text[a + 1]))
    && forall k :: a + 1 < k < m - 1 ==> TagPart(text[k])
  }

  /** A dollar quote: the first occurrence of its tag after its tag ends at `e`. */
  ghost predicate IsDollarQuote(text: string, a: nat, m: nat, e: nat) {
    && IsTag(text, a, m) && m + (m - a) <= e <= |text| && text[e - (m - a)..e] == text[a..m]
    && forall k :: m <= k < e - (m - a) ==> !StartsWith(text, k, text[a..m])
  }

  predicate OpensTrivia(text: string, i: nat)
    requires i < |text|
  {
    IsSpace(text[i]) || Pair(text, i, '-', '-') || Pair(text, i, '/', '*')
  }

  /** What a token is; `escapes` when an E-string's letter stands just before it. */
  ghost predicate IsToken(text: string, t: Token, escapes: bool) {
    && t.start < t.end <= |text| && !OpensTrivia(text, t.start)
    && var c := text[t.start];
       match t.kind
       case Word => WordStart(c) && IsWordRun(text, t.start + 1, t.end)
       case QWord => c == '"' && ClosesAt(text, t.start + 1, t.end - 1, '"', false)
       case Dot => c == '.' && t.end == t.start + 1
       case Semi => c == ';' && t.end == t.start + 1
       case Other =>
         || (c == '\'' && ClosesAt(text, t.start + 1, t.end - 1, '\'', escapes))
         || (exists m: nat :: IsDollarQuote(text, t.start, m, t.end))
         || (!WordStart(c) && IsLongestNumber(text, t.start, t.end))
         || (&& t.end == t.start + 1 && !WordStart(c) && !IsDigit(c) && c != '\'' && c != '"' && c != '.' && c != ';'
             && forall m: nat :: !IsTag(text, t.start, m))
  }

  /** A string, quoted identifier, dollar quote or comment that starts at `i` and is never closed. */
  ghost predicate LeftOpen(text: string, i: nat, escapes: bool) {
    && i < |text|
    && (|| (Pair(text, i, '/', '*') && forall e :: i <= e <= |text| ==> !IsBlockComment(text[i..e]))
        || ((text[i] == '\'' || text[i] == '"') && StaysOpen(text, i + 1, text[i], text[i] == '\'' && escapes))
        || (exists m: nat :: IsTag(text, i, m) && forall e :: m <= e ==> !StartsWith(text, e, text[i..m])))
  }

  lemma {:induction false} WordEndExact(text: string, a: nat)
    requires a <= |text|
    ensures IsWordRun(text, a, WordEnd(text, a))
    ensures forall b: nat :: IsWordRun(text, a, b) ==> b == WordEnd(text, a)
    decreases |text| - a
  {
    if a < |text| && WordPart(text[a]) {
      WordEndExact(text, a + 1);
      forall b: nat | IsWordRun(text, a, b) ensures b == WordEnd(text, a) {
        assert IsWordRun(text, a + 1, b);
      }
    }
  }

  lemma {:induction false} TagEndRuns(text: string, a: nat)
    requires a <= |text|
    ensures var r := TagEnd(text, a);
            (forall k :: a <= k < r ==> TagPart(text[k])) && (r < |text| ==> !TagPart(text[r]))
    decreases |text| - a
  {
    if a < |text| && TagPart(text[a]) { TagEndRuns(text, a + 1); }
  }

  lemma DollarTagExact(text: string, i: nat)
    requires i < |text|
    ensures forall m: nat :: DollarTag(text, i) == Some(m) <==> IsTag(text, i, m)
  {
    if i + 1 < |text| && TagStart(text[i + 1]) { TagEndRuns(text, i + 2); }
  }

  lemma {:induction false} DigitsEndRuns(text: string, a: nat)
    requires a <= |text|
    ensures var r := DigitsEnd(text, a);
            (forall k :: a <= k < r ==> IsDigit(text[k])) && (r < |text| ==> !IsDigit(text[r]))
    decreases |text| - a
  {
    if a < |text| && IsDigit(text[a]) { DigitsEndRuns(text, a + 1); }
  }

  lemma FractionEndExact(text: string, d: nat)
    requires d <= |text|
    ensures IsFraction(text, d, FractionEnd(text, d))
    ensures forall f: nat :: IsFraction(text, d, f) ==> f <= FractionEnd(text, d)
    ensures forall f: nat :: IsFraction(text, d, f) && f < FractionEnd(text, d) ==> text[f] == '.' || IsDigit(text[f])
  {
    if d + 1 < |text| { DigitsEndRuns(text, d + 1); }
  }

  lemma ExponentEndExact(text: string, f: nat)
    requires f <= |text|
    ensures IsExponent(text, f, ExponentEnd(text, f))
    ensures forall e: nat :: IsExponent(text, f, e) ==> e <= ExponentEnd(text, f)
  {
    if f + 1 < |text| { DigitsEndRuns(text, f + 1); }
    if f + 2 < |text| { DigitsEndRuns(text, f + 2); }
  }

  lemma NumberEndExact(text: string, a: nat)
    requires a < |text| && IsDigit(text[a])
    ensures IsLongestNumber(text, a, NumberEnd(text, a))
  {
    var d := DigitsEnd(text, a + 1);
    var f := FractionEnd(text, d);
    DigitsEndRuns(text, a + 1);
    FractionEndExact(text, d);
    ExponentEndExact(text, f);
    assert IsNumber(text, a, d, f, NumberEnd(text, a));
    forall d': nat, f': nat, e: nat | IsNumber(text, a, d', f', e) ensures e <= NumberEnd(text, a) {
      NumberNoLonger(text, a, d', f', e);
    }
  }

  lemma NumberNoLonger(text: string, a: nat, d: nat, f: nat, e: nat)
    requires a < |text| && IsDigit(text[a]) && IsNumber(text, a, d, f, e)
    ensures e <= NumberEnd(text, a)
  {
    var digits := DigitsEnd(text, a + 1);
    var fraction := FractionEnd(text, digits);
    DigitsEndRuns(text, a + 1);
    FractionEndExact(text, digits);
    ExponentEndExact(text, fraction);
    assert d <= digits && (d < digits ==> IsDigit(text[d]) && f == d && e == d);
    if d == digits && f < fraction { assert e == f; }
  }

  /** A run of trivia from `a` to `b`, cut at `cuts`. */
  ghost predicate IsGapCut(text: string, a: nat, b: nat, cuts: seq<nat>) {
    && |cuts| > 0 && cuts[0] == a && cuts[|cuts| - 1] == b
    && forall i :: 0 < i < |cuts| ==> IsTrivia(text, cuts[i - 1], cuts[i])
  }

  ghost predicate IsGap(text: string, a: nat, b: nat) {
    exists cuts :: IsGapCut(text, a, b, cuts)
  }

  /**
    The text up to `upto` read as `toks`: each is a token by the grammar, in order and disjoint,
    with only trivia before, between and after them.
   */
  ghost predicate Lexed(text: string, toks: seq<Token>, upto: nat) {
    && upto <= |text|
    && (forall i :: 0 <= i < |toks| ==> TokenStands(text, toks, i))
    && IsGap(text, EndBefore(toks, |toks|), upto)
  }

  /** The `i`th is a token, and between it and the one before lies only trivia. */
  ghost predicate TokenStands(text: string, toks: seq<Token>, i: nat)
    requires i < |toks|
  {
    && IsToken(text, toks[i], Escaping(text, toks[..i], toks[i].start))
    && IsGap(text, EndBefore(toks, i), toks[i].start)
  }

  /** Where the token before the `i`th ends. */
  function EndBefore(toks: seq<Token>, i: nat): nat
    requires i <= |toks|
  {
    if i == 0 then 0 else toks[i - 1].end
  }

  lemma EmptyGap(text: string, a: nat)
    ensures IsGap(text, a, a)
  {
    assert IsGapCut(text, a, a, [a]);
  }

  lemma GapGrows(text: string, a: nat, b: nat, c: nat)
    requires IsGap(text, a, b) && IsTrivia(text, b, c)
    ensures IsGap(text, a, c)
  {
    var cuts :| IsGapCut(text, a, b, cuts);
    var more := cuts + [c];
    forall i | 0 < i < |more| ensures IsTrivia(text, more[i - 1], more[i]) {
      if i < |cuts| { assert more[i - 1] == cuts[i - 1] && more[i] == cuts[i]; }
    }
    assert IsGapCut(text, a, c, more);
  }

  /** A position is skipped over, to where, exactly as the trivia there says. */
  lemma SkipExact(text: string, i: nat, escapes: bool, e: nat)
    requires i < |text|
    ensures LexemeAt(text, i, escapes) == Skip(e) <==> IsTrivia(text, i, e)
  {
    if IsTrivia(text, i, e) && IsBlockComment(text[i..e]) { CommentsOpen(text, i, e); }
    if IsSpace(text[i]) {
    } else if Pair(text, i, '-', '-') {
      LineEndExact(text, i + 1);
    } else if Pair(text, i, '/', '*') {
      CommentExact(text, i);
    }
  }

  lemma DollarExact(text: string, i: nat, m: nat, e: nat)
    requires i < |text| && DollarTag(text, i) == Some(m)
    ensures DollarAt(text, i, m) == Tok(Other, e) <==> IsDollarQuote(text, i, m, e)
  {
    DollarTagExact(text, i);
    FindExact(text, text[i..m], m);
    if IsDollarQuote(text, i, m, e) {
      assert StartsWith(text, e - (m - i), text[i..m]);
    }
  }

  /** A token is read at a position exactly when one of the grammar's stands there. */
  lemma TokenExact(text: string, i: nat, escapes: bool, kind: Kind, e: nat)
    requires i < |text|
    ensures LexemeAt(text, i, escapes) == Tok(kind, e) <==> IsToken(text, Token(kind, i, e), escapes)
  {
    var c := text[i];
    DollarTagExact(text, i);
    if OpensTrivia(text, i) {
    } else if c == '\'' || c == '"' {
      QuoteExact(text, i + 1, c, c == '\'' && escapes);
    } else if DollarTag(text, i).Some? {
      DollarExact(text, i, DollarTag(text, i).value, e);
    } else if WordStart(c) {
      WordEndExact(text, i + 1);
    } else if IsDigit(c) {
      NumberEndExact(text, i);
    }
  }

  /** Reading fails at a position exactly when what starts there is never closed. */
  lemma OpenExact(text: string, i: nat, escapes: bool)
    requires i < |text|
    ensures LexemeAt(text, i, escapes).Open? <==> LeftOpen(text, i, escapes)
  {
    var c := text[i];
    DollarTagExact(text, i);
    if Pair(text, i, '/', '*') {
      CommentExact(text, i);
    } else if c == '\'' || c == '"' {
      QuoteExact(text, i + 1, c, c == '\'' && escapes);
    } else if DollarTag(text, i).Some? {
      FindExact(text, text[i..DollarTag(text, i).value], DollarTag(text, i).value);
    }
  }

  lemma LexedMore(text: string, toks: seq<Token>, i: nat, t: Token)
    requires Lexed(text, toks, i) && t.start == i && IsToken(text, t, Escaping(text, toks, i))
    ensures Lexed(text, toks + [t], t.end)
  {
    EmptyGap(text, t.end);
    var more := toks + [t];
    forall k | 0 <= k < |more| ensures TokenStands(text, more, k) {
      if k < |toks| { assert TokenStands(text, toks, k) && more[..k] == toks[..k]; } else { assert more[..k] == toks; }
    }
  }

  /** What the loop has read is read as the grammar says, whether it goes on to the end or stops. */
  lemma {:induction false} LexReads(text: string, i: nat, toks: seq<Token>) returns (stop: nat, done: seq<Token>)
    requires Lexed(text, toks, i)
    ensures Lexed(text, done, stop)
    ensures Lex(text, i, toks).Some? ==> stop == |text| && done == Lex(text, i, toks).value
    ensures Lex(text, i, toks).None? ==> LeftOpen(text, stop, Escaping(text, done, stop))
    decreases |text| - i
  {
    stop, done := i, toks;
    if i < |text| {
      match LexemeAt(text, i, Escaping(text, toks, i)) {
        case Skip(e) =>
          SkipExact(text, i, Escaping(text, toks, i), e);
          GapGrows(text, EndBefore(toks, |toks|), i, e);
          stop, done := LexReads(text, e, toks);
        case Tok(kind, e) =>
          TokenExact(text, i, Escaping(text, toks, i), kind, e);
          LexedMore(text, toks, i, Token(kind, i, e));
          stop, done := LexReads(text, e, toks + [Token(kind, i, e)]);
        case Open =>
          OpenExact(text, i, Escaping(text, toks, i));
      }
    }
  }

  lemma {:induction false} GapPasses(text: string, a: nat, b: nat, cuts: seq<nat>, toks: seq<Token>)
    requires IsGapCut(text, a, b, cuts)
    ensures Lex(text, a, toks) == Lex(text, b, toks)
    decreases |cuts|
  {
    if |cuts| > 1 {
      SkipExact(text, a, Escaping(text, toks, a), cuts[1]);
      var rest := cuts[1..];
      assert forall i :: 0 < i < |rest| ==> rest[i - 1] == cuts[i] && rest[i] == cuts[i + 1];
      GapPasses(text, cuts[1], b, rest, toks);
    }
  }

  lemma LexedFewer(text: string, toks: seq<Token>, upto: nat)
    requires Lexed(text, toks, upto) && toks != []
    ensures var k := |toks| - 1;
            Lexed(text, toks[..k], toks[k].start) && IsToken(text, toks[k], Escaping(text, toks[..k], toks[k].start))
  {
    var before := toks[..|toks| - 1];
    assert TokenStands(text, toks, |toks| - 1);
    forall i | 0 <= i < |before| ensures TokenStands(text, before, i) {
      assert TokenStands(text, toks, i) && before[..i] == toks[..i];
    }
  }

  lemma TokenPasses(text: string, before: seq<Token>, t: Token)
    requires IsToken(text, t, Escaping(text, before, t.start))
    ensures Lex(text, t.start, before) == Lex(text, t.end, before + [t])
  {
    TokenExact(text, t.start, Escaping(text, before, t.start), t.kind, t.end);
  }

  lemma LastPasses(text: string, toks: seq<Token>, upto: nat)
    requires Lexed(text, toks, upto) && toks != []
    ensures var k := |toks| - 1; Lex(text, toks[k].start, toks[..k]) == Lex(text, upto, toks)
  {
    var k := |toks| - 1;
    var cuts :| IsGapCut(text, toks[k].end, upto, cuts);
    LexedFewer(text, toks, upto);
    TokenPasses(text, toks[..k], toks[k]);
    assert toks == toks[..k] + [toks[k]];
    GapPasses(text, toks[k].end, upto, cuts, toks);
  }

  /** However a prefix can be read by the grammar, that is how the loop reads it. */
  lemma {:induction false} LexFollows(text: string, toks: seq<Token>, upto: nat)
    requires Lexed(text, toks, upto)
    ensures Lex(text, 0, []) == Lex(text, upto, toks)
    decreases |toks|
  {
    if toks == [] {
      var cuts :| IsGapCut(text, 0, upto, cuts);
      GapPasses(text, 0, upto, cuts, []);
    } else {
      LastPasses(text, toks, upto);
      LexedFewer(text, toks, upto);
      LexFollows(text, toks[..|toks| - 1], toks[|toks| - 1].start);
    }
  }

  /**
    A text has one reading at most, and the tokenizer finds it. It fails exactly when some prefix
    reads up to a string, quoted identifier, dollar quote or comment that is left open.
   */
  lemma TokensExact(text: string)
    ensures forall toks :: Tokens(text) == Some(toks) <==> Lexed(text, toks, |text|)
    ensures Tokens(text).None? <==>
            exists stop: nat, done :: Lexed(text, done, stop) && LeftOpen(text, stop, Escaping(text, done, stop))
  {
    EmptyGap(text, 0);
    var end, read := LexReads(text, 0, []);
    forall toks | Lexed(text, toks, |text|) ensures Tokens(text) == Some(toks) {
      LexFollows(text, toks, |text|);
    }
    forall stop: nat, done | Lexed(text, done, stop) && LeftOpen(text, stop, Escaping(text, done, stop))
        ensures Tokens(text).None? {
      LexFollows(text, done, stop);
      OpenExact(text, stop, Escaping(text, done, stop));
    }
  }
}
