/**
  The DECLARE sections of a PL/pgSQL body as its tokens suggest them, the edits to the types
  they name, and the probes placed before each declaration.
 */
module Declarations {
  import opened Prelude
  import opened Lexer
  import Quoting

  /** Indices of a declaration's name token and of its closing `;`, or past the last token. */
  datatype Span = Span(first: nat, last: nat)

  /** `closing` is the BEGIN that ends the section. */
  datatype Section = Section(spans: seq<Span>, closing: Option<nat>)

  /** Tokens in order and disjoint, inside the text, a quoted identifier with both its quotes. */
  ghost predicate Ordered(text: string, toks: seq<Token>) {
    && (forall k :: 0 <= k < |toks| ==> TokenFits(text, toks[k]))
    && (forall k, m :: 0 <= k < m < |toks| ==> toks[k].end <= toks[m].start)
  }

  predicate TokenFits(text: string, t: Token) {
    t.start < t.end <= |text| && (t.kind == QWord ==> t.start + 2 <= t.end)
  }

  lemma {:induction false} LexOrdered(text: string, i: nat, toks: seq<Token>)
    requires Ordered(text, toks) && (toks != [] ==> toks[|toks| - 1].end <= i)
    ensures Lex(text, i, toks).Some? ==> Ordered(text, Lex(text, i, toks).value)
    decreases |text| - i
  {
    if i < |text| {
      match LexemeAt(text, i, Escaping(text, toks, i)) {
        case Skip(e) => LexOrdered(text, e, toks);
        case Tok(kind, e) => LexOrdered(text, e, toks + [Token(kind, i, e)]);
        case Open =>
      }
    }
  }

  lemma TokensOrdered(text: string)
    ensures Tokens(text).Some? ==> Ordered(text, Tokens(text).value)
  {
    LexOrdered(text, 0, []);
  }

  /** Where token `k` starts; the end of the text when there is no such token. */
  function StartAt(body: string, toks: seq<Token>, k: nat): nat {
    if k < |toks| then toks[k].start else |body|
  }

  // --- DECLARE sections ---

  const BLOCK_STARTERS: set<string> := {"begin", "then", "else", "loop"}
  const LABEL_END: set<string> := {">"}
  const DECLARE: set<string> := {"declare"}
  const BEGIN: set<string> := {"begin"}

  /** What the token covers is one of these. */
  predicate Spells(body: string, t: Token, texts: set<string>) {
    t.start <= t.end <= |body| && body[t.start..t.end] in texts
  }

  /** An unquoted word, in any case, that is one of these. */
  predicate IsWord(body: string, t: Token, words: set<string>) {
    t.kind == Word && t.start <= t.end <= |body| && Quoting.Lower(body[t.start..t.end]) in words
  }

  /** A block, and so its DECLARE, can start at token `k`. */
  predicate BlockStart(body: string, toks: seq<Token>, k: nat)
    requires k < |toks|
  {
    || k == 0 || toks[k - 1].kind == Semi
    || IsWord(body, toks[k - 1], BLOCK_STARTERS)
    || (k >= 2 && Spells(body, toks[k - 1], LABEL_END) && Spells(body, toks[k - 2], LABEL_END))
  }

  /** The first `;` at or after token `j`. */
  function SemiFrom(toks: seq<Token>, j: nat): (r: nat)
    requires j <= |toks|
    ensures j <= r <= |toks| && (r < |toks| ==> toks[r].kind == Semi)
    ensures forall k :: j <= k < r ==> toks[k].kind != Semi
    decreases |toks| - j
  {
    if j < |toks| && toks[j].kind != Semi then SemiFrom(toks, j + 1) else j
  }

  /** The declarations from token `i` on, and where the section's BEGIN is; past the tokens when there is none. */
  function SpansFrom(body: string, toks: seq<Token>, i: nat): (r: (seq<Span>, nat))
    ensures i <= r.1 && (r.1 < |toks| ==> IsWord(body, toks[r.1], BEGIN))
    decreases |toks| - i
  {
    if i >= |toks| || IsWord(body, toks[i], BEGIN) then ([], i)
    else if IsWord(body, toks[i], DECLARE) then SpansFrom(body, toks, i + 1)
    else
      var j := SemiFrom(toks, i);
      var rest := SpansFrom(body, toks, j + 1);
      ([Span(i, j)] + rest.0, rest.1)
  }

  predicate Opens(body: string, toks: seq<Token>, i: nat)
    requires i < |toks|
  {
    IsWord(body, toks[i], DECLARE) && BlockStart(body, toks, i)
  }

  function SectionsFrom(body: string, toks: seq<Token>, i: nat): seq<Section>
    decreases |toks| - i
  {
    if i >= |toks| then []
    else if !Opens(body, toks, i) then SectionsFrom(body, toks, i + 1)
    else
      var found := SpansFrom(body, toks, i + 1);
      [Section(found.0, if found.1 < |toks| then Some(found.1) else None)] + SectionsFrom(body, toks, found.1)
  }

  method FindSemi(toks: seq<Token>, i: nat) returns (j: nat)
    requires i <= |toks|
    ensures j == SemiFrom(toks, i)
  {
    j := i;
    while j < |toks| && toks[j].kind != Semi
      invariant i <= j <= |toks| && SemiFrom(toks, j) == SemiFrom(toks, i)
    {
      j := j + 1;
    }
  }

  method ReadSpans(body: string, toks: seq<Token>, from: nat) returns (spans: seq<Span>, i: nat)
    ensures spans == SpansFrom(body, toks, from).0 && i == SpansFrom(body, toks, from).1
  {
    spans, i := [], from;
    while i < |toks| && !IsWord(body, toks[i], BEGIN)
      invariant spans + SpansFrom(body, toks, i).0 == SpansFrom(body, toks, from).0
      invariant SpansFrom(body, toks, i).1 == SpansFrom(body, toks, from).1
      decreases |toks| - i
    {
      if IsWord(body, toks[i], DECLARE) {
        i := i + 1;
      } else {
        var j := FindSemi(toks, i);
        spans := spans + [Span(i, j)];
        i := j + 1;
      }
    }
  }

  method ReadSections(body: string, toks: seq<Token>) returns (out: seq<Section>)
    ensures out == SectionsFrom(body, toks, 0)
  {
    out := [];
    var i := 0;
    while i < |toks|
      invariant out + SectionsFrom(body, toks, i) == SectionsFrom(body, toks, 0)
      decreases |toks| - i
    {
      if !Opens(body, toks, i) {
        i := i + 1;
      } else {
        var spans;
        spans, i := ReadSpans(body, toks, i + 1);
        out := out + [Section(spans, if i < |toks| then Some(i) else None)];
      }
    }
  }

  /** Each span runs from a token to the next `;`, in order, without overlap, the last ending before `upto`. */
  ghost predicate SpansFit(toks: seq<Token>, spans: seq<Span>, from: nat, upto: nat) {
    && (forall k :: 0 <= k < |spans| ==>
        from <= spans[k].first < |toks| && spans[k].last == SemiFrom(toks, spans[k].first))
    && (forall k, m :: 0 <= k < m < |spans| ==> spans[k].last < spans[m].first)
    && (forall k :: 0 <= k < |spans| ==> spans[k].last < upto)
  }

  lemma {:induction false} SpansFromFit(body: string, toks: seq<Token>, i: nat)
    ensures SpansFit(toks, SpansFrom(body, toks, i).0, i, SpansFrom(body, toks, i).1)
    decreases |toks| - i
  {
    if i < |toks| && !IsWord(body, toks[i], BEGIN) {
      if IsWord(body, toks[i], DECLARE) {
        SpansFromFit(body, toks, i + 1);
      } else {
        SpansFromFit(body, toks, SemiFrom(toks, i) + 1);
      }
    }
  }

  /** All declarations of all sections, in order. */
  function FlatSpans(ss: seq<Section>): seq<Span> {
    if ss == [] then [] else ss[0].spans + FlatSpans(ss[1..])
  }

  /** The tokens a probe goes before: every declaration's first, and every closing BEGIN. */
  function Marks(ss: seq<Section>): seq<nat> {
    if ss == [] then [] else SectionMarks(ss[0]) + Marks(ss[1..])
  }

  function Firsts(spans: seq<Span>): seq<nat> {
    seq(|spans|, k requires 0 <= k < |spans| => spans[k].first)
  }

  function SectionMarks(s: Section): seq<nat> {
    Firsts(s.spans) + if s.closing.Some? then [s.closing.value] else []
  }

  ghost predicate Increasing(marks: seq<nat>, from: nat, upto: nat) {
    && (forall k :: 0 <= k < |marks| ==> from <= marks[k] < upto)
    && (forall k, m :: 0 <= k < m < |marks| ==> marks[k] < marks[m])
  }

  lemma IncreasingConcat(a: seq<nat>, b: seq<nat>, from: nat, cut: nat, upto: nat)
    requires Increasing(a, from, cut) && Increasing(b, cut, upto) && from <= cut <= upto
    ensures Increasing(a + b, from, upto)
  {}

  lemma SpansConcat(toks: seq<Token>, a: seq<Span>, b: seq<Span>, from: nat, cut: nat, upto: nat)
    requires SpansFit(toks, a, from, cut) && SpansFit(toks, b, cut, upto) && from <= cut <= upto
    ensures SpansFit(toks, a + b, from, upto)
  {}

  lemma SectionMarksFit(toks: seq<Token>, spans: seq<Span>, from: nat, cut: nat)
    requires SpansFit(toks, spans, from, cut) && from <= cut
    ensures cut < |toks| ==> Increasing(SectionMarks(Section(spans, Some(cut))), from, cut + 1)
    ensures cut >= |toks| ==> Increasing(SectionMarks(Section(spans, None)), from, |toks|)
  {
    assert forall k :: 0 <= k < |spans| ==> spans[k].first <= spans[k].last < cut;
  }

  ghost predicate InOrder(toks: seq<Token>, ss: seq<Section>, from: nat) {
    SpansFit(toks, FlatSpans(ss), from, |toks| + 1) && Increasing(Marks(ss), from, |toks|)
  }

  lemma ClosedSectionInOrder(toks: seq<Token>, spans: seq<Span>, cut: nat, rest: seq<Section>, from: nat)
    requires SpansFit(toks, spans, from, cut) && from <= cut < |toks| && InOrder(toks, rest, cut + 1)
    ensures InOrder(toks, [Section(spans, Some(cut))] + rest, from)
  {
    var ss := [Section(spans, Some(cut))] + rest;
    assert ss[1..] == rest;
    SectionMarksFit(toks, spans, from, cut);
    SpansConcat(toks, spans, FlatSpans(rest), from, cut, |toks| + 1);
    IncreasingConcat(SectionMarks(ss[0]), Marks(rest), from, cut + 1, |toks|);
  }

  lemma OpenSectionInOrder(toks: seq<Token>, spans: seq<Span>, cut: nat, from: nat)
    requires SpansFit(toks, spans, from, cut) && from <= |toks| <= cut
    ensures InOrder(toks, [Section(spans, None)], from)
  {
    var ss := [Section(spans, None)];
    assert ss[1..] == [] && FlatSpans(ss) == spans && Marks(ss) == SectionMarks(ss[0]);
    SectionMarksFit(toks, spans, from, cut);
  }

  lemma InOrderFromEarlier(toks: seq<Token>, ss: seq<Section>, from: nat, earlier: nat)
    requires InOrder(toks, ss, from) && earlier <= from
    ensures InOrder(toks, ss, earlier)
  {}

  lemma SectionsStep(body: string, toks: seq<Token>, i: nat)
    requires i < |toks| && Opens(body, toks, i)
    ensures var (spans, cut) := SpansFrom(body, toks, i + 1);
            SectionsFrom(body, toks, i) ==
            if cut < |toks| then [Section(spans, Some(cut))] + SectionsFrom(body, toks, cut + 1)
                else [Section(spans, None)]
  {}

  lemma SectionInOrder(body: string, toks: seq<Token>, i: nat)
    requires i < |toks| && Opens(body, toks, i)
    requires var cut := SpansFrom(body, toks, i + 1).1;
             cut < |toks| ==> InOrder(toks, SectionsFrom(body, toks, cut + 1), cut + 1)
    ensures InOrder(toks, SectionsFrom(body, toks, i), i + 1)
  {
    var found := SpansFrom(body, toks, i + 1);
    SectionsStep(body, toks, i);
    SpansFromFit(body, toks, i + 1);
    if found.1 < |toks| {
      ClosedSectionInOrder(toks, found.0, found.1, SectionsFrom(body, toks, found.1 + 1), i + 1);
    } else {
      OpenSectionInOrder(toks, found.0, found.1, i + 1);
    }
  }

  /** Declarations come in order without overlap, and so do the places probes go. */
  lemma {:induction false} SectionsInOrder(body: string, toks: seq<Token>, i: nat)
    requires i <= |toks|
    ensures InOrder(toks, SectionsFrom(body, toks, i), i)
    decreases |toks| - i
  {
    if i < |toks| {
      if Opens(body, toks, i) {
        var cut := SpansFrom(body, toks, i + 1).1;
        if cut < |toks| { SectionsInOrder(body, toks, cut + 1); }
        SectionInOrder(body, toks, i);
        InOrderFromEarlier(toks, SectionsFrom(body, toks, i), i + 1, i);
      } else {
        SectionsInOrder(body, toks, i + 1);
        InOrderFromEarlier(toks, SectionsFrom(body, toks, i + 1), i + 1, i);
      }
    }
  }
}
