/** The edits to the types a PL/pgSQL body's declarations name. */
module TypeEdits {
  import opened Prelude
  import opened Lexer
  import opened Declarations
  import opened Splice
  import Quoting

  predicate IsName(t: Token) {
    t.kind == Word || t.kind == QWord
  }

  const TYPE_ENDS: set<string> := {"default", "not", "collate"}
  const CONSTANT: set<string> := {"constant"}
  const ASSIGNS: set<string> := {":", "="}
  const PERCENT: set<string> := {"%"}
  const NOT_RETYPED: set<string> := {"record", "refcursor"}
  const EVERY_VARIABLE := "*"

  /** A token that ends the type: the start of a default, NOT NULL or COLLATE. */
  predicate EndsType(body: string, t: Token) {
    Spells(body, t, ASSIGNS) || IsWord(body, t, TYPE_ENDS)
  }

  function TypeStart(body: string, toks: seq<Token>, s: Span): (j: nat)
    requires s.first < s.last <= |toks|
    ensures s.first < j <= s.last
  {
    if s.first + 1 < s.last && IsWord(body, toks[s.first + 1], CONSTANT) then s.first + 2 else s.first + 1
  }

  function TypeStop(body: string, toks: seq<Token>, j: nat, end: nat): (r: nat)
    requires j <= end <= |toks|
    ensures j <= r <= end && (r < end ==> EndsType(body, toks[r]))
    ensures forall k :: j <= k < r ==> !EndsType(body, toks[k])
    decreases end - j
  {
    if j < end && !EndsType(body, toks[j]) then TypeStop(body, toks, j + 1, end) else j
  }

  /** Names with single dots between them, from `j` up to `upto`. */
  predicate Alternates(toks: seq<Token>, j: nat, upto: nat)
    requires upto <= |toks|
  {
    forall k :: j <= k < upto ==> if (k - j) % 2 == 0 then IsName(toks[k]) else toks[k].kind == Dot
  }

  /** A schema stands before the type's name. */
  predicate StartsQualified(toks: seq<Token>, j: nat, stop: nat)
    requires stop <= |toks|
  {
    j + 2 < stop && IsName(toks[j]) && toks[j + 1].kind == Dot && IsName(toks[j + 2])
  }

  /** The last name of the longest dotted chain of names from `k`. */
  function ChainEnd(toks: seq<Token>, k: nat, stop: nat): (r: nat)
    requires k < stop <= |toks|
    ensures k <= r < stop && (r - k) % 2 == 0
    ensures r > k ==> Alternates(toks, k, r + 1)
    ensures !StartsQualified(toks, r, stop)
    decreases stop - k
  {
    if StartsQualified(toks, k, stop) then ChainEnd(toks, k + 2, stop) else k
  }

  /** A possibly qualified name and nothing else. */
  predicate PlainType(toks: seq<Token>, j: nat, stop: nat)
    requires j <= stop <= |toks|
  {
    (stop - j) % 2 == 1 && Alternates(toks, j, stop)
  }

  function NameOf(body: string, t: Token): Option<string>
    requires TokenFits(body, t)
  {
    Quoting.Ident(body, t)
  }

  predicate Retyped(name: Option<string>, scalars: set<string>, keep: set<string>) {
    name.Some? && ((EVERY_VARIABLE in scalars && name.value !in keep) || name.value in scalars)
  }

  /** The tokens an edit covers: the whole type when it becomes `text`, else its qualifiers. */
  datatype Target = Target(from: nat, upto: nat, retype: bool)

  predicate SpanValid(toks: seq<Token>, s: Span) {
    s.first < |toks| && s.last == SemiFrom(toks, s.first)
  }

  function TargetOf(body: string, toks: seq<Token>, s: Span, scalars: set<string>,
                    keep: set<string>): (r: Option<Target>)
    requires Ordered(body, toks)
    ensures r.Some? ==>
              && SpanValid(toks, s) && s.first < r.value.from < r.value.upto <= s.last
              && (r.value.retype || r.value.upto < s.last)
  {
    if !SpanValid(toks, s) || !IsName(toks[s.first]) then None
    else
      var j := TypeStart(body, toks, s);
      var stop := TypeStop(body, toks, j, s.last);
      if stop == j || TakenFromColumn(body, toks, j, stop) then None
      else if PlainType(toks, j, stop) && Retyped(NameOf(body, toks[s.first]), scalars, keep)
              && !(NameOf(body, toks[stop - 1]).Some? && NameOf(body, toks[stop - 1]).value in NOT_RETYPED) then
        Some(Target(j, stop, true))
      else
        var k := ChainEnd(toks, j, stop);
        if k > j then Some(Target(j, k, false)) else None
  }

  /** The type holds `%TYPE` or `%ROWTYPE`. */
  predicate TakenFromColumn(body: string, toks: seq<Token>, j: nat, stop: nat)
    requires j <= stop <= |toks|
  {
    exists k :: j <= k < stop && Spells(body, toks[k], PERCENT)
  }

  /**
    An edit covers names and the dots between them and nothing else, never a default expression
    or a type taken from a column; it takes the whole type or leaves exactly its last name; and
    no qualified type is left as it is.
   */
  lemma TargetCovers(body: string, toks: seq<Token>, s: Span, scalars: set<string>, keep: set<string>)
    requires Ordered(body, toks) && SpanValid(toks, s) && s.first < s.last
    ensures var j := TypeStart(body, toks, s);
            var stop := TypeStop(body, toks, j, s.last);
            match TargetOf(body, toks, s, scalars, keep)
            case Some(t) =>
              && t.from == j && t.upto <= stop && !TakenFromColumn(body, toks, j, stop) && IsName(toks[s.first])
              && Alternates(toks, j, t.upto)
              && (t.retype ==> t.upto == stop)
              && (!t.retype ==> (t.upto - j) % 2 == 0 && IsName(toks[t.upto]) && !StartsQualified(toks, t.upto, stop))
            case None => IsName(toks[s.first]) && StartsQualified(toks, j, stop) ==>
                TakenFromColumn(body, toks, j, stop)
  {}

  /** A retyped type ends with its last token; qualifiers end where the name they qualify starts. */
  function EditAt(body: string, toks: seq<Token>, t: Target): (e: Edit)
    requires Ordered(body, toks) && t.from < t.upto <= |toks| && (t.retype || t.upto < |toks|)
  {
    if t.retype then Edit(toks[t.from].start, toks[t.upto - 1].end, "text")
    else Edit(toks[t.from].start, toks[t.upto].start, "")
  }

  /** The edit one declaration calls for, if any. */
  function EditFor(body: string, toks: seq<Token>, s: Span, scalars: set<string>, keep: set<string>): seq<Edit>
    requires Ordered(body, toks)
  {
    var t := TargetOf(body, toks, s, scalars, keep);
    if t.Some? then [EditAt(body, toks, t.value)] else []
  }

  function Editor(body: string, toks: seq<Token>, scalars: set<string>, keep: set<string>): Span -> seq<Edit>
    requires Ordered(body, toks)
  {
    (s: Span) => EditFor(body, toks, s, scalars, keep)
  }

  /** An edit lies after its declaration's name and before its `;`. */
  lemma EditInside(body: string, toks: seq<Token>, s: Span, t: Target)
    requires Ordered(body, toks) && s.first < t.from < t.upto <= s.last <= |toks| && (t.retype || t.upto < s.last)
    ensures var e := EditAt(body, toks, t);
            && toks[s.first].end <= e.start < e.end <= |body|
            && (s.last < |toks| ==> e.end <= toks[s.last].start)
  {
    assert TokenFits(body, toks[t.from]);
    if t.retype { assert TokenFits(body, toks[t.upto - 1]); } else { assert TokenFits(body, toks[t.upto]); }
  }

  lemma StartAscends(body: string, toks: seq<Token>, a: nat, b: nat)
    requires Ordered(body, toks) && a <= b
    ensures StartAt(body, toks, a) <= StartAt(body, toks, b) <= |body|
  {
    if a < |toks| { assert TokenFits(body, toks[a]); }
    if b < |toks| { assert TokenFits(body, toks[b]); }
    if a < b < |toks| { assert toks[a].end <= toks[b].start; }
  }

  /** One declaration's edit reaches no further than its `;`. */
  lemma EditReaches(body: string, toks: seq<Token>, s: Span, scalars: set<string>, keep: set<string>)
    requires Ordered(body, toks) && SpanValid(toks, s)
    ensures forall e :: e in EditFor(body, toks, s, scalars, keep) ==>
              StartAt(body, toks, s.first) < e.start < e.end <= StartAt(body, toks, s.last)
    ensures |EditFor(body, toks, s, scalars, keep)| <= 1
  {
    var t := TargetOf(body, toks, s, scalars, keep);
    assert TokenFits(body, toks[s.first]);
    if t.Some? { EditInside(body, toks, s, t.value); }
  }

  lemma FitCons(es: seq<Edit>, rest: seq<Edit>, from: nat, cut: nat, n: nat)
    requires |es| <= 1 && (forall e :: e in es ==> from <= e.start <= e.end <= cut) && from <= cut && Fit(rest, cut, n)
    ensures Fit(es + rest, from, n)
  {
    if es != [] {
      assert es[0] in es && (es + rest)[0] == es[0] && (es + rest)[1..] == rest;
    } else {
      assert es + rest == rest;
    }
  }

  /** Edits come in order without overlap, whatever the declarations look like. */
  lemma {:induction false} EditsInOrder(body: string, toks: seq<Token>, spans: seq<Span>, from: nat,
                                        scalars: set<string>, keep: set<string>)
    requires Ordered(body, toks) && SpansFit(toks, spans, from, |toks| + 1)
    ensures Fit(FlatMap(Editor(body, toks, scalars, keep), spans), StartAt(body, toks, from), |body|)
    decreases |spans|
  {
    if spans == [] {
      StartAscends(body, toks, from, from);
    } else {
      var s := spans[0];
      EditsInOrder(body, toks, spans[1..], s.last, scalars, keep);
      var es := EditFor(body, toks, s, scalars, keep);
      EditReaches(body, toks, s, scalars, keep);
      StartAscends(body, toks, from, s.first);
      StartAscends(body, toks, s.first, s.last);
      FitCons(es, FlatMap(Editor(body, toks, scalars, keep), spans[1..]), StartAt(body, toks, from),
              StartAt(body, toks, s.last), |body|);
    }
  }

  function EditsOf(body: string, toks: seq<Token>, scalars: set<string>, keep: set<string>): seq<Edit>
    requires Ordered(body, toks)
  {
    FlatMap(Editor(body, toks, scalars, keep), FlatSpans(SectionsFrom(body, toks, 0)))
  }

  /** The edits are ready to be applied: in order, disjoint, inside the body. */
  lemma EditsFit(body: string, toks: seq<Token>, scalars: set<string>, keep: set<string>)
    requires Ordered(body, toks)
    ensures Fit(EditsOf(body, toks, scalars, keep), 0, |body|)
  {
    SectionsInOrder(body, toks, 0);
    EditsInOrder(body, toks, FlatSpans(SectionsFrom(body, toks, 0)), 0, scalars, keep);
  }

  /** The edits of one section, after those found so far. */
  method SectionEdits(body: string, toks: seq<Token>, spans: seq<Span>, scalars: set<string>, keep: set<string>,
                      soFar: seq<Edit>)
    returns (edits: seq<Edit>)
    requires Ordered(body, toks)
    ensures edits == soFar + FlatMap(Editor(body, toks, scalars, keep), spans)
  {
    ghost var f := Editor(body, toks, scalars, keep);
    edits := soFar;
    for k := 0 to |spans|
      invariant edits == soFar + FlatMap(f, spans[..k])
    {
      FlatMapStep(soFar, f, spans, k);
      edits := edits + EditFor(body, toks, spans[k], scalars, keep);
    }
    assert spans[..|spans|] == spans;
  }

  /** Which declarations are rewritten, and how. */
  method FindTypeEdits(body: string, toks: seq<Token>, scalars: set<string>, keep: set<string>)
      returns (edits: seq<Edit>)
    requires Ordered(body, toks)
    ensures edits == EditsOf(body, toks, scalars, keep)
  {
    var sections := ReadSections(body, toks);
    ghost var f := Editor(body, toks, scalars, keep);
    edits := [];
    for i := 0 to |sections|
      invariant edits == FlatMap(f, FlatSpans(sections[..i]))
    {
      SectionStep(f, sections, i);
      edits := SectionEdits(body, toks, sections[i].spans, scalars, keep, edits);
    }
    assert sections[..|sections|] == sections;
  }

  lemma SectionStep(f: Span -> seq<Edit>, ss: seq<Section>, i: nat)
    requires i < |ss|
    ensures FlatMap(f, FlatSpans(ss[..i])) + FlatMap(f, ss[i].spans) == FlatMap(f, FlatSpans(ss[..i + 1]))
  {
    FlatSpansSnoc(ss[..i], ss[i]);
    FlatMapConcat(f, FlatSpans(ss[..i]), ss[i].spans);
    assert ss[..i + 1] == ss[..i] + [ss[i]];
  }

  lemma {:induction false} FlatSpansSnoc(ss: seq<Section>, s: Section)
    ensures FlatSpans(ss + [s]) == FlatSpans(ss) + s.spans
  {
    if ss == [] {
      assert ss + [s] == [s] && [s][1..] == [];
    } else {
      assert (ss + [s])[1..] == ss[1..] + [s];
      FlatSpansSnoc(ss[1..], s);
    }
  }
}
