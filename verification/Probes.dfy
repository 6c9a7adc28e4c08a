/**
  Probe declarations: one before each declaration and each closing BEGIN, so that the parser's
  own line numbers confirm the sections the tokens suggest.
 */
module Probes {
  import opened Prelude
  import opened Lexer
  import opened Declarations
  import opened Splice

  const PROBE := "pgrls_probe_"

  function Digit(d: nat): (c: char)
    requires d < 10
    ensures IsDigit(c) && c as int == '0' as int + d
  {
    ('0' as int + d) as char
  }

  function Decimal(n: nat): (s: string)
    ensures s != [] && forall k :: 0 <= k < |s| ==> IsDigit(s[k])
  {
    if n < 10 then [Digit(n)] else Decimal(n / 10) + [Digit(n % 10)]
  }

  function ProbeName(n: nat): string {
    PROBE + Decimal(n)
  }

  /** A plain integer with no default: it adds no SQL. */
  function ProbeText(n: nat): string {
    ProbeName(n) + " int; "
  }

  lemma {:induction false} DecimalInjective(m: nat, n: nat)
    ensures Decimal(m) == Decimal(n) ==> m == n
  {
    if Decimal(m) == Decimal(n) {
      assert Decimal(m)[|Decimal(m)| - 1] == Digit(m % 10) && Decimal(n)[|Decimal(n)| - 1] == Digit(n % 10);
      if m >= 10 && n >= 10 {
        assert Decimal(m)[..|Decimal(m)| - 1] == Decimal(m / 10) && Decimal(n)[..|Decimal(n)| - 1] == Decimal(n / 10);
        DecimalInjective(m / 10, n / 10);
      }
    }
  }

  lemma NamesDistinct(m: nat, n: nat)
    ensures ProbeName(m) == ProbeName(n) ==> m == n
  {
    assert ProbeName(m)[|PROBE|..] == Decimal(m) && ProbeName(n)[|PROBE|..] == Decimal(n);
    DecimalInjective(m, n);
  }

  // --- where probes go ---

  /** Every declaration of a closed section ends at a `;` before the section's BEGIN. */
  predicate EndsAtSemi(toks: seq<Token>, s: Section) {
    s.closing.Some? ==>
      s.closing.value < |toks| && forall k :: 0 <= k < |s.spans| ==>
        s.spans[k].first <= s.spans[k].last < s.closing.value && s.spans[k].last == SemiFrom(toks, s.spans[k].first)
  }

  predicate AllEndAtSemi(toks: seq<Token>, ss: seq<Section>) {
    forall k :: 0 <= k < |ss| ==> EndsAtSemi(toks, ss[k])
  }

  lemma {:induction false} ClosedSectionsEnd(body: string, toks: seq<Token>, i: nat)
    ensures AllEndAtSemi(toks, SectionsFrom(body, toks, i))
    decreases |toks| - i
  {
    if i < |toks| {
      if Opens(body, toks, i) {
        var found := SpansFrom(body, toks, i + 1);
        SpansFromFit(body, toks, i + 1);
        ClosedSectionsEnd(body, toks, found.1);
        var rest := SectionsFrom(body, toks, found.1);
        var s := Section(found.0, if found.1 < |toks| then Some(found.1) else None);
        assert SectionsFrom(body, toks, i) == [s] + rest;
        assert EndsAtSemi(toks, s);
      } else {
        ClosedSectionsEnd(body, toks, i + 1);
      }
    }
  }

  function Starts(toks: seq<Token>, marks: seq<nat>): (at: seq<nat>)
    requires forall k :: 0 <= k < |marks| ==> marks[k] < |toks|
    ensures |at| == |marks| && forall k :: 0 <= k < |at| ==> at[k] == toks[marks[k]].start
  {
    seq(|marks|, k requires 0 <= k < |marks| => toks[marks[k]].start)
  }

  /** The places probes go, in the order they are numbered. */
  function Places(body: string, toks: seq<Token>): seq<nat>
    requires Ordered(body, toks)
  {
    SectionsInOrder(body, toks, 0);
    Starts(toks, Marks(SectionsFrom(body, toks, 0)))
  }

  ghost predicate Ascending(at: seq<nat>, n: nat) {
    (forall k :: 0 <= k < |at| ==> at[k] < n) && forall k, m :: 0 <= k < m < |at| ==> at[k] < at[m]
  }

  /** Probes are numbered in the order of their places, no two at one place. */
  lemma PlacesAscend(body: string, toks: seq<Token>)
    requires Ordered(body, toks)
    ensures Ascending(Places(body, toks), |body|)
  {
    SectionsInOrder(body, toks, 0);
    var marks, at := Marks(SectionsFrom(body, toks, 0)), Places(body, toks);
    forall k | 0 <= k < |at| ensures at[k] < |body| {
      assert TokenFits(body, toks[marks[k]]);
    }
    forall k, m | 0 <= k < m < |at| ensures at[k] < at[m] {
      assert TokenFits(body, toks[marks[k]]) && toks[marks[k]].end <= toks[marks[m]].start;
    }
  }

  /** For each place, the declaration of a closed section that starts there, if one does. */
  function Declared(ss: seq<Section>): seq<Option<Span>> {
    if ss == [] then [] else SectionDeclared(ss[0]) + Declared(ss[1..])
  }

  function SectionDeclared(s: Section): (r: seq<Option<Span>>)
    ensures |r| == |SectionMarks(s)|
    ensures forall k :: 0 <= k < |r| && r[k].Some? ==>
            s.closing.Some? && r[k].value in s.spans && SectionMarks(s)[k] == r[k].value.first
  {
    seq(|s.spans|, k requires 0 <= k < |s.spans| => if s.closing.Some? then Some(s.spans[k]) else None)
    + if s.closing.Some? then [None] else []
  }

  lemma {:induction false} DeclaredAtMarks(ss: seq<Section>, toks: seq<Token>)
    requires AllEndAtSemi(toks, ss)
    ensures |Declared(ss)| == |Marks(ss)|
    ensures forall k :: 0 <= k < |Declared(ss)| && Declared(ss)[k].Some? ==>
              var s := Declared(ss)[k].value;
              Marks(ss)[k] == s.first <= s.last < |toks| && s.last == SemiFrom(toks, s.first)
                  && toks[s.last].kind == Semi
  {
    if ss != [] {
      assert EndsAtSemi(toks, ss[0]);
      assert forall k :: 0 <= k < |ss[1..]| ==> ss[1..][k] == ss[k + 1];
      DeclaredAtMarks(ss[1..], toks);
    }
  }

  /** Where each declaration of a closed section stands in the body, by the number of its probe. */
  ghost predicate Locates(body: string, toks: seq<Token>, decls: seq<Option<Span>>, starts: map<nat, (nat, nat)>) {
    && (forall n: nat :: n in starts <==> n < |decls| && decls[n].Some?)
    && (forall n: nat :: n in starts ==> starts[n] == Stands(body, toks, decls[n].value))
  }

  /** A declaration's text: from its first token up to its `;`. */
  function Stands(body: string, toks: seq<Token>, s: Span): (nat, nat) {
    (StartAt(body, toks, s.first), StartAt(body, toks, s.last))
  }

  lemma {:induction false} SectionsSnoc(ss: seq<Section>, s: Section)
    ensures Marks(ss + [s]) == Marks(ss) + SectionMarks(s) && Declared(ss + [s]) == Declared(ss) + SectionDeclared(s)
  {
    if ss == [] {
      assert ss + [s] == [s] && [s][1..] == [];
    } else {
      assert (ss + [s])[1..] == ss[1..] + [s];
      SectionsSnoc(ss[1..], s);
    }
  }

  predicate MarksWithin(toks: seq<Token>, marks: seq<nat>) {
    forall k :: 0 <= k < |marks| ==> marks[k] < |toks|
  }

  /** The first `k` of a section's places are taken, after those found before it. */
  ghost predicate Placed(body: string, toks: seq<Token>, before: (seq<nat>, seq<Option<Span>>), marks: seq<nat>,
                         ds: seq<Option<Span>>, k: nat, at: seq<nat>, starts: map<nat, (nat, nat)>)
    requires k <= |marks| == |ds|
  {
    && |before.0| == |before.1| && MarksWithin(toks, marks[..k]) && at == before.0 + Starts(toks, marks[..k])
    && Locates(body, toks, before.1 + ds[..k], starts)
  }

  lemma PlacedOne(body: string, toks: seq<Token>, before: (seq<nat>, seq<Option<Span>>), marks: seq<nat>,
                  ds: seq<Option<Span>>, k: nat, at: seq<nat>, starts: map<nat, (nat, nat)>)
    requires k < |marks| == |ds| && MarksWithin(toks, marks) && Placed(body, toks, before, marks, ds, k, at, starts)
    ensures Placed(body, toks, before, marks, ds, k + 1, at + [toks[marks[k]].start],
              if ds[k].Some? then starts[|at| := Stands(body, toks, ds[k].value)] else starts)
  {
  }

  /** One section's places, after those found so far. */
  method PlaceSection(body: string, toks: seq<Token>, s: Section, at: seq<nat>, starts: map<nat, (nat, nat)>,
                      ghost decls: seq<Option<Span>>)
    returns (at': seq<nat>, starts': map<nat, (nat, nat)>)
    requires EndsAtSemi(toks, s) && MarksWithin(toks, SectionMarks(s)) && |at| == |decls|
             && Locates(body, toks, decls, starts)
    ensures at' == at + Starts(toks, SectionMarks(s))
    ensures Locates(body, toks, decls + SectionDeclared(s), starts')
  {
    ghost var marks, ds, before := SectionMarks(s), SectionDeclared(s), (at, decls);
    at', starts' := at, starts;
    for k := 0 to |s.spans|
      invariant Placed(body, toks, before, marks, ds, k, at', starts')
    {
      var span := s.spans[k];
      assert marks[k] == span.first && ds[k] == if s.closing.Some? then Some(span) else None;
      PlacedOne(body, toks, before, marks, ds, k, at', starts');
      if s.closing.Some? {
        starts' := starts'[|at'| := (toks[span.first].start, toks[span.last].start)];
      }
      at' := at' + [toks[span.first].start];
    }
    if s.closing.Some? {
      PlacedOne(body, toks, before, marks, ds, |s.spans|, at', starts');
      at' := at' + [toks[s.closing.value].start];
    }
  }

  /** All places, and where each declaration of a closed section stands. */
  method PlaceProbes(body: string, toks: seq<Token>) returns (at: seq<nat>, starts: map<nat, (nat, nat)>)
    requires Ordered(body, toks)
    ensures at == Places(body, toks)
    ensures Locates(body, toks, Declared(SectionsFrom(body, toks, 0)), starts)
  {
    var ss := ReadSections(body, toks);
    SectionsInOrder(body, toks, 0);
    ClosedSectionsEnd(body, toks, 0);
    at, starts := [], map[];
    for i := 0 to |ss|
      invariant MarksWithin(toks, Marks(ss[..i])) && at == Starts(toks, Marks(ss[..i]))
      invariant |at| == |Declared(ss[..i])| && Locates(body, toks, Declared(ss[..i]), starts)
    {
      OneMoreSection(toks, ss, i);
      at, starts := PlaceSection(body, toks, ss[i], at, starts, Declared(ss[..i]));
    }
    assert ss[..|ss|] == ss;
  }

  lemma TakeOne<T>(xs: seq<T>, i: nat)
    requires i < |xs|
    ensures xs[..i + 1] == xs[..i] + [xs[i]]
  {}

  lemma MoreSections(toks: seq<Token>, before: seq<Section>, s: Section, upto: seq<Section>)
    requires upto == before + [s] && MarksWithin(toks, Marks(before)) && MarksWithin(toks, SectionMarks(s))
    ensures MarksWithin(toks, Marks(upto)) && Starts(toks, Marks(upto))
               == Starts(toks, Marks(before)) + Starts(toks, SectionMarks(s))
    ensures Declared(upto) == Declared(before) + SectionDeclared(s)
  {
    SectionsSnoc(before, s);
  }

  lemma OneMoreSection(toks: seq<Token>, ss: seq<Section>, i: nat)
    requires i < |ss| && MarksWithin(toks, Marks(ss)) && MarksWithin(toks, Marks(ss[..i]))
    ensures MarksWithin(toks, SectionMarks(ss[i])) && MarksWithin(toks, Marks(ss[..i + 1]))
    ensures Starts(toks, Marks(ss[..i + 1])) == Starts(toks, Marks(ss[..i])) + Starts(toks, SectionMarks(ss[i]))
    ensures Declared(ss[..i + 1]) == Declared(ss[..i]) + SectionDeclared(ss[i])
  {
    TakeOne(ss, i);
    MarksOfOne(toks, ss, i);
    MoreSections(toks, ss[..i], ss[i], ss[..i + 1]);
  }

  lemma {:induction false} MarksOfOne(toks: seq<Token>, ss: seq<Section>, i: nat)
    requires i < |ss| && MarksWithin(toks, Marks(ss))
    ensures MarksWithin(toks, SectionMarks(ss[i])) && MarksWithin(toks, Marks(ss[..i + 1]))
  {
    MarksConcat(ss[..i + 1], ss[i + 1..]);
    SectionsSnoc(ss[..i], ss[i]);
    assert ss == ss[..i + 1] + ss[i + 1..] && ss[..i + 1] == ss[..i] + [ss[i]];
    var a, m, b := Marks(ss[..i]), SectionMarks(ss[i]), Marks(ss[i + 1..]);
    assert Marks(ss) == a + m + b;
    forall k | 0 <= k < |m| ensures m[k] < |toks| { assert (a + m + b)[|a| + k] == m[k]; }
    forall k | 0 <= k < |a + m| ensures (a + m)[k] < |toks| { assert (a + m + b)[k] == (a + m)[k]; }
  }

  lemma {:induction false} MarksConcat(a: seq<Section>, b: seq<Section>)
    ensures Marks(a + b) == Marks(a) + Marks(b)
  {
    if a == [] {
      assert a + b == b;
    } else {
      assert (a + b)[1..] == a[1..] + b;
      MarksConcat(a[1..], b);
    }
  }

  // --- inserting them ---

  /** The probe edits from number `n` on. */
  function ProbeEdits(at: seq<nat>, n: nat): (r: seq<Edit>)
    requires n <= |at|
    ensures |r| == |at| - n && forall k :: 0 <= k < |r| ==> r[k] == Edit(at[n + k], at[n + k], ProbeText(n + k))
    decreases |at| - n
  {
    if n == |at| then [] else [Edit(at[n], at[n], ProbeText(n))] + ProbeEdits(at, n + 1)
  }

  lemma {:induction false} ProbesFit(at: seq<nat>, n: nat, from: nat, size: nat)
    requires Ascending(at, size) && n <= |at| && from <= size && (n < |at| ==> from <= at[n])
    ensures Fit(ProbeEdits(at, n), from, size)
    decreases |at| - n
  {
    if n < |at| {
      ProbesFit(at, n + 1, at[n], size);
      assert ProbeEdits(at, n)[1..] == ProbeEdits(at, n + 1);
    }
  }

  /** The body already uses this name: followed by a digit it would be another one. */
  predicate Taken(body: string, name: string) {
    exists p: nat :: p < |body| && StartsWith(body, p, name)
      && !(p + |name| < |body| && IsDigit(body[p + |name|]))
  }

  /** The probed body and, for each probe, the line it is expected back at. */
  datatype Probed = Probed(text: string, lines: map<string, nat>)

  /** Each probe from number `n` on is expected at the line its place has in the body. */
  ghost predicate Expects(body: string, at: seq<nat>, lines: map<string, nat>, n: nat) {
    && (forall k :: n <= k < |at| && at[k] <= |body| ==>
          ProbeName(k) in lines && lines[ProbeName(k)] == Newlines(body[..at[k]]) + 1)
    && (forall name :: name in lines ==> exists k :: n <= k < |at| && name == ProbeName(k))
  }

  lemma ExpectsMore(body: string, at: seq<nat>, lines: map<string, nat>, n: nat)
    requires n < |at| && at[n] <= |body| && Expects(body, at, lines, n + 1)
    ensures Expects(body, at, lines[ProbeName(n) := Newlines(body[..at[n]]) + 1], n)
  {
    forall k ensures ProbeName(k) == ProbeName(n) ==> k == n { NamesDistinct(k, n); }
  }

  method CountLines(body: string, upto: nat) returns (n: nat)
    requires upto <= |body|
    ensures n == Newlines(body[..upto])
  {
    n := 0;
    assert body[..0] == [];
    for i := 0 to upto
      invariant n == Newlines(body[..i])
    {
      NewlinesConcat(body[..i], [body[i]]);
      assert body[..i + 1] == body[..i] + [body[i]] && [body[i]][1..] == [];
      if body[i] == '\n' {
        n := n + 1;
      }
    }
  }

  /** The text with the probes from number `n` on inserted. */
  function ProbedFrom(body: string, at: seq<nat>, n: nat): string
    requires Fit(ProbeEdits(at, 0), 0, |body|) && n <= |at|
  {
    MadeFrom(body, ProbeEdits(at, 0), n)
  }

  lemma InsertedOne(body: string, at: seq<nat>, n: nat)
    requires Fit(ProbeEdits(at, 0), 0, |body|) && n < |at|
    ensures var r := ProbedFrom(body, at, n + 1);
            at[n] <= |r| && ProbedFrom(body, at, n) == r[..at[n]] + ProbeText(n) + r[at[n]..]
  {
    OneEdit(body, ProbeEdits(at, 0), n);
  }

  /** Probes inserted from the last place backward; none if the body uses one of their names. */
  method InsertProbes(body: string, at: seq<nat>) returns (r: Option<Probed>)
    requires Ascending(at, |body|)
    ensures Fit(ProbeEdits(at, 0), 0, |body|)
    ensures r.None? <==> exists n :: 0 <= n < |at| && Taken(body, ProbeName(n))
    ensures r.Some? ==> r.value.text == Rewritten(body, ProbeEdits(at, 0), 0) && Expects(body, at, r.value.lines, 0)
  {
    ProbesFit(at, 0, 0, |body|);
    var n, text, lines: map<string, nat> := |at|, body, map[];
    NothingMade(body, ProbeEdits(at, 0));
    while n > 0
      invariant 0 <= n <= |at| && text == ProbedFrom(body, at, n) && Expects(body, at, lines, n)
      invariant forall k :: n <= k < |at| ==> !Taken(body, ProbeName(k))
    {
      n := n - 1;
      var taken := Taken(body, ProbeName(n));
      if taken {
        return None;
      }
      text, lines := InsertProbe(body, at, n, text, lines);
    }
    AllMade(body, ProbeEdits(at, 0));
    r := Some(Probed(text, lines));
  }

  method InsertProbe(body: string, at: seq<nat>, n: nat, text: string, lines: map<string, nat>)
    returns (text': string, lines': map<string, nat>)
    requires Fit(ProbeEdits(at, 0), 0, |body|) && n < |at| && at[n] <= |body|
    requires text == ProbedFrom(body, at, n + 1) && Expects(body, at, lines, n + 1)
    ensures text' == ProbedFrom(body, at, n) && Expects(body, at, lines', n)
  {
    var line := CountLines(body, at[n]);
    ExpectsMore(body, at, lines, n);
    InsertedOne(body, at, n);
    lines' := lines[ProbeName(n) := line + 1];
    text' := text[..at[n]] + ProbeText(n) + text[at[n]..];
  }

  // --- what the probed text is ---

  lemma ProbeTextHasNoLineEnd(n: nat)
    ensures Newlines(ProbeText(n)) == 0
  {
    NoLineEnd(ProbeText(n));
  }

  lemma {:induction false} NoLineEnd(s: string)
    ensures (forall k :: 0 <= k < |s| ==> s[k] != '\n') ==> Newlines(s) == 0
  {
    if s != [] { NoLineEnd(s[1..]); }
  }

  /** Where probe `n` stands in the probed text. */
  function StandsAt(body: string, at: seq<nat>, n: nat): nat
    requires Fit(ProbeEdits(at, 0), 0, |body|) && n < |at|
  {
    |Head(body, ProbeEdits(at, 0), n, 0)|
  }

  /**
    Every probe stands whole in the probed text, on the line recorded for it; and deleting the
    probes gives the body back.
   */
  lemma ProbesStand(body: string, at: seq<nat>, n: nat)
    requires Ascending(at, |body|) && n < |at|
    ensures Fit(ProbeEdits(at, 0), 0, |body|)
    ensures var probed, p := Rewritten(body, ProbeEdits(at, 0), 0), StandsAt(body, at, n);
            && p + |ProbeText(n)| <= |probed| && probed[p..p + |ProbeText(n)|] == ProbeText(n)
            && Newlines(probed[..p]) == Newlines(body[..at[n]])
  {
    var edits := ProbeEdits(at, 0);
    ProbesFit(at, 0, 0, |body|);
    Lands(body, edits, n, 0);
    FitPrefix(edits, n, 0, |body|);
    var head := Head(body, edits, n, 0);
    forall k | 0 <= k < |edits[..n]| ensures Newlines(edits[..n][k].text) == 0 { ProbeTextHasNoLineEnd(k); }
    InsertsKeepLines(body[..at[n]], edits[..n], 0);
    assert body[..at[n]][0..] == body[..at[n]];
    HeadStands(head, ProbeText(n), Rewritten(body, edits[n + 1..], at[n]));
  }

  lemma HeadStands(x: string, t: string, tail: string)
    ensures var u := x + t + tail; |x| + |t| <= |u| && u[..|x|] == x && u[|x|..|x| + |t|] == t
  {}

  lemma ProbesUndone(body: string, at: seq<nat>)
    requires Ascending(at, |body|)
    ensures var edits := ProbeEdits(at, 0);
            && Fit(edits, 0, |body|) && Inserts(edits)
            && Fit(Deletions(edits, 0), 0, |Rewritten(body, edits, 0)|)
            && Rewritten(Rewritten(body, edits, 0), Deletions(edits, 0), 0) == body
  {
    ProbesFit(at, 0, 0, |body|);
    DeletionsUndo(body, ProbeEdits(at, 0), 0);
    assert body[0..] == body;
  }
}
