/** The probed text reads as the body's own tokens with each probe's declaration among them. */
module ProbeTokens {
  import opened Prelude
  import opened Lexer
  import opened LexerSpec
  import opened Relex
  import opened Declarations
  import opened Probes
  import opened Splice
  import Quoting

  // --- a run of the tokenizer up to a position ---

  /** The tokens read from `i` on when the run comes to `stop`; None when it never does. */
  function RunTo(text: string, i: nat, acc: seq<Token>, stop: nat): Option<seq<Token>>
    decreases |text| - i
  {
    if i == stop then Some(acc)
    else if i > stop || i >= |text| then None
    else match LexemeAt(text, i, Escaping(text, acc, i))
      case Skip(e) => RunTo(text, e, acc, stop)
      case Tok(kind, e) => RunTo(text, e, acc + [Token(kind, i, e)], stop)
      case Open => None
  }

  lemma {:induction false} RunThenLex(text: string, i: nat, acc: seq<Token>, stop: nat)
    requires RunTo(text, i, acc, stop).Some?
    ensures Lex(text, i, acc) == Lex(text, stop, RunTo(text, i, acc, stop).value)
    decreases |text| - i
  {
    if i != stop {
      match LexemeAt(text, i, Escaping(text, acc, i)) {
        case Skip(e) => RunThenLex(text, e, acc, stop);
        case Tok(kind, e) => RunThenLex(text, e, acc + [Token(kind, i, e)], stop);
        case Open =>
      }
    }
  }

  /** Tokens are only ever added, and those added start no earlier than where the run stands. */
  lemma {:induction false} LexAdds(text: string, i: nat, acc: seq<Token>)
    requires Lex(text, i, acc).Some?
    ensures acc <= Lex(text, i, acc).value
    ensures forall k :: |acc| <= k < |Lex(text, i, acc).value| ==> i <= Lex(text, i, acc).value[k].start
    decreases |text| - i
  {
    if i < |text| {
      match LexemeAt(text, i, Escaping(text, acc, i)) {
        case Skip(e) => LexAdds(text, e, acc);
        case Tok(kind, e) =>
          var more := acc + [Token(kind, i, e)];
          LexAdds(text, e, more);
          var all := Lex(text, e, more).value;
          assert acc <= more <= all && all[|acc|] == more[|acc|];
        case Open =>
      }
    }
  }

  lemma StartsAscend(text: string, toks: seq<Token>, m: nat, k: nat)
    requires Ordered(text, toks) && m <= k < |toks|
    ensures m < k ==> toks[m].start < toks[k].start
    ensures toks[k].start < |text|
  {
    assert TokenFits(text, toks[m]) && TokenFits(text, toks[k]);
  }

  /** The run comes to every token's start, with exactly the tokens before it. */
  lemma {:induction false} RunVisits(text: string, i: nat, acc: seq<Token>, toks: seq<Token>, k: nat)
    requires Lex(text, i, acc) == Some(toks) && |acc| <= k < |toks| && Ordered(text, toks)
    ensures i <= toks[k].start && RunTo(text, i, acc, toks[k].start) == Some(toks[..k])
    decreases |text| - i
  {
    LexAdds(text, i, acc);
    StartsAscend(text, toks, |acc|, k);
    if i < |text| && i < toks[k].start {
      match LexemeAt(text, i, Escaping(text, acc, i)) {
        case Skip(e) => RunVisits(text, e, acc, toks, k);
        case Tok(kind, e) =>
          LexAdds(text, e, acc + [Token(kind, i, e)]);
          assert toks[|acc|] == Token(kind, i, e);
          RunVisits(text, e, acc + [Token(kind, i, e)], toks, k);
        case Open =>
      }
    }
    if |acc| == k && i == toks[k].start { assert toks[..k] == acc; }
  }

  /** The lexeme the run reads last before it comes to `n`. */
  lemma {:induction false} LastStep(text: string, i: nat, acc: seq<Token>, n: nat) returns (b: nat, before: seq<Token>)
    requires RunTo(text, i, acc, n).Some? && i < n
    ensures i <= b < n && b < |text| && RunTo(text, i, acc, b) == Some(before)
    ensures var x := LexemeAt(text, b, Escaping(text, before, b));
            && !x.Open? && x.end == n
            && RunTo(text, i, acc, n).value == if x.Skip? then before else before + [Token(x.kind, b, n)]
    decreases |text| - i
  {
    var x := LexemeAt(text, i, Escaping(text, acc, i));
    var more := if x.Skip? then acc else acc + [Token(x.kind, i, x.end)];
    if x.end == n {
      b, before := i, acc;
    } else {
      b, before := LastStep(text, x.end, more, n);
    }
  }

  lemma EscapingAgrees(text: string, u: string, n: nat, acc: seq<Token>, i: nat)
    requires Agree(text, u, n) && i <= n
    ensures Escaping(text, acc, i) == Escaping(u, acc, i)
  {
    if acc != [] && acc[|acc| - 1].start < i { AgreeSlice(text, u, n, acc[|acc| - 1].start, i); }
  }

  /** Up to a boundary the run is the same whatever stands after the boundary's lexeme. */
  lemma {:induction false} RunAgrees(text: string, u: string, n: nat, b: nat, i: nat, acc: seq<Token>)
    requires Agree(text, u, n) && Boundary(text, b, n) && RunTo(text, i, acc, b).Some?
    ensures RunTo(u, i, acc, b) == RunTo(text, i, acc, b)
    decreases |text| - i
  {
    if i != b {
      EscapingAgrees(text, u, n, acc, i);
      var x := LexemeAt(text, i, Escaping(text, acc, i));
      if x.Skip? {
        StopsLater(text, x.end, acc, b);
        AgreeLexeme(text, u, n, i, b, Escaping(text, acc, i));
        RunAgrees(text, u, n, b, x.end, acc);
      } else {
        StopsLater(text, x.end, acc + [Token(x.kind, i, x.end)], b);
        AgreeLexeme(text, u, n, i, b, Escaping(text, acc, i));
        RunAgrees(text, u, n, b, x.end, acc + [Token(x.kind, i, x.end)]);
      }
    }
  }

  lemma StopsLater(text: string, i: nat, acc: seq<Token>, stop: nat)
    ensures RunTo(text, i, acc, stop).Some? ==> i <= stop
  {}

  lemma {:induction false} RunStep(text: string, i: nat, acc: seq<Token>, b: nat, n: nat)
    requires RunTo(text, i, acc, b).Some? && b < n && b < |text|
    requires var x := LexemeAt(text, b, Escaping(text, RunTo(text, i, acc, b).value, b)); !x.Open? && x.end == n
    ensures var before := RunTo(text, i, acc, b).value;
            var x := LexemeAt(text, b, Escaping(text, before, b));
            RunTo(text, i, acc, n) == Some(if x.Skip? then before else before + [Token(x.kind, b, n)])
    decreases |text| - i
  {
    if i != b {
      StopsLater(text, i, acc, b);
      var x := LexemeAt(text, i, Escaping(text, acc, i));
      RunStep(text, x.end, if x.Skip? then acc else acc + [Token(x.kind, i, x.end)], b, n);
    }
  }

  /** A place nothing before which runs into: the token before it is a `;`, or stands apart. */
  predicate Apart(toks: seq<Token>, k: nat)
    requires 0 < k < |toks|
  {
    toks[k - 1].kind == Semi || toks[k - 1].end < toks[k].start
  }

  /** What comes before such a token reads the same whatever replaces the text from there on. */
  lemma PrefixReads(text: string, u: string, toks: seq<Token>, k: nat)
    requires Tokens(text) == Some(toks) && 0 < k < |toks| && Ordered(text, toks) && Apart(toks, k)
    requires Agree(text, u, toks[k].start)
    ensures RunTo(u, 0, [], toks[k].start) == Some(toks[..k])
  {
    var n := toks[k].start;
    RunVisits(text, 0, [], toks, k);
    assert toks[0].start < toks[0].end <= n by { assert TokenFits(text, toks[0]); }
    var b, before := LastStep(text, 0, [], n);
    var x := LexemeAt(text, b, Escaping(text, before, b));
    if x.Tok? { assert toks[..k][k - 1] == Token(x.kind, b, n); }
    AgreeBoundary(text, u, n, b, Escaping(text, before, b));
    RunAgrees(text, u, n, b, 0, []);
    EscapingAgrees(text, u, n, before, b);
    RunStep(u, 0, [], b, n);
  }

  // --- what follows, moved ---

  /** The token read last, if any. */
  function Last(toks: seq<Token>): Option<Token> {
    if toks == [] then None else Some(toks[|toks| - 1])
  }

  predicate EscapingAfter(text: string, last: Option<Token>, i: nat) {
    last.Some? && IsEscapeLetter(text, last.value, i)
  }

  /** One step of a reading: nothing more, something skipped, or a token. */
  datatype Step = Stops | Passes(end: nat) | Takes(token: Token)

  function StepOf(i: nat, x: Lexeme): Step {
    match x
    case Skip(e) => Passes(e)
    case Tok(kind, e) => Takes(Token(kind, i, e))
    case Open => Stops
  }

  /** The step from a position, given the token before it. */
  type Next = (nat, Option<Token>) -> Step

  function StepsIn(text: string): Next {
    (i: nat, last: Option<Token>) =>
      if i < |text| then StepOf(i, LexemeAt(text, i, EscapingAfter(text, last, i))) else Stops
  }

  /** The tokens taken from `i` up to `n`, `last` being the one before. */
  function Scan(next: Next, n: nat, i: nat, last: Option<Token>): Option<seq<Token>>
    decreases n - i
  {
    if i >= n then Some([])
    else match next(i, last)
      case Stops => None
      case Passes(e) => if i < e then Scan(next, n, e, last) else None
      case Takes(t) => if i < t.end then Cons(t, Scan(next, n, t.end, Some(t))) else None
  }

  function Cons(t: Token, rest: Option<seq<Token>>): Option<seq<Token>> {
    match rest case Some(ts) => Some([t] + ts) case None => None
  }

  function Append(acc: seq<Token>, rest: Option<seq<Token>>): Option<seq<Token>> {
    match rest case Some(ts) => Some(acc + ts) case None => None
  }

  lemma AppendCons(acc: seq<Token>, t: Token, rest: Option<seq<Token>>)
    ensures Append(acc, Cons(t, rest)) == Append(acc + [t], rest)
  {
    if rest.Some? { assert acc + ([t] + rest.value) == acc + [t] + rest.value; }
  }

  lemma {:induction false} LexIsScan(text: string, i: nat, acc: seq<Token>)
    ensures Lex(text, i, acc) == Append(acc, Scan(StepsIn(text), |text|, i, Last(acc)))
    decreases |text| - i
  {
    if i < |text| {
      match LexemeAt(text, i, Escaping(text, acc, i)) {
        case Skip(e) => LexIsScan(text, e, acc);
        case Tok(kind, e) =>
          var t := Token(kind, i, e);
          LexIsScan(text, e, acc + [t]);
          AppendCons(acc, t, Scan(StepsIn(text), |text|, e, Some(t)));
        case Open =>
      }
    } else {
      var none: seq<Token> := [];
      assert acc + none == acc;
    }
  }

  /** Every token `d` characters further on. */
  function Moved(toks: seq<Token>, d: nat): seq<Token> {
    if toks == [] then [] else [MovedOne(toks[0], d)] + Moved(toks[1..], d)
  }

  function MovedOne(t: Token, d: nat): Token {
    Token(t.kind, t.start + d, t.end + d)
  }

  function MovedRead(a: Option<seq<Token>>, d: nat): Option<seq<Token>> {
    match a case None => None case Some(ts) => Some(Moved(ts, d))
  }

  lemma {:induction false} MovedAt(toks: seq<Token>, d: nat, k: nat)
    ensures |Moved(toks, d)| == |toks| && (k < |toks| ==> Moved(toks, d)[k] == MovedOne(toks[k], d))
  {
    if toks != [] { MovedAt(toks[1..], d, if k > 0 then k - 1 else 0); }
  }

  function MovedStep(s: Step, d: nat): Step {
    match s
    case Stops => Stops
    case Passes(e) => Passes(e + d)
    case Takes(t) => Takes(MovedOne(t, d))
  }

  /** Where two readings stand when the second is the first, moved. */
  type Alike = (nat, Option<Token>, Option<Token>) -> bool

  /** The steps are the same, moved, and lead to where the two readings are alike again. */
  ghost predicate StepAlike(next: Next, other: Next, d: nat, alike: Alike, i: nat, last: Option<Token>,
                            before: Option<Token>) {
    && other(i + d, before) == MovedStep(next(i, last), d)
    && (next(i, last).Passes? ==> alike(next(i, last).end, last, before))
    && (next(i, last).Takes? ==> alike(next(i, last).token.end, Some(next(i, last).token),
        Some(MovedOne(next(i, last).token, d))))
  }

  ghost predicate StaysAlike(next: Next, n: nat, other: Next, d: nat, alike: Alike) {
    forall i: nat, last, before {:trigger StepAlike(next, other, d, alike, i, last, before)} ::
        alike(i, last, before) && i < n ==>
      StepAlike(next, other, d, alike, i, last, before)
  }

  lemma {:induction false} ScanMoves(next: Next, n: nat, other: Next, d: nat, alike: Alike, i: nat,
                                     last: Option<Token>, before: Option<Token>)
    requires StaysAlike(next, n, other, d, alike) && alike(i, last, before)
    ensures Scan(other, n + d, i + d, before) == MovedRead(Scan(next, n, i, last), d)
    decreases n - i
  {
    if i < n {
      assert StepAlike(next, other, d, alike, i, last, before);
      match next(i, last) {
        case Stops =>
        case Passes(e) =>
          if i < e { ScanMoves(next, n, other, d, alike, e, last, before); }
        case Takes(t) =>
          if i < t.end {
            ScanMoves(next, n, other, d, alike, t.end, Some(t), Some(MovedOne(t, d)));
          }
      }
    }
  }

  predicate EndsBy(last: Option<Token>, i: nat) {
    last.Some? ==> last.value.end <= i
  }

  /** The rest of the text is the same, and a string that starts here escapes alike. */
  predicate ReadAlike(text: string, u: string, d: nat, i: nat, last: Option<Token>, before: Option<Token>) {
    && Same(text, i, u, i + d) && EndsBy(last, i) && EndsBy(before, i + d)
    && EscapingAfter(text, last, i) == EscapingAfter(u, before, i + d)
  }

  lemma EscapingMoves(text: string, i: nat, u: string, d: nat, t: Token)
    requires Same(text, i, u, i + d) && i == t.start < t.end <= |text|
    ensures IsEscapeLetter(text, t, t.end) == IsEscapeLetter(u, MovedOne(t, d), t.end + d)
  {
    var n := t.end - i;
    assert text[i..i + n] == text[i..][..n] && u[i + d..i + d + n] == u[i + d..][..n];
  }

  function AlikeIn(text: string, u: string, d: nat): Alike {
    (i: nat, last: Option<Token>, before: Option<Token>) => ReadAlike(text, u, d, i, last, before)
  }

  lemma StepMoves(text: string, u: string, d: nat, i: nat, last: Option<Token>, before: Option<Token>) returns (s: Step)
    requires ReadAlike(text, u, d, i, last, before) && i < |text|
    ensures s == StepsIn(text)(i, last) && StepsIn(u)(i + d, before) == MovedStep(s, d)
    ensures s.Passes? ==> ReadAlike(text, u, d, s.end, last, before)
    ensures s.Takes? ==> ReadAlike(text, u, d, s.token.end, Some(s.token), Some(MovedOne(s.token, d)))
  {
    s := LexemeMoves(text, u, d, i, EscapingAfter(text, last, i));
    if s.Passes? {
    } else if s.Takes? {
      AlikeAfter(text, u, d, i, last, before, s.token);
    }
  }

  lemma LexemeMoves(text: string, u: string, d: nat, i: nat, escapes: bool) returns (s: Step)
    requires Same(text, i, u, i + d) && i < |text|
    ensures i + d < |u| && s == StepOf(i, LexemeAt(text, i, escapes))
            && MovedStep(s, d) == StepOf(i + d, LexemeAt(u, i + d, escapes))
    ensures s.Passes? ==> i < s.end <= |text|
    ensures s.Takes? ==> i == s.token.start < s.token.end <= |text|
  {
    SameLexeme(text, i, u, i + d, escapes);
    s := StepOf(i, LexemeAt(text, i, escapes));
  }

  lemma AlikeAfter(text: string, u: string, d: nat, i: nat, last: Option<Token>, before: Option<Token>, t: Token)
    requires ReadAlike(text, u, d, i, last, before) && i == t.start < t.end <= |text|
    ensures ReadAlike(text, u, d, t.end, Some(t), Some(MovedOne(t, d)))
  {
    EscapingMoves(text, i, u, d, t);
  }

  lemma OneStepAlike(text: string, u: string, d: nat, i: nat, last: Option<Token>, before: Option<Token>)
    requires AlikeIn(text, u, d)(i, last, before) && i < |text|
    ensures StepAlike(StepsIn(text), StepsIn(u), d, AlikeIn(text, u, d), i, last, before)
  {
    var s := StepMoves(text, u, d, i, last, before);
  }

  lemma StepsStayAlike(text: string, u: string, d: nat)
    ensures StaysAlike(StepsIn(text), |text|, StepsIn(u), d, AlikeIn(text, u, d))
  {
    forall i: nat, last, before | AlikeIn(text, u, d)(i, last, before) && i < |text|
      ensures StepAlike(StepsIn(text), StepsIn(u), d, AlikeIn(text, u, d), i, last, before)
    {
      OneStepAlike(text, u, d, i, last, before);
    }
  }

  /** Text that reads alike gives the same tokens, moved to where it stands. */
  lemma ReadMoves(text: string, i: nat, last: Option<Token>, u: string, d: nat, before: Option<Token>)
    requires ReadAlike(text, u, d, i, last, before)
    ensures Scan(StepsIn(u), |u|, i + d, before) == MovedRead(Scan(StepsIn(text), |text|, i, last), d)
  {
    StepsStayAlike(text, u, d);
    ScanMoves(StepsIn(text), |text|, StepsIn(u), d, AlikeIn(text, u, d), i, last, before);
  }

  // --- one probe ---

  /** The three tokens of probe `m` standing at `n`. */
  function Probe(n: nat, m: nat): seq<Token> {
    var q := |ProbeName(m)|;
    [Token(Word, n, n + q), Token(Word, n + q + 1, n + q + 4), Token(Semi, n + q + 4, n + q + 5)]
  }

  /** A word standing whole before something that is no part of it is one token. */
  lemma WordReads(u: string, n: nat, word: string, escapes: bool)
    requires word != [] && WordStart(word[0]) && forall k :: 0 <= k < |word| ==> WordPart(word[k])
    requires n + |word| < |u| && u[n..n + |word|] == word && !WordPart(u[n + |word|])
    ensures LexemeAt(u, n, escapes) == Tok(Word, n + |word|)
  {
    forall k | n <= k < n + |word| ensures u[k] == word[k - n] { assert u[n..n + |word|][k - n] == u[k]; }
    Quoting.WordEndAt(u, n + 1, n + |word|);
  }

  lemma ProbeStands(u: string, n: nat, m: nat)
    requires n + |ProbeText(m)| <= |u| && u[n..n + |ProbeText(m)|] == ProbeText(m)
    ensures var q := |ProbeName(m)|;
            && |ProbeText(m)| == q + 6 && u[n..n + q] == ProbeName(m) && TypeStands(u, n + q)
  {
    var name, q := ProbeName(m), |ProbeName(m)|;
    assert ProbeText(m) == name + [' ', 'i', 'n', 't', ';', ' '];
    assert u[n..n + q] == u[n..n + q + 6][..q] == name;
    forall k | 0 <= k < 6 ensures u[n + q + k] == [' ', 'i', 'n', 't', ';', ' '][k] {
      assert u[n + q + k] == u[n..n + q + 6][q + k] == (name + [' ', 'i', 'n', 't', ';', ' '])[q + k];
    }
  }

  /** The probe's type and its `;` stand at `p`, a space before and after. */
  predicate TypeStands(u: string, p: nat) {
    && p + 6 <= |u| && u[p] == ' ' && u[p + 1] == 'i' && u[p + 2] == 'n' && u[p + 3] == 't' && u[p + 4] == ';'
        && u[p + 5] == ' '
  }

  /** A word and the space after it. */
  lemma WordThenSpace(u: string, n: nat, word: string, acc: seq<Token>)
    requires word != [] && WordStart(word[0]) && forall k :: 0 <= k < |word| ==> WordPart(word[k])
    requires n + |word| < |u| && u[n..n + |word|] == word && u[n + |word|] == ' '
    ensures Lex(u, n, acc) == Lex(u, n + |word| + 1, acc + [Token(Word, n, n + |word|)])
  {
    var more := acc + [Token(Word, n, n + |word|)];
    WordReads(u, n, word, Escaping(u, acc, n));
    Quoting.LexToken(u, n, acc, Word, n + |word|);
  }

  /** The type and the `;` after it, up to past the space that follows. */
  lemma TypeThenSemi(u: string, p: nat, acc: seq<Token>)
    requires TypeStands(u, p)
    ensures Lex(u, p + 1, acc) == Lex(u, p + 6, acc + [Token(Word, p + 1, p + 4)] + [Token(Semi, p + 4, p + 5)])
  {
    var b := acc + [Token(Word, p + 1, p + 4)];
    var c := b + [Token(Semi, p + 4, p + 5)];
    assert u[p + 1..p + 4] == ['i', 'n', 't'];
    WordReads(u, p + 1, ['i', 'n', 't'], Escaping(u, acc, p + 1));
    assert Lex(u, p + 1, acc) == Lex(u, p + 4, b) by { Quoting.LexToken(u, p + 1, acc, Word, p + 4); }
    assert Lex(u, p + 4, b) == Lex(u, p + 5, c) by { Quoting.LexToken(u, p + 4, b, Semi, p + 5); }
  }

  lemma ThreeMore(acc: seq<Token>, a: Token, b: Token, c: Token)
    ensures acc + [a] + [b] + [c] == acc + [a, b, c]
  {}

  /** A probe reads as its three tokens, whatever was read before it. */
  lemma ProbeReads(u: string, n: nat, m: nat, acc: seq<Token>)
    requires n + |ProbeText(m)| <= |u| && u[n..n + |ProbeText(m)|] == ProbeText(m)
    ensures Lex(u, n, acc) == Lex(u, n + |ProbeText(m)|, acc + Probe(n, m))
  {
    var q, ts := |ProbeName(m)|, Probe(n, m);
    ProbeStands(u, n, m);
    assert Lex(u, n, acc) == Lex(u, n + q + 1, acc + [ts[0]]) by {
      WordThenSpace(u, n, ProbeName(m), acc);
    }
    assert Lex(u, n + q + 1, acc + [ts[0]]) == Lex(u, n + q + 6, acc + [ts[0]] + [ts[1]] + [ts[2]]) by {
      TypeThenSemi(u, n + q, acc + [ts[0]]);
    }
    ThreeMore(acc, ts[0], ts[1], ts[2]);
  }

  /** The body's tokens with a probe's before token `k`. */
  function WithProbe(toks: seq<Token>, k: nat, m: nat): (r: seq<Token>)
    requires k < |toks|
    ensures |r| == |toks| + 3 && r[..k] == toks[..k]
  {
    var n := toks[k].start;
    MovedAt(toks[k..], |ProbeText(m)|, 0);
    toks[..k] + Probe(n, m) + Moved(toks[k..], |ProbeText(m)|)
  }

  function Insert(text: string, n: nat, m: nat): string
    requires n <= |text|
  {
    text[..n] + ProbeText(m) + text[n..]
  }

  /** What follows the probe reads as it did before, moved past it. */
  lemma TailReads(text: string, toks: seq<Token>, k: nat, u: string, d: nat, before: seq<Token>)
    requires 0 < k < |toks| && Ordered(text, toks) && Apart(toks, k)
    requires Lex(text, toks[k].start, toks[..k]) == Some(toks)
    requires Same(text, toks[k].start, u, toks[k].start + d) && before != []
    requires before[|before| - 1].kind == Semi && before[|before| - 1].end <= toks[k].start + d
    ensures Lex(u, toks[k].start + d, before) == Some(before + Moved(toks[k..], d))
  {
    var n := toks[k].start;
    LexIsScan(text, n, toks[..k]);
    LexIsScan(u, n + d, before);
    ReadMoves(text, n, Last(toks[..k]), u, d, Last(before));
  }

  lemma ReadsUpTo(text: string, toks: seq<Token>, k: nat, u: string)
    requires Tokens(text) == Some(toks) && Ordered(text, toks) && 0 < k < |toks| && Apart(toks, k)
    requires Agree(text, u, toks[k].start)
    ensures Lex(u, 0, []) == Lex(u, toks[k].start, toks[..k]) && Lex(text, toks[k].start, toks[..k]) == Some(toks)
  {
    PrefixReads(text, u, toks, k);
    RunThenLex(u, 0, [], toks[k].start);
    RunVisits(text, 0, [], toks, k);
    RunThenLex(text, 0, [], toks[k].start);
  }

  lemma ProbeThenTail(text: string, toks: seq<Token>, k: nat, m: nat, u: string, e: nat)
    requires Ordered(text, toks) && 0 < k < |toks| && Apart(toks, k)
             && Lex(text, toks[k].start, toks[..k]) == Some(toks)
    requires Agree(text, u, toks[k].start) && Same(text, toks[k].start, u, e) && e == toks[k].start + |ProbeText(m)|
    requires u[toks[k].start..e] == ProbeText(m)
    ensures Lex(u, toks[k].start, toks[..k]) == Some(WithProbe(toks, k, m))
  {
    var n, before := toks[k].start, toks[..k] + Probe(toks[k].start, m);
    ProbeReads(u, n, m, toks[..k]);
    assert before[|before| - 1] == Probe(n, m)[2] && before[|before| - 1].end <= e by { ProbeStands(u, n, m); }
    TailReads(text, toks, k, u, |ProbeText(m)|, before);
  }

  lemma InsertedLex(text: string, toks: seq<Token>, k: nat, m: nat, u: string, e: nat)
    requires Tokens(text) == Some(toks) && Ordered(text, toks) && 0 < k < |toks| && Apart(toks, k)
    requires Agree(text, u, toks[k].start) && Same(text, toks[k].start, u, e) && e == toks[k].start + |ProbeText(m)|
    requires u[toks[k].start..e] == ProbeText(m)
    ensures Tokens(u) == Some(WithProbe(toks, k, m))
  {
    ReadsUpTo(text, toks, k, u);
    ProbeThenTail(text, toks, k, m, u, e);
  }

  /** A probe before a token that stands apart reads as a declaration of its own and disturbs no other token. */
  lemma InsertedReads(text: string, toks: seq<Token>, k: nat, m: nat)
    requires Tokens(text) == Some(toks) && Ordered(text, toks) && 0 < k < |toks| && Apart(toks, k)
    ensures toks[k].start <= |text| && Tokens(Insert(text, toks[k].start, m)) == Some(WithProbe(toks, k, m))
  {
    var n := toks[k].start;
    StartsAscend(text, toks, k, k);
    InsertedLex(text, toks, k, m, Insert(text, n, m), n + |ProbeText(m)|);
  }

  // --- all probes ---

  /** The body's tokens with the probes from number `n` on among them. */
  function WithProbes(toks: seq<Token>, marks: seq<nat>, n: nat): (r: seq<Token>)
    requires n <= |marks| && Increasing(marks, 0, |toks|)
    ensures |r| >= |toks| && r[..MarkAt(toks, marks, n)] == toks[..MarkAt(toks, marks, n)]
    decreases |marks| - n
  {
    if n == |marks| then toks else WithProbe(WithProbes(toks, marks, n + 1), marks[n], n)
  }

  function MarkAt(toks: seq<Token>, marks: seq<nat>, n: nat): (r: nat)
    requires n <= |marks| && Increasing(marks, 0, |toks|)
    ensures r <= |toks|
  {
    if n < |marks| then marks[n] else |toks|
  }

  ghost predicate AllApart(toks: seq<Token>, marks: seq<nat>) {
    forall n :: 0 <= n < |marks| ==> 0 < marks[n] < |toks| && Apart(toks, marks[n])
  }

  lemma OneMoreRead(text: string, ts: seq<Token>, toks: seq<Token>, k: nat, m: nat)
    requires Tokens(text) == Some(ts) && 0 < k < |toks| && k < |ts| && ts[k] == toks[k] && ts[k - 1] == toks[k - 1]
             && Apart(toks, k)
    ensures toks[k].start <= |text| && Tokens(Insert(text, toks[k].start, m)) == Some(WithProbe(ts, k, m))
  {
    TokensOrdered(text);
    InsertedReads(text, ts, k, m);
  }

  /** The text with all probes from number `n` on reads as the tokens with them. */
  ghost predicate ReadsWith(body: string, toks: seq<Token>, marks: seq<nat>, at: seq<nat>, n: nat) {
    && n <= |marks| == |at| && Increasing(marks, 0, |toks|) && Fit(ProbeEdits(at, 0), 0, |body|)
    && Tokens(ProbedFrom(body, at, n)) == Some(WithProbes(toks, marks, n))
  }

  lemma OneMoreReads(body: string, toks: seq<Token>, marks: seq<nat>, at: seq<nat>, n: nat)
    requires ReadsWith(body, toks, marks, at, n + 1) && 0 < marks[n] && Apart(toks, marks[n])
             && at[n] == toks[marks[n]].start
    ensures ReadsWith(body, toks, marks, at, n)
  {
    InsertedOne(body, at, n);
    OneMoreRead(ProbedFrom(body, at, n + 1), WithProbes(toks, marks, n + 1), toks, marks[n], n);
  }

  /** Probes that all stand apart read as declarations of their own, and every token of the body stays what it was. */
  lemma {:induction false} ProbesRead(body: string, toks: seq<Token>, marks: seq<nat>, at: seq<nat>, n: nat)
    requires Tokens(body) == Some(toks) && Increasing(marks, 0, |toks|) && AllApart(toks, marks)
    requires Fit(ProbeEdits(at, 0), 0, |body|) && n <= |at| == |marks|
    requires forall k :: 0 <= k < |at| ==> at[k] == toks[marks[k]].start
    ensures ReadsWith(body, toks, marks, at, n)
    decreases |at| - n
  {
    if n == |at| {
      NothingMade(body, ProbeEdits(at, 0));
    } else {
      ProbesRead(body, toks, marks, at, n + 1);
      OneMoreReads(body, toks, marks, at, n);
    }
  }

  // --- exactly when they do ---

  /** Some word runs straight into the next one. */
  ghost predicate Touching(ts: seq<Token>) {
    exists r :: 0 <= r < |ts| - 1 && ts[r].kind == Word && ts[r + 1].kind == Word && ts[r].end == ts[r + 1].start
  }

  /** The tokenizer reads words as far as they go, so no two ever touch. */
  lemma WordsNeverTouch(text: string, toks: seq<Token>)
    requires Tokens(text) == Some(toks)
    ensures !Touching(toks)
  {
    TokensExact(text);
    forall r | 0 <= r < |toks| - 1 && toks[r].kind == Word && toks[r + 1].kind == Word
        ensures toks[r].end != toks[r + 1].start {
      assert TokenStands(text, toks, r) && TokenStands(text, toks, r + 1);
    }
  }

  lemma TouchingStays(ts: seq<Token>, k: nat, m: nat)
    requires k < |ts| && Touching(ts)
    ensures Touching(WithProbe(ts, k, m))
  {
    var r :| 0 <= r < |ts| - 1 && ts[r].kind == Word && ts[r + 1].kind == Word && ts[r].end == ts[r + 1].start;
    var all, n, d := WithProbe(ts, k, m), ts[k].start, |ProbeText(m)|;
    if r + 1 < k {
      assert all[..k][r] == ts[r] && all[..k][r + 1] == ts[r + 1];
    } else if r + 1 == k {
      assert all[..k][r] == ts[r] && all[k] == Probe(n, m)[0];
    } else {
      MovedAt(ts[k..], d, r - k);
      MovedAt(ts[k..], d, r + 1 - k);
      assert all[r + 3] == Moved(ts[k..], d)[r - k] && all[r + 4] == Moved(ts[k..], d)[r + 1 - k];
    }
  }

  lemma ProbeTouches(ts: seq<Token>, k: nat, m: nat)
    requires 0 < k < |ts| && ts[k - 1].kind == Word && ts[k - 1].end == ts[k].start
    ensures Touching(WithProbe(ts, k, m))
  {
    var all := WithProbe(ts, k, m);
    assert all[..k][k - 1] == ts[k - 1] && all[k] == Probe(ts[k].start, m)[0];
    assert 0 <= k - 1 < |all| - 1 && all[k - 1 + 1].kind == Word;
  }

  lemma {:induction false} ProbesTouch(toks: seq<Token>, marks: seq<nat>, n: nat, x: nat)
    requires n <= x < |marks| && Increasing(marks, 0, |toks|)
    requires 0 < marks[x] && toks[marks[x] - 1].kind == Word && toks[marks[x] - 1].end == toks[marks[x]].start
    ensures Touching(WithProbes(toks, marks, n))
    decreases |marks| - n
  {
    if n == x {
      ProbeTouches(WithProbes(toks, marks, n + 1), marks[n], n);
    } else {
      ProbesTouch(toks, marks, n + 1, x);
      TouchingStays(WithProbes(toks, marks, n + 1), marks[n], n);
    }
  }

  /** Before a declaration, or the BEGIN after the last one, comes a `;` or DECLARE itself. */
  predicate Follows(body: string, toks: seq<Token>, k: nat)
    requires k <= |toks|
  {
    k > 0 && (toks[k - 1].kind == Semi || IsWord(body, toks[k - 1], DECLARE))
  }

  ghost predicate AllFollow(body: string, toks: seq<Token>, marks: seq<nat>) {
    forall n :: 0 <= n < |marks| ==> marks[n] < |toks| && Follows(body, toks, marks[n])
  }

  lemma FirstFollows(body: string, toks: seq<Token>, i: nat, j: nat, rest: seq<Span>)
    requires i < |toks| && Follows(body, toks, i) && AllFollow(body, toks, Firsts(rest))
    ensures AllFollow(body, toks, Firsts([Span(i, j)] + rest))
  {
    assert Firsts([Span(i, j)] + rest) == [i] + Firsts(rest);
  }

  lemma {:induction false} SpansFollow(body: string, toks: seq<Token>, i: nat)
    requires i <= |toks| && Follows(body, toks, i)
    ensures var r := SpansFrom(body, toks, i);
            AllFollow(body, toks, Firsts(r.0)) && (r.1 < |toks| ==> Follows(body, toks, r.1))
    decreases |toks| - i
  {
    if i < |toks| && !IsWord(body, toks[i], BEGIN) {
      if IsWord(body, toks[i], DECLARE) {
        SpansFollow(body, toks, i + 1);
      } else {
        var j := SemiFrom(toks, i);
        if j < |toks| { SpansFollow(body, toks, j + 1); }
        FirstFollows(body, toks, i, j, SpansFrom(body, toks, j + 1).0);
      }
    }
  }

  lemma {:induction false} MarksFollow(body: string, toks: seq<Token>, i: nat)
    ensures AllFollow(body, toks, Marks(SectionsFrom(body, toks, i)))
    decreases |toks| - i
  {
    if i < |toks| {
      if Opens(body, toks, i) {
        SpansFollow(body, toks, i + 1);
        MarksFollow(body, toks, SpansFrom(body, toks, i + 1).1);
      } else {
        MarksFollow(body, toks, i + 1);
      }
    }
  }

  /** DECLARE runs straight into the quoted identifier after it. */
  predicate DeclareTouches(body: string, toks: seq<Token>, k: nat)
    requires k < |toks|
  {
    k > 0 && IsWord(body, toks[k - 1], DECLARE) && toks[k - 1].end == toks[k].start
  }

  lemma TouchingSpoils(body: string, toks: seq<Token>, marks: seq<nat>, x: nat, probed: string)
    requires Increasing(marks, 0, |toks|) && x < |marks| && DeclareTouches(body, toks, marks[x])
    ensures Tokens(probed) != Some(WithProbes(toks, marks, 0))
  {
    ProbesTouch(toks, marks, 0, x);
    if Tokens(probed) == Some(WithProbes(toks, marks, 0)) {
      WordsNeverTouch(probed, WithProbes(toks, marks, 0));
    }
  }

  /** The body with all its probes reads as its own tokens with the probes' among them. */
  ghost predicate ProbesReadBack(body: string, toks: seq<Token>)
    requires Ordered(body, toks)
  {
    var marks, at := Marks(SectionsFrom(body, toks, 0)), Places(body, toks);
    && Increasing(marks, 0, |toks|) && Fit(ProbeEdits(at, 0), 0, |body|)
    && Tokens(Rewritten(body, ProbeEdits(at, 0), 0)) == Some(WithProbes(toks, marks, 0))
  }

  /**
    The probed body reads as the body's own tokens with each probe's three among them, except
    exactly when some DECLARE runs straight into the name after it: there the first probe's name
    becomes part of the keyword.
   */
  lemma ProbesReadExactly(body: string, toks: seq<Token>)
    requires Tokens(body) == Some(toks) && Ordered(body, toks)
    ensures var marks, at := Marks(SectionsFrom(body, toks, 0)), Places(body, toks);
            && Increasing(marks, 0, |toks|) && |at| == |marks| && Fit(ProbeEdits(at, 0), 0, |body|)
            && (ProbesReadBack(body, toks) <==>
                  forall n :: 0 <= n < |marks| ==> !DeclareTouches(body, toks, marks[n]))
  {
    var marks, at := Marks(SectionsFrom(body, toks, 0)), Places(body, toks);
    SectionsInOrder(body, toks, 0);
    PlacesAscend(body, toks);
    ProbesFit(at, 0, 0, |body|);
    MarksFollow(body, toks, 0);
    AllMade(body, ProbeEdits(at, 0));
    var probed := Rewritten(body, ProbeEdits(at, 0), 0);
    if x :| 0 <= x < |marks| && DeclareTouches(body, toks, marks[x]) {
      TouchingSpoils(body, toks, marks, x, probed);
    } else {
      forall n | 0 <= n < |marks| ensures 0 < marks[n] < |toks| && Apart(toks, marks[n]) {
        assert Follows(body, toks, marks[n]) && !DeclareTouches(body, toks, marks[n]);
      }
      ProbesRead(body, toks, marks, at, 0);
    }
  }

  /** A body with no space after its DECLARE, which Postgres accepts. */
  function Unspaced(name: char): string {
    "DECLARE\"" + [name] + "\" int;"
  }

  const KEYWORD := Token(Word, 0, 7)
  const NAME := Token(QWord, 7, 10)
  const TYPE := Token(Word, 11, 14)
  const END := Token(Semi, 14, 15)

  lemma TouchingReads(name: char, body: string, toks: seq<Token>)
    requires body == Unspaced(name) && name != '"' && toks == [KEYWORD, NAME, TYPE, END]
    ensures Tokens(body) == Some(toks)
  {
    assert IsToken(body, NAME, false) by {
      assert body[8..9] == [name] && body[8..9][1..] == [];
      assert ClosesAt(body, 8, 9, '"', false);
    }
    EmptyGap(body, 0);
    EmptyGap(body, 7);
    EmptyGap(body, 10);
    EmptyGap(body, 14);
    EmptyGap(body, 15);
    GapGrows(body, 10, 10, 11);
    assert body[10] == ' ' && body[11] == 'i' && body[12] == 'n' && body[13] == 't' && body[14] == ';';
    assert IsToken(body, KEYWORD, false) && IsToken(body, TYPE, false);
    assert Lexed(body, toks, 15);
    TokensExact(body);
  }

  lemma TouchingMarks(name: char, body: string, toks: seq<Token>)
    requires body == Unspaced(name) && toks == [KEYWORD, NAME, TYPE, END]
    ensures var marks := Marks(SectionsFrom(body, toks, 0));
            |marks| > 0 && marks[0] == 1 && DeclareTouches(body, toks, 1)
  {
    var word := body[0..7];
    assert Quoting.Lower(word) == "declare" by { assert word == "DECLARE"; }
    assert Opens(body, toks, 0);
    assert SemiFrom(toks, 2) == 3;
    var rest := SpansFrom(body, toks, 4);
    var found := SpansFrom(body, toks, 1);
    assert found.0 == [Span(1, 3)] + rest.0;
    assert Firsts(found.0)[0] == 1;
    var sections := SectionsFrom(body, toks, 0);
    assert sections[0].spans == found.0;
  }

  /** Whatever its name, such a body's first probe becomes part of the keyword. */
  lemma DeclareCanTouch(name: char, body: string, toks: seq<Token>)
    requires body == Unspaced(name) && name != '"' && toks == [KEYWORD, NAME, TYPE, END]
    ensures Tokens(body) == Some(toks) && Ordered(body, toks) && !ProbesReadBack(body, toks)
  {
    TouchingReads(name, body, toks);
    TouchingMarks(name, body, toks);
    TokensOrdered(body);
    ProbesReadExactly(body, toks);
  }
}
