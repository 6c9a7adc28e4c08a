/** A PL/pgSQL body made ready for the parser: its types rewritten if asked for, and its probes inserted. */
module ConfirmedParse {
  import opened Prelude
  import opened Lexer
  import opened Declarations
  import opened Splice
  import opened TypeEdits
  import opened Probes

  /** The body as rewritten, the text to parse, and what the parser must bring back. */
  datatype Prepared = Prepared(body: string, probed: Probed, declarations: map<nat, (nat, nat)>)

  /** The body with the types of its declarations rewritten; None when it does not tokenize. */
  function Retyped(body: string, scalars: set<string>, keep: set<string>): Option<string> {
    match Tokens(body)
    case None => None
    case Some(toks) =>
      TokensOrdered(body);
      TypeEdits.EditsFit(body, toks, scalars, keep);
      Some(Rewritten(body, EditsOf(body, toks, scalars, keep), 0))
  }

  /** The probes stand before the declarations and BEGINs of the body's own sections. */
  ghost predicate ProbedRight(p: Prepared, toks: seq<Token>) {
    && Ordered(p.body, toks)
    && var at := Places(p.body, toks);
       && Fit(ProbeEdits(at, 0), 0, |p.body|)
       && p.probed.text == Rewritten(p.body, ProbeEdits(at, 0), 0)
       && Expects(p.body, at, p.probed.lines, 0)
       && Locates(p.body, toks, Declared(SectionsFrom(p.body, toks, 0)), p.declarations)
  }

  /** The body already uses the name of one of the probes it would get. */
  ghost predicate UsesProbeName(body: string, toks: seq<Token>) {
    Ordered(body, toks) && exists n :: 0 <= n < |Places(body, toks)| && Taken(body, ProbeName(n))
  }

  method Retype(original: string, scalars: set<string>, keep: set<string>) returns (r: Option<string>)
    ensures r == Retyped(original, scalars, keep)
  {
    var toks := Tokenize(original);
    if toks.None? {
      return None;
    }
    TokensOrdered(original);
    TypeEdits.EditsFit(original, toks.value, scalars, keep);
    var edits := FindTypeEdits(original, toks.value, scalars, keep);
    var body := ApplyEdits(original, edits);
    r := Some(body);
  }

  /** Ready to parse, unless a text does not tokenize or a probe's name is taken. */
  method Prepare(original: string, retype: bool, scalars: set<string>, keep: set<string>) returns (r: Option<Prepared>)
    ensures var body := if retype then Retyped(original, scalars, keep) else Some(original);
            && (r.Some? ==> Some(r.value.body) == body && Tokens(r.value.body).Some?
                            && ProbedRight(r.value, Tokens(r.value.body).value))
            && (r.None? <==>
                  body.None? || Tokens(body.value).None? || UsesProbeName(body.value, Tokens(body.value).value))
  {
    var body := original;
    if retype {
      var rewritten := Retype(original, scalars, keep);
      if rewritten.None? {
        return None;
      }
      body := rewritten.value;
    }
    var toks := Tokenize(body);
    if toks.None? {
      return None;
    }
    TokensOrdered(body);
    PlacesAscend(body, toks.value);
    var at, declarations := PlaceProbes(body, toks.value);
    var probed := InsertProbes(body, at);
    r := if probed.None? then None else Some(Prepared(body, probed.value, declarations));
  }
}
