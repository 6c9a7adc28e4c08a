/**
  A syntactic check of what a filter can notice about its surroundings: the current user, and the
  principal its sub-selects read as. It is what lets two doors with one filter count as one row set,
  and it is shown here to be sound and, node by node, exactly how far.
 */
module Dependence {
  import opened Predicate

  datatype Reads = Reads(session: bool, relations: bool) {
    function Join(other: Reads): Reads {
      Reads(session || other.session, relations || other.relations)
    }
  }

  predicate Contains(s: string, part: string) {
    exists i :: 0 <= i <= |s| - |part| && s[i..][..|part|] == part
  }

  predicate NamesPrincipal(op: string) {
    Contains(op, "USER") || Contains(op, "ROLE")
  }

  const CURRENT_SCHEMA := "SVFOP_CURRENT_SCHEMA"

  const SESSION_FUNCTIONS := {"pg_has_role", "row_security_active"}

  /** A call whose bare name marks it as depending on who runs it. */
  predicate SessionNamed(fn: string) {
    || fn in SESSION_FUNCTIONS
    || (|fn| >= 4 && fn[..4] == "has_" && |fn| >= 10 && fn[|fn| - 10..] == "_privilege")
  }

  /** The flags one syntax node sets by itself. */
  function NodeReads(e: Expr): Reads {
    match e
    case Special(op) => Reads(NamesPrincipal(op), false)
    case Call(fn, unseen, _) =>
      if SessionNamed(fn) then Reads(true, false) else Reads(unseen, unseen)
    case Oper(_, unseen, _) => Reads(unseen, unseen)
    case SubSelect(from, _) => Reads(false, from != [])
    case _ => Reads(false, false)
  }

  /** The flags set by walking every node of the tree. */
  function Walk(e: Expr): Reads
    decreases e, 1
  {
    var below :=
      match e
      case Call(_, _, args) => WalkAll(args)
      case Oper(_, _, args) => WalkAll(args)
      case SubSelect(_, target) => Walk(target)
      case And(args) => WalkAll(args)
      case Or(args) => WalkAll(args)
      case Not(a) => Walk(a)
      case _ => Reads(false, false);
    NodeReads(e).Join(below)
  }

  function WalkAll(es: seq<Expr>): Reads
    decreases es, 0
  {
    if es == [] then Reads(false, false) else Walk(es[0]).Join(WalkAll(es[1..]))
  }

  /** A filter that reads a relation depends on the session too, through that relation's own policies. */
  function DependenceOf(e: Expr): Reads {
    var r := Walk(e);
    Reads(r.session || r.relations, r.relations)
  }

  /**
    What the built-ins guarantee: a value function depends on the session only if it names a
    user or role (or is CURRENT_SCHEMA); a privilege check depends on the session alone; every
    other known call or operator depends on its arguments alone. Unseen ones may do anything.
   */
  ghost predicate Lawful(w: World) {
    && (forall op, u1, u2 :: !NamesPrincipal(op) && op != CURRENT_SCHEMA ==> w.special(op, u1) == w.special(op, u2))
    && (forall fn, vs, u, r1, r2 :: SessionNamed(fn) ==> w.call(fn, false, vs, u, r1) == w.call(fn, false, vs, u, r2))
    && (forall fn, vs, u1, u2, r1, r2 ::
          !SessionNamed(fn) ==> w.call(fn, false, vs, u1, r1) == w.call(fn, false, vs, u2, r2))
    && (forall sym, vs, u1, u2, r1, r2 :: w.oper(sym, false, vs, u1, r1) == w.oper(sym, false, vs, u2, r2))
  }

  /** A node the walk judges by name although its definition or its value may follow something else. */
  predicate Misjudged(e: Expr) {
    || e == Special(CURRENT_SCHEMA)
    || (e.Call? && SessionNamed(e.fn) && e.unseen)
  }

  predicate Judgeable(e: Expr)
    decreases e, 1
  {
    !Misjudged(e) &&
    match e
    case Call(_, _, args) => AllJudgeable(args)
    case Oper(_, _, args) => AllJudgeable(args)
    case SubSelect(_, target) => Judgeable(target)
    case And(args) => AllJudgeable(args)
    case Or(args) => AllJudgeable(args)
    case Not(a) => Judgeable(a)
    case _ => true
  }

  predicate AllJudgeable(es: seq<Expr>)
    decreases es, 0
  {
    es == [] || (Judgeable(es[0]) && AllJudgeable(es[1..]))
  }

  /** Whether two evaluations agree on everything the flags say the filter depends on. */
  predicate Alike(d: Reads, u1: string, r1: string, u2: string, r2: string) {
    (d.session ==> u1 == u2) && (d.relations ==> u1 == u2 && r1 == r2)
  }

  /** Non-interference: evaluations that agree on the recorded dependences agree on the value. */
  lemma {:induction false} WalkSound(e: Expr, w: World, u1: string, r1: string, u2: string, r2: string)
    requires Lawful(w) && Judgeable(e) && Alike(Walk(e), u1, r1, u2, r2)
    ensures Eval(e, w, u1, r1) == Eval(e, w, u2, r2)
    decreases e, 1
  {
    match e
    case Const(_) =>
    case Column(_) =>
    case Special(_) =>
    case Call(_, _, args) => WalkAllSound(args, w, u1, r1, u2, r2);
    case Oper(_, _, args) => WalkAllSound(args, w, u1, r1, u2, r2);
    case SubSelect(_, target) => WalkSound(target, w, u1, r1, u2, r2);
    case And(args) => WalkAllSound(args, w, u1, r1, u2, r2);
    case Or(args) => WalkAllSound(args, w, u1, r1, u2, r2);
    case Not(a) => WalkSound(a, w, u1, r1, u2, r2);
  }

  lemma {:induction false} WalkAllSound(es: seq<Expr>, w: World, u1: string, r1: string, u2: string, r2: string)
    requires Lawful(w) && AllJudgeable(es) && Alike(WalkAll(es), u1, r1, u2, r2)
    ensures EvalArgs(es, w, u1, r1) == EvalArgs(es, w, u2, r2)
    ensures EvalAnd(es, w, u1, r1) == EvalAnd(es, w, u2, r2)
    ensures EvalOr(es, w, u1, r1) == EvalOr(es, w, u2, r2)
    decreases es, 0
  {
    if es != [] {
      WalkSound(es[0], w, u1, r1, u2, r2);
      WalkAllSound(es[1..], w, u1, r1, u2, r2);
    }
  }

  /** The two halves as the caller uses them: no session flag, no relation flag. */
  lemma DependenceSound(e: Expr, w: World, u1: string, r1: string, u2: string, r2: string)
    requires Lawful(w) && Judgeable(e)
    ensures !DependenceOf(e).session ==> Eval(e, w, u1, r1) == Eval(e, w, u2, r2)
    ensures !DependenceOf(e).relations ==> Eval(e, w, u1, r1) == Eval(e, w, u1, r2)
  {
    if !DependenceOf(e).session { WalkSound(e, w, u1, r1, u2, r2); }
    if !DependenceOf(e).relations { WalkSound(e, w, u1, r1, u1, r2); }
  }

  /** The claim one filter's flags make, over every lawful row and all pairs of principals. */
  ghost predicate FlagsHold(e: Expr) {
    forall w: World, u1, r1, u2, r2 :: Lawful(w) && Alike(DependenceOf(e), u1, r1, u2, r2) ==>
      Eval(e, w, u1, r1) == Eval(e, w, u2, r2)
  }

  /** A lawful row on which CURRENT_SCHEMA follows the user and every unseen call follows the reader. */
  ghost function Tattling(): (w: World)
    ensures Lawful(w)
  {
    World(
      c => Datum(0),
      (op, u) => if op == CURRENT_SCHEMA then Datum(|u|) else Datum(0),
      (fn, unseen, vs, u, r) => if unseen then Datum(|r|) else Datum(0),
      (sym, unseen, vs, u, r) => Datum(0),
      (from, t, u, r) => Datum(0))
  }

  /**
    For a single node the flags are right exactly when the node is not judged by its name
    against its nature: CURRENT_SCHEMA carries neither flag although it follows the user's
    search path, and an unseen function called `has_..._privilege` carries no relation flag
    although its body may read one.
   */
  lemma LeafFlagsExact(e: Expr)
    requires e.Special? || (e.Call? && e.args == [])
    ensures FlagsHold(e) <==> !Misjudged(e)
  {
    if Misjudged(e) {
      var w := Tattling();
      if e.Special? {
        NoPrincipalInCurrentSchema();
        assert Alike(DependenceOf(e), "a", "", "ab", "");
        assert Eval(e, w, "a", "") != Eval(e, w, "ab", "");
      } else {
        assert WalkAll(e.args) == Reads(false, false);
        assert Walk(e) == Reads(true, false);
        assert Alike(DependenceOf(e), "", "a", "", "ab");
        assert Eval(e, w, "", "a") != Eval(e, w, "", "ab");
      }
    } else {
      forall w: World, u1, r1, u2, r2 | Lawful(w) && Alike(DependenceOf(e), u1, r1, u2, r2)
        ensures Eval(e, w, u1, r1) == Eval(e, w, u2, r2)
      {
        WalkSound(e, w, u1, r1, u2, r2);
      }
    }
  }

  lemma NoPrincipalInCurrentSchema()
    ensures !NamesPrincipal(CURRENT_SCHEMA)
  {
    var s := CURRENT_SCHEMA;
    assert |s| == 20;
    forall i | 0 <= i <= |s| - 4 ensures s[i..][..4] != "USER" && s[i..][..4] != "ROLE" {
      var t := s[i..][..4];
      assert t[0] == s[i] && t[1] == s[i + 1];
    }
  }
}
