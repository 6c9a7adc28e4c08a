/**
  Policy clauses as expression trees, evaluated in SQL's three-valued logic over one row.
  An evaluation names two principals: who `current_user` is, and whose privileges and
  policies the relations of a sub-select are read with.
 */
module Predicate {

  datatype Tri = Yes | No | Null

  datatype Value = Truth(tri: Tri) | Datum(id: int)

  /** `unseen` marks a call or operator whose definition is not a known built-in. */
  datatype Expr =
    | Const(value: Value)
    | Column(name: string)
    | Special(op: string)
    | Call(fn: string, unseen: bool, args: seq<Expr>)
    | Oper(symbol: string, unseen: bool, args: seq<Expr>)
    | SubSelect(from: seq<string>, target: Expr)
    | And(args: seq<Expr>)
    | Or(args: seq<Expr>)
    | Not(arg: Expr)

  /**
    One row of a table together with everything a filter may consult: the built-in value
    functions, the callable functions and operators, and the relations it can query.
   */
  datatype World = World(
    column: string -> Value,
    special: (string, string) -> Value,
    call: (string, bool, seq<Value>, string, string) -> Value,
    oper: (string, bool, seq<Value>, string, string) -> Value,
    query: (seq<string>, Expr, string, string) -> Value)

  function AsTri(v: Value): Tri {
    if v.Truth? then v.tri else Null
  }

  function Both(a: Tri, b: Tri): Tri {
    if a == No || b == No then No else if a == Yes && b == Yes then Yes else Null
  }

  function Either(a: Tri, b: Tri): Tri {
    if a == Yes || b == Yes then Yes else if a == No && b == No then No else Null
  }

  function Negate(a: Tri): Tri {
    match a case Yes => No case No => Yes case Null => Null
  }

  function Eval(e: Expr, w: World, user: string, reader: string): Value
    decreases e, 1
  {
    match e
    case Const(v) => v
    case Column(c) => w.column(c)
    case Special(op) => w.special(op, user)
    case Call(fn, unseen, args) => w.call(fn, unseen, EvalArgs(args, w, user, reader), user, reader)
    case Oper(sym, unseen, args) => w.oper(sym, unseen, EvalArgs(args, w, user, reader), user, reader)
    case SubSelect(from, target) =>
      if from == [] then Eval(target, w, user, reader) else w.query(from, target, user, reader)
    case And(args) => Truth(EvalAnd(args, w, user, reader))
    case Or(args) => Truth(EvalOr(args, w, user, reader))
    case Not(a) => Truth(Negate(AsTri(Eval(a, w, user, reader))))
  }

  function EvalArgs(es: seq<Expr>, w: World, user: string, reader: string): seq<Value>
    decreases es, 0
  {
    if es == [] then [] else [Eval(es[0], w, user, reader)] + EvalArgs(es[1..], w, user, reader)
  }

  function EvalAnd(es: seq<Expr>, w: World, user: string, reader: string): Tri
    decreases es, 0
  {
    if es == [] then Yes
    else Both(AsTri(Eval(es[0], w, user, reader)), EvalAnd(es[1..], w, user, reader))
  }

  function EvalOr(es: seq<Expr>, w: World, user: string, reader: string): Tri
    decreases es, 0
  {
    if es == [] then No
    else Either(AsTri(Eval(es[0], w, user, reader)), EvalOr(es[1..], w, user, reader))
  }

  /** Row security admits a row only where the filter is TRUE, never where it is NULL. */
  predicate Passes(e: Expr, w: World, user: string, reader: string) {
    AsTri(Eval(e, w, user, reader)) == Yes
  }

  lemma {:induction false} EvalAndYes(es: seq<Expr>, w: World, user: string, reader: string)
    ensures EvalAnd(es, w, user, reader) == Yes
            <==> forall i :: 0 <= i < |es| ==> Passes(es[i], w, user, reader)
  {
    if es != [] {
      EvalAndYes(es[1..], w, user, reader);
      assert forall i :: 0 < i < |es| ==> es[i] == es[1..][i - 1];
      if forall i :: 0 <= i < |es[1..]| ==> Passes(es[1..][i], w, user, reader) {
      } else {
        var i :| 0 <= i < |es[1..]| && !Passes(es[1..][i], w, user, reader);
        assert es[1..][i] == es[i + 1];
      }
    }
  }

  lemma {:induction false} EvalOrYes(es: seq<Expr>, w: World, user: string, reader: string)
    ensures EvalOr(es, w, user, reader) == Yes
            <==> exists i :: 0 <= i < |es| && Passes(es[i], w, user, reader)
  {
    if es != [] {
      EvalOrYes(es[1..], w, user, reader);
      if i :| 0 <= i < |es| && Passes(es[i], w, user, reader) {
        assert i == 0 || es[1..][i - 1] == es[i];
      }
      if i :| 0 <= i < |es[1..]| && Passes(es[1..][i], w, user, reader) {
        assert es[1..][i] == es[i + 1];
      }
    }
  }

  lemma {:induction false} EvalOrConcat(a: seq<Expr>, b: seq<Expr>, w: World, user: string, reader: string)
    ensures EvalOr(a + b, w, user, reader) == Either(EvalOr(a, w, user, reader), EvalOr(b, w, user, reader))
  {
    if a == [] {
      assert a + b == b;
    } else {
      assert (a + b)[1..] == a[1..] + b;
      EvalOrConcat(a[1..], b, w, user, reader);
    }
  }

  /** The literal boolean `true`, and nothing merely equivalent to it. */
  predicate IsLiteralTrue(e: Expr) {
    e == Const(Truth(Yes))
  }

  /** The operands of an OR with the operands of ORs among them in their place; other nodes stand alone. */
  function FlattenOr(e: Expr): seq<Expr>
    decreases e, 1
  {
    if e.Or? then FlattenArgs(e.args) else [e]
  }

  function FlattenArgs(es: seq<Expr>): seq<Expr>
    decreases es, 0
  {
    if es == [] then []
    else (if es[0].Or? then FlattenOr(es[0]) else [es[0]]) + FlattenArgs(es[1..])
  }

  /** A clause restricts nothing when a literal `true` is among its flattened disjuncts. */
  predicate ClauseIsOpen(e: Expr) {
    exists d :: d in FlattenOr(e) && IsLiteralTrue(d)
  }

  /** No disjunct of a flattened clause is itself an OR, and flattening keeps the clause's value. */
  lemma {:induction false} FlattenOrMeaning(e: Expr, w: World, user: string, reader: string)
    ensures EvalOr(FlattenOr(e), w, user, reader) == AsTri(Eval(e, w, user, reader))
    ensures forall d :: d in FlattenOr(e) ==> !d.Or?
    decreases e, 1
  {
    if e.Or? {
      FlattenArgsMeaning(e.args, w, user, reader);
    } else {
      assert EvalOr([e][1..], w, user, reader) == No;
    }
  }

  lemma {:induction false} FlattenArgsMeaning(es: seq<Expr>, w: World, user: string, reader: string)
    ensures EvalOr(FlattenArgs(es), w, user, reader) == EvalOr(es, w, user, reader)
    ensures forall d :: d in FlattenArgs(es) ==> !d.Or?
    decreases es, 0
  {
    if es != [] {
      var head := if es[0].Or? then FlattenOr(es[0]) else [es[0]];
      FlattenOrMeaning(es[0], w, user, reader);
      FlattenArgsMeaning(es[1..], w, user, reader);
      EvalOrConcat(head, FlattenArgs(es[1..]), w, user, reader);
    }
  }

  /** A clause judged open is TRUE on every row, for every principal. */
  lemma OpenClausePassesEverything(e: Expr, w: World, user: string, reader: string)
    requires ClauseIsOpen(e)
    ensures Passes(e, w, user, reader)
  {
    var ds := FlattenOr(e);
    var i :| 0 <= i < |ds| && IsLiteralTrue(ds[i]);
    assert Passes(ds[i], w, user, reader);
    EvalOrYes(ds, w, user, reader);
    FlattenOrMeaning(e, w, user, reader);
  }
}
