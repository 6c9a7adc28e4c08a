/** The verdicts of the access map: one cell per (table, command), and the doors folded into it. */
module Cells {
  import opened Prelude
  import opened Predicate

  datatype Command = Select | Insert | Update | Delete | Truncate

  /** One relation and one command on it. */
  datatype Spot = Spot(rel: string, command: Command)

  /** Every command on each of these relations. */
  function SpotsOn(names: set<string>): (r: set<Spot>)
    ensures forall k :: k in r <==> k.rel in names
  {
    var r := set n, c: Command | n in names :: Spot(n, c);
    assert forall k: Spot :: k == Spot(k.rel, k.command);
    r
  }

  datatype Verdict = Open | Denied | Conditional | Undecided

  /** `session` and `privileges` are who a conditional filter runs as; None is the caller. */
  datatype Cell = Cell(
    verdict: Verdict,
    filter: Option<Expr>,
    note: Option<string>,
    session: Option<string>,
    privileges: Option<string>)

  function Plain(v: Verdict, note: Option<string>): Cell {
    Cell(v, None, note, None, None)
  }

  datatype PathKind =
    | Superuser | DataRole | Owner | OwnerMember | GrantTo | PublicGrant | ColumnGrantTo
    | ViewDoor | FunctionDoor | TriggerDoor | RuleDoor | ParentDoor | ForeignKeyDoor

  datatype AccessPath = AccessPath(kind: PathKind, via: Option<string>, hops: seq<string>)

  datatype Door = Door(cell: Cell, path: AccessPath)

  /** Widest first: `undecided` outranks `conditional` because it might admit every row. */
  function Rank(v: Verdict): nat {
    match v
    case Open => 3
    case Undecided => 2
    case Conditional => 1
    case Denied => 0
  }

  /** A filtered cell carries its filter. */
  predicate WellFormed(c: Cell) {
    c.verdict == Conditional ==> c.filter.Some?
  }

  predicate Given(s: Option<string>) {
    s.Some? && s.value != ""
  }

  /** Retell a cell for someone who comes by it through a door: the rows stay, the note begins with the door. */
  function Via(prefix: string, cell: Cell, session: Option<string>, privileges: Option<string>): Cell {
    Cell(cell.verdict, cell.filter,
         Some(prefix + (if Given(cell.note) then " - " + cell.note.value else "")),
         if session.Some? then session else cell.session,
         if privileges.Some? then privileges else cell.privileges)
  }

  /** Text of a filter, used in notes only. */
  function Show(e: Expr): string
    decreases e, 1
  {
    match e
    case Const(v) => if v == Truth(Yes) then "true" else if v == Truth(No) then "false" else "NULL"
    case Column(c) => c
    case Special(op) => op
    case Call(fn, _, args) => fn + "(" + ShowAll(args, ", ") + ")"
    case Oper(sym, _, args) => ShowAll(args, " " + sym + " ")
    case SubSelect(from, t) => "(SELECT " + Show(t) + (if from == [] then ")" else " FROM ...)")
    case And(args) => "(" + ShowAll(args, " AND ") + ")"
    case Or(args) => "(" + ShowAll(args, " OR ") + ")"
    case Not(a) => "NOT " + Show(a)
  }

  function ShowAll(es: seq<Expr>, sep: string): string
    decreases es, 0
  {
    if es == [] then "" else if |es| == 1 then Show(es[0]) else Show(es[0]) + sep + ShowAll(es[1..], sep)
  }
}
