/**
  The part of a Postgres session the test client drives: role, claims setting, table data, the
  savepoint stack and the aborted flag, behind a driver whose calls may fail on the wire.
 */
module Postgres {
  import opened Prelude

  type Data = map<string, seq<string>>

  /** What a savepoint restores: SET LOCAL state and data revert together. */
  datatype Save = Save(name: nat, role: string, claims: Option<string>, data: Data)

  datatype Server = Server(
    role: string, claims: Option<string>, data: Data, stack: seq<Save>, aborted: bool, begun: Option<Save>)

  /** The statements the client sends; a `Statement` sets neither role nor claims nor a savepoint. */
  datatype Command =
    | Begin | Capture | Savepoint(name: nat) | Release(name: nat) | RollbackTo(name: nat)
    | SetRole(role: string) | SetClaims(value: Option<string>) | Statement(sql: string)

  datatype Reply = Done | Row(user: string, claims: Option<string>) | Failed(privilege: bool)

  /** How a statement ends: with new data, or with an error that may be SQLSTATE 42501. */
  datatype Outcome = Wrote(data: Data) | Raised(privilege: bool)

  /** A driver call goes through, is lost before it reaches the server, or loses its answer. */
  datatype Fault = Clean | Dropped | Blind

  /** The database behind the session and the wire in front of it. */
  datatype World = World(
    mayAssume: string -> bool,
    run: (string, string, Option<string>, Data) -> Outcome,
    fault: nat -> Fault)

  /** `clock` counts driver calls, `names` savepoint names handed out. */
  datatype State = State(server: Server, clock: nat, names: nat)

  /** Topmost savepoint of that name. */
  function FindSave(stack: seq<Save>, name: nat): (r: Option<nat>)
    ensures r.Some? ==> r.value < |stack| && stack[r.value].name == name
  {
    if stack == [] then None
    else if stack[|stack| - 1].name == name then Some(|stack| - 1)
    else FindSave(stack[..|stack| - 1], name)
  }

  /** A custom setting that was once set reads as '' rather than NULL after it is reverted. */
  function Reverted(saved: Option<string>, current: Option<string>): Option<string> {
    if saved.None? && current.Some? then Some("") else saved
  }

  function Abort(sv: Server): Server {
    sv.(aborted := sv.begun.Some?)
  }

  function Exec(w: World, sv: Server, c: Command): (Server, Reply) {
    if sv.aborted && !c.RollbackTo? then (sv, Failed(false))
    else match c
      case Begin =>
        (if sv.begun.Some? then sv else sv.(begun := Some(Save(0, sv.role, sv.claims, sv.data))), Done)
      case Capture => (sv, Row(sv.role, sv.claims))
      case Savepoint(n) =>
        if sv.begun.None? then (sv, Failed(false))
        else (sv.(stack := sv.stack + [Save(n, sv.role, sv.claims, sv.data)]), Done)
      case Release(n) =>
        var at := FindSave(sv.stack, n);
        if at.None? then (Abort(sv), Failed(false)) else (sv.(stack := sv.stack[..at.value]), Done)
      case RollbackTo(n) =>
        var at := FindSave(sv.stack, n);
        if at.None? then (Abort(sv), Failed(false))
        else
          var save := sv.stack[at.value];
          (Server(save.role, Reverted(save.claims, sv.claims), save.data, sv.stack[..at.value + 1], false, sv.begun),
              Done)
      case SetRole(r) =>
        if !w.mayAssume(r) then (Abort(sv), Failed(true))
        else (if sv.begun.Some? then sv.(role := r) else sv, Done)
      case SetClaims(v) =>
        (if sv.begun.Some? then sv.(claims := Some(if v.Some? then v.value else "")) else sv, Done)
      case Statement(sql) =>
        match w.run(sql, sv.role, sv.claims, sv.data)
        case Wrote(d) => (sv.(data := d), Done)
        case Raised(p) => (Abort(sv), Failed(p))
  }

  /** One driver call. */
  function Serve(w: World, s: State, c: Command): (State, Reply) {
    var after := s.(clock := s.clock + 1);
    match w.fault(s.clock)
    case Clean => var (sv, r) := Exec(w, s.server, c); (after.(server := sv), r)
    case Dropped => (after, Failed(false))
    case Blind => (after.(server := Exec(w, s.server, c).0), Failed(false))
  }

  /** ROLLBACK ends the transaction and reverts everything to BEGIN, aborted or not. */
  function Undo(sv: Server): Server {
    if sv.begun.None? then sv
    else Server(sv.begun.value.role, Reverted(sv.begun.value.claims, sv.claims), sv.begun.value.data, [], false, None)
  }

  /** The driver's rollback; false when it reports an error. */
  function Rollback(w: World, s: State): (State, bool) {
    var after := s.(clock := s.clock + 1);
    match w.fault(s.clock)
    case Clean => (after.(server := Undo(s.server)), true)
    case Dropped => (after, false)
    case Blind => (after.(server := Undo(s.server)), false)
  }

  /** NULL and '' claims are the same to the client. */
  function Text(claims: Option<string>): string {
    if claims.Some? then claims.value else ""
  }
}
