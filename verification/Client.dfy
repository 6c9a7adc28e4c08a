/**
  The test client: run a body in a transaction, as another role, or expecting a rejection. The
  functions give each call's effect on the session; the class issues the calls one by one.
 */
module Client {
  import opened Prelude
  import opened Postgres
  import Quoting

  /** The claims option: leave the setting alone, set this JSON text, or a map that does not encode. */
  datatype Claims = Keep | Json(text: string) | Unencodable

  /** A test body. Errors may be swallowed; bodies nest arbitrarily. */
  datatype Body =
    | Exec(sql: string)
    | AsRole(role: string, claims: Claims, body: Body)
    | Rejected(sql: string)
    | Then(first: Body, second: Body)
    | Swallow(body: Body)
    | Fail

  datatype Error = Driver(privilege: bool) | Api | Assertion | Test

  type Result = Option<Error>

  /** How a role switch ended: before its savepoint, after the body with cleanup, or rolled back. */
  datatype Exit = Early | Finished | RolledBack(reverted: bool)

  /** Release the savepoint, then restore the role and claims captured before it. */
  function Leave(w: World, s: State, name: nat, user: string, prev: string, claims: Claims): (State, Result) {
    var (a, released) := Serve(w, s, Release(name));
    if released.Failed? then (a, Some(Driver(released.privilege)))
    else
      var (b, restored) := Serve(w, a, SetRole(user));
      if restored.Failed? then (b, Some(Driver(restored.privilege)))
      else if prev == "" && claims == Keep then (b, None)
      else
        var (c, put) := Serve(w, b, SetClaims(if prev != "" then Some(prev) else None));
        (c, if put.Failed? then Some(Driver(put.privilege)) else None)
  }

  function Revert(w: World, s: State, name: nat, err: Error): (State, Result, Exit) {
    var (a, r) := Serve(w, s, RollbackTo(name));
    (a, Some(err), RolledBack(r == Done))
  }

  /** Switch role and claims; None when that succeeds. */
  function Enter(w: World, s: State, role: string, claims: Claims): (State, Result) {
    var (a, put) := Serve(w, s, SetRole(role));
    if put.Failed? then (a, Some(Driver(put.privilege)))
    else match claims
      case Keep => (a, None)
      case Unencodable => (a, Some(Api))
      case Json(text) =>
        var (b, done) := Serve(w, a, SetClaims(Some(text)));
        (b, if done.Failed? then Some(Driver(done.privilege)) else None)
  }

  /** From the savepoint on: switch, run the body, and leave or revert. */
  function Inside(w: World, s: State, name: nat, user: string, prev: string, role: string, claims: Claims, body: Body)
    : (State, Result, Exit)
    decreases body, 3
  {
    var (a, failed) := Enter(w, s, role, claims);
    if failed.Some? then Revert(w, a, name, failed.value)
    else
      var (b, err) := Run(w, a, body);
      if err.Some? then Revert(w, b, name, err.value)
      else
        var (c, left) := Leave(w, b, name, user, prev, claims);
        (c, left, Finished)
  }

  /** A role switch up to its savepoint: refused on the way, or standing on it with what was captured. */
  datatype Opening = Refused(st: State, err: Error) | Opened(st: State, user: string, prev: string)

  /** Take a savepoint name, capture who is acting, and set the savepoint. */
  function OpenSwitch(w: World, s: State, role: string): Opening {
    if !Quoting.Quotable(role) then Refused(s, Api)
    else
      var (a, row) := Serve(w, s.(names := s.names + 1), Capture);
      if !row.Row? then Refused(a, Driver(row.Failed? && row.privilege))
      else if !Quoting.Quotable(row.user) then Refused(a, Api)
      else
        var (b, saved) := Serve(w, a, Savepoint(s.names));
        if saved.Failed? then Refused(b, Driver(saved.privilege)) else Opened(b, row.user, Text(row.claims))
  }

  function RunAs(w: World, s: State, role: string, claims: Claims, body: Body): (State, Result, Exit)
    decreases body, 4
  {
    match OpenSwitch(w, s, role)
    case Refused(st, err) => (st, Some(err), Early)
    case Opened(st, user, prev) => Inside(w, st, s.names, user, prev, role, claims, body)
  }

  /** A statement expected to be rejected: nil only for SQLSTATE 42501, rolled back. */
  function RunRejected(w: World, s: State, sql: string): (State, Result) {
    var (a, saved) := Serve(w, s.(names := s.names + 1), Savepoint(s.names));
    if saved.Failed? then (a, Some(Driver(saved.privilege)))
    else
      var (b, got) := Serve(w, a, Statement(sql));
      var (c, ended) := Serve(w, b, if got.Failed? then RollbackTo(s.names) else Release(s.names));
      if ended.Failed? then (c, Some(Driver(ended.privilege)))
      else (c, if got.Failed? && got.privilege then None else Some(Assertion))
  }

  function Run(w: World, s: State, b: Body): (State, Result)
    decreases b, 2
  {
    match b
    case Exec(sql) =>
      var (a, r) := Serve(w, s, Statement(sql));
      (a, if r.Failed? then Some(Driver(r.privilege)) else None)
    case AsRole(role, claims, body) =>
      var (a, r, _) := RunAs(w, s, role, claims, body);
      (a, r)
    case Rejected(sql) => RunRejected(w, s, sql)
    case Then(first, second) =>
      var (a, r) := Run(w, s, first);
      if r.Some? then (a, r) else Run(w, a, second)
    case Swallow(body) => (Run(w, s, body).0, None)
    case Fail => (s, Some(Test))
  }

  /** BEGIN, the body, and always a rollback, whose error never replaces the body's. */
  function RunTransaction(w: World, s: State, body: Body): (State, Result) {
    var (a, begun) := Serve(w, s, Begin);
    if begun.Failed? then (a, Some(Driver(begun.privilege)))
    else
      var (b, err) := Run(w, a, body);
      var (c, ok) := Rollback(w, b);
      (c, if err.None? && !ok then Some(Driver(false)) else err)
  }

  // --- what every body keeps, whatever fails on the way ---

  /** The savepoints below are untouched, and whatever lies above them was named since. */
  ghost predicate Above(a: State, b: State) {
    && a.names <= b.names && a.clock <= b.clock && a.server.begun == b.server.begun
    && a.server.stack <= b.server.stack
    && forall i :: |a.server.stack| <= i < |b.server.stack| ==> a.names <= b.server.stack[i].name < b.names
  }

  lemma AboveTransitive(a: State, b: State, c: State)
    requires Above(a, b) && Above(b, c)
    ensures Above(a, c)
  {
    forall i | |a.server.stack| <= i < |c.server.stack| ensures a.names <= c.server.stack[i].name < c.names {
      if i < |b.server.stack| { assert b.server.stack[i] == c.server.stack[i]; }
    }
  }

  predicate TouchesNoStack(c: Command) {
    c.Capture? || c.SetRole? || c.SetClaims? || c.Statement?
  }

  lemma ServeKeepsStack(w: World, s: State, c: Command)
    requires TouchesNoStack(c)
    ensures Above(s, Serve(w, s, c).0) && Serve(w, s, c).0.server.stack == s.server.stack
  {}

  /** Right above `base` lies the savepoint `base.names`, and names after it are larger. */
  ghost predicate Holding(base: State, s: State) {
    && base.names < s.names && base.clock <= s.clock && base.server.begun == s.server.begun
    && |s.server.stack| > |base.server.stack| && base.server.stack <= s.server.stack
    && s.server.stack[|base.server.stack|].name == base.names
    && forall i :: |base.server.stack| < i < |s.server.stack| ==> base.names < s.server.stack[i].name < s.names
  }

  lemma {:induction false} FindsTop(stack: seq<Save>, name: nat, k: nat)
    requires k < |stack| && stack[k].name == name && forall i :: k < i < |stack| ==> stack[i].name != name
    ensures FindSave(stack, name) == Some(k)
  {
    if k < |stack| - 1 {
      assert stack[|stack| - 1].name != name;
      FindsTop(stack[..|stack| - 1], name, k);
    }
  }

  lemma HoldingFinds(base: State, s: State)
    requires Holding(base, s)
    ensures FindSave(s.server.stack, base.names) == Some(|base.server.stack|)
  {
    FindsTop(s.server.stack, base.names, |base.server.stack|);
  }

  lemma HoldingGrows(base: State, a: State, b: State)
    requires Holding(base, a) && Above(a, b)
    ensures Holding(base, b)
  {
    assert b.server.stack[|base.server.stack|] == a.server.stack[|base.server.stack|];
    forall i | |base.server.stack| < i < |b.server.stack| ensures base.names < b.server.stack[i].name < b.names {
      if i < |a.server.stack| { assert a.server.stack[i] == b.server.stack[i]; }
    }
  }

  lemma HoldingIsAbove(base: State, s: State)
    requires Holding(base, s)
    ensures Above(base, s)
  {
    forall i | |base.server.stack| <= i < |s.server.stack| ensures base.names <= s.server.stack[i].name < s.names {}
  }

  /** A savepoint call leaves the stack alone or puts the new savepoint on top of it. */
  lemma SavepointHolds(w: World, s: State, base: State)
    requires s.server.stack == base.server.stack && s.server.begun == base.server.begun
    requires s.names == base.names + 1 && base.clock <= s.clock
    ensures Above(base, Serve(w, s, Savepoint(base.names)).0)
    ensures Serve(w, s, Savepoint(base.names)).1 == Done ==> Holding(base, Serve(w, s, Savepoint(base.names)).0)
  {}

  /** Ending the savepoint drops it or keeps it, and nothing below it. */
  lemma EndKeepsBase(w: World, base: State, s: State, c: Command)
    requires Holding(base, s) && c in {Release(base.names), RollbackTo(base.names)}
    ensures Above(base, Serve(w, s, c).0)
    ensures c.Release? && Serve(w, s, c).1 == Done ==>
              Serve(w, s, c).0.server == s.server.(stack := base.server.stack) && !s.server.aborted
    ensures c.RollbackTo? && Serve(w, s, c).1 == Done ==>
              var save := s.server.stack[|base.server.stack|];
              Serve(w, s, c).0.server ==
              Server(save.role, Reverted(save.claims, s.server.claims), save.data,
                     base.server.stack + [save], false, s.server.begun)
    ensures Serve(w, s, c).1 in {Done, Failed(false)}
  {
    HoldingFinds(base, s);
    HoldingIsAbove(base, s);
    var k := |base.server.stack|;
    assert s.server.stack[..k] == base.server.stack;
    assert s.server.stack[..k + 1] == base.server.stack + [s.server.stack[k]];
    if s.server.aborted && c.Release? {
    } else if c.Release? {
    } else {
      assert (base.server.stack + [s.server.stack[k]])[..k] == base.server.stack;
    }
  }

  lemma EnterKeepsStack(w: World, s: State, role: string, claims: Claims)
    ensures Above(s, Enter(w, s, role, claims).0) && Enter(w, s, role, claims).0.server.stack == s.server.stack
  {
    ServeKeepsStack(w, s, SetRole(role));
    var a := Serve(w, s, SetRole(role)).0;
    if claims.Json? {
      ServeKeepsStack(w, a, SetClaims(Some(claims.text)));
    }
  }

  lemma CaptureReads(w: World, s: State)
    ensures Serve(w, s, Capture).0 == s.(clock := s.clock + 1)
    ensures Serve(w, s, Capture).1.Row? ==>
            Serve(w, s, Capture).1 == Row(s.server.role, s.server.claims) && !s.server.aborted
  {}

  lemma SavepointSaves(w: World, base: State, s: State)
    requires s.server == base.server && s.names == base.names + 1 && base.clock <= s.clock
    ensures var (after, r) := Serve(w, s, Savepoint(base.names));
            && (r == Done ==>
                  && base.server.begun.Some? && !base.server.aborted
                  && after.server == base.server.(stack := base.server.stack
                       + [Save(base.names, base.server.role, base.server.claims, base.server.data)]))
            && (r != Done ==> r.Failed? && after.server.aborted == base.server.aborted
                              && after.server.role == base.server.role && after.server.claims == base.server.claims)
  {}

  /**
    A switch that is refused has changed nothing but perhaps left a savepoint; one that opens
    has captured who was acting and stands on a savepoint of exactly that state.
   */
  lemma OpenFacts(w: World, s: State, role: string)
    ensures match OpenSwitch(w, s, role)
            case Refused(st, _) =>
              && Above(s, st) && st.server.aborted == s.server.aborted
              && st.server.role == s.server.role && st.server.claims == s.server.claims
            case Opened(st, user, prev) =>
              && Holding(s, st) && user == s.server.role && prev == Text(s.server.claims)
              && s.server.begun.Some? && !s.server.aborted
              && st.server == s.server.(stack := s.server.stack
                   + [Save(s.names, s.server.role, s.server.claims, s.server.data)])
  {
    if Quoting.Quotable(role) {
      var named := s.(names := s.names + 1);
      CaptureReads(w, named);
      var a := Serve(w, named, Capture).0;
      SavepointHolds(w, a, s);
      SavepointSaves(w, s, a);
    }
  }

  lemma LeaveKeepsBase(w: World, base: State, s: State, user: string, prev: string, claims: Claims)
    requires Holding(base, s)
    ensures Above(base, Leave(w, s, base.names, user, prev, claims).0)
    ensures Leave(w, s, base.names, user, prev, claims).1.None? ==>
              Leave(w, s, base.names, user, prev, claims).0.server.stack == base.server.stack
  {
    EndKeepsBase(w, base, s, Release(base.names));
    var (a, released) := Serve(w, s, Release(base.names));
    if !released.Failed? {
      ServeKeepsStack(w, a, SetRole(user));
      var (b, restored) := Serve(w, a, SetRole(user));
      AboveTransitive(base, a, b);
      if !restored.Failed? && !(prev == "" && claims == Keep) {
        var v := if prev != "" then Some(prev) else None;
        ServeKeepsStack(w, b, SetClaims(v));
        AboveTransitive(base, b, Serve(w, b, SetClaims(v)).0);
      }
    }
  }

  lemma RejectedKeepsStack(w: World, s: State, sql: string)
    ensures Above(s, RunRejected(w, s, sql).0)
  {
    var named := s.(names := s.names + 1);
    SavepointHolds(w, named, s);
    var (a, saved) := Serve(w, named, Savepoint(s.names));
    if !saved.Failed? {
      var (d, got) := Serve(w, a, Statement(sql));
      ServeKeepsStack(w, a, Statement(sql));
      HoldingGrows(s, a, d);
      EndKeepsBase(w, s, d, if got.Failed? then RollbackTo(s.names) else Release(s.names));
    }
  }

  /** Whatever fails on the wire and wherever errors are swallowed, a body never disturbs the savepoints below it. */
  lemma {:induction false} BodyKeepsStack(w: World, s: State, b: Body)
    ensures Above(s, Run(w, s, b).0)
    decreases b, 2
  {
    match b
    case Exec(sql) => ServeKeepsStack(w, s, Statement(sql));
    case AsRole(role, claims, body) => AsRoleKeepsStack(w, s, role, claims, body);
    case Rejected(sql) => RejectedKeepsStack(w, s, sql);
    case Then(first, second) =>
      BodyKeepsStack(w, s, first);
      var (a, r) := Run(w, s, first);
      if r.None? {
        BodyKeepsStack(w, a, second);
        AboveTransitive(s, a, Run(w, a, second).0);
      }
    case Swallow(body) => BodyKeepsStack(w, s, body);
    case Fail =>
  }

  lemma {:induction false} AsRoleKeepsStack(w: World, s: State, role: string, claims: Claims, body: Body)
    ensures Above(s, RunAs(w, s, role, claims, body).0)
    decreases body, 4
  {
    OpenFacts(w, s, role);
    var o := OpenSwitch(w, s, role);
    if o.Opened? {
      InsideKeepsStack(w, s, o.st, o.user, o.prev, role, claims, body);
    }
  }

  lemma {:induction false} InsideKeepsStack(w: World, base: State, s: State, user: string, prev: string, role: string,
                                            claims: Claims, body: Body)
    requires Holding(base, s)
    ensures Above(base, Inside(w, s, base.names, user, prev, role, claims, body).0)
    decreases body, 3
  {
    EnterKeepsStack(w, s, role, claims);
    var (a, failed) := Enter(w, s, role, claims);
    HoldingGrows(base, s, a);
    if failed.Some? {
      EndKeepsBase(w, base, a, RollbackTo(base.names));
    } else {
      BodyKeepsStack(w, a, body);
      var (b, err) := Run(w, a, body);
      HoldingGrows(base, a, b);
      if err.Some? {
        EndKeepsBase(w, base, b, RollbackTo(base.names));
      } else {
        LeaveKeepsBase(w, base, b, user, prev, claims);
      }
    }
  }

  // --- a role switch that returns nil ---

  /** The state the body of a role switch runs in, if it gets that far. */
  function Entry(w: World, s: State, role: string, claims: Claims): Option<State> {
    var o := OpenSwitch(w, s, role);
    if o.Refused? then None
    else
      var (a, failed) := Enter(w, o.st, role, claims);
      if failed.Some? then None else Some(a)
  }

  lemma LeaveRestores(w: World, base: State, s: State, user: string, prev: string, claims: Claims)
    requires Holding(base, s) && Leave(w, s, base.names, user, prev, claims).1.None? && s.server.begun.Some?
    ensures var after := Leave(w, s, base.names, user, prev, claims).0.server;
            && after.role == user && after.stack == base.server.stack && after.data == s.server.data && !after.aborted
            && Text(after.claims) == if prev != "" || claims != Keep then prev else Text(s.server.claims)
  {
    EndKeepsBase(w, base, s, Release(base.names));
  }

  /**
    After a role switch returns nil, whatever was nested in its body and whatever calls failed
    on the wire in it: the role and the savepoint stack are what they were, the transaction is
    usable, and the data is exactly what the body left. The claims are what they were if there
    were any to restore or the switch was given some; otherwise they are what the body left.
   */
  lemma NilRestores(w: World, s: State, role: string, claims: Claims, body: Body)
    requires RunAs(w, s, role, claims, body).1.None?
    ensures Entry(w, s, role, claims).Some?
    ensures var left := Run(w, Entry(w, s, role, claims).value, body);
            var after := RunAs(w, s, role, claims, body).0.server;
            && left.1.None?
            && after.role == s.server.role && after.stack == s.server.stack && !after.aborted
            && after.data == left.0.server.data
            && Text(after.claims) == if Text(s.server.claims) != "" || claims != Keep then Text(s.server.claims)
                                     else Text(left.0.server.claims)
  {
    OpenFacts(w, s, role);
    var b := OpenSwitch(w, s, role).st;
    EnterKeepsStack(w, b, role, claims);
    var c := Enter(w, b, role, claims).0;
    HoldingGrows(s, b, c);
    BodyKeepsStack(w, c, body);
    var d := Run(w, c, body).0;
    HoldingGrows(s, c, d);
    LeaveRestores(w, s, d, s.server.role, Text(s.server.claims), claims);
  }

  // --- without failures on the wire, bodies leave the actor alone ---

  ghost predicate WireClean(w: World, from: nat, to: nat) {
    forall t :: from <= t < to ==> w.fault(t) == Fault.Clean
  }

  /** Either the transaction is aborted, or role and claims are as they were; an aborted one stays aborted. */
  ghost predicate SameActor(a: Server, b: Server) {
    && (a.aborted ==> b.aborted)
    && (!b.aborted ==> b.role == a.role && Text(b.claims) == Text(a.claims))
  }

  lemma RevertRestores(w: World, base: State, s: State, err: Error)
    requires Holding(base, s)
    requires var save := s.server.stack[|base.server.stack|];
             save == Save(base.names, base.server.role, base.server.claims, base.server.data)
    ensures var (after, r, how) := Revert(w, s, base.names, err);
            && r == Some(err)
            && (how == RolledBack(true) ==>
                  && after.server.role == base.server.role && Text(after.server.claims) == Text(base.server.claims)
                  && after.server.data == base.server.data && !after.server.aborted
                  && after.server.stack == base.server.stack + [s.server.stack[|base.server.stack|]])
            && (w.fault(s.clock) == Fault.Clean ==> how == RolledBack(true))
  {
    EndKeepsBase(w, base, s, RollbackTo(base.names));
    HoldingFinds(base, s);
  }

  /** Statements raise or write, but set neither role nor claims; nothing un-aborts a transaction but its savepoint. */
  lemma {:induction false} CleanBodyKeepsActor(w: World, s: State, b: Body)
    requires s.server.begun.Some? && WireClean(w, s.clock, Run(w, s, b).0.clock)
    ensures SameActor(s.server, Run(w, s, b).0.server) && Run(w, s, b).0.server.begun == s.server.begun
    decreases b, 2
  {
    BodyKeepsStack(w, s, b);
    match b
    case Exec(sql) =>
    case AsRole(role, claims, body) => CleanAsRoleKeepsActor(w, s, role, claims, body);
    case Rejected(sql) => RejectedKeepsActor(w, s, sql);
    case Then(first, second) =>
      BodyKeepsStack(w, s, first);
      var (a, r) := Run(w, s, first);
      if r.None? { BodyKeepsStack(w, a, second); }
      CleanBodyKeepsActor(w, s, first);
      if r.None? { CleanBodyKeepsActor(w, a, second); }
    case Swallow(body) => CleanBodyKeepsActor(w, s, body);
    case Fail =>
  }

  lemma RejectedKeepsActor(w: World, s: State, sql: string)
    requires s.server.begun.Some? && WireClean(w, s.clock, RunRejected(w, s, sql).0.clock)
    ensures SameActor(s.server, RunRejected(w, s, sql).0.server)
  {
    var named := s.(names := s.names + 1);
    SavepointHolds(w, named, s);
    var (a, saved) := Serve(w, named, Savepoint(s.names));
    if !saved.Failed? {
      SavepointSaves(w, s, named);
      var (d, got) := Serve(w, a, Statement(sql));
      ServeKeepsStack(w, a, Statement(sql));
      HoldingGrows(s, a, d);
      EndKeepsBase(w, s, d, if got.Failed? then RollbackTo(s.names) else Release(s.names));
      HoldingFinds(s, d);
    }
  }

  lemma {:induction false} CleanAsRoleKeepsActor(w: World, s: State, role: string, claims: Claims, body: Body)
    requires s.server.begun.Some? && WireClean(w, s.clock, RunAs(w, s, role, claims, body).0.clock)
    ensures SameActor(s.server, RunAs(w, s, role, claims, body).0.server)
    decreases body, 4
  {
    OpenFacts(w, s, role);
    var o := OpenSwitch(w, s, role);
    if o.Opened? {
      CleanInsideKeepsActor(w, s, o.st, role, claims, body);
    }
  }

  lemma {:induction false} CleanInsideKeepsActor(w: World, base: State, s: State, role: string, claims: Claims,
                                                 body: Body)
    requires base.server.begun.Some? && !base.server.aborted && Holding(base, s)
    requires s.server == base.server.(stack := base.server.stack
               + [Save(base.names, base.server.role, base.server.claims, base.server.data)])
    requires WireClean(w, s.clock, Inside(w, s, base.names, base.server.role, Text(base.server.claims), role, claims,
             body).0.clock)
    ensures SameActor(base.server, Inside(w, s, base.names, base.server.role, Text(base.server.claims), role, claims,
            body).0.server)
    decreases body, 3
  {
    EnterKeepsStack(w, s, role, claims);
    var (a, failed) := Enter(w, s, role, claims);
    HoldingGrows(base, s, a);
    if failed.Some? {
      RevertRestores(w, base, a, failed.value);
    } else {
      BodyKeepsStack(w, a, body);
      var (b, err) := Run(w, a, body);
      HoldingGrows(base, a, b);
      assert b.server.stack[|base.server.stack|] == a.server.stack[|base.server.stack|];
      if err.Some? {
        RevertRestores(w, base, b, err.value);
      } else {
        CleanBodyKeepsActor(w, a, body);
        EnterKeepsClaims(w, s, role, claims);
        CleanFinish(w, base, s, a, b, claims);
      }
    }
  }

  lemma CleanFinish(w: World, base: State, s: State, a: State, b: State, claims: Claims)
    requires !base.server.aborted && Holding(base, b) && b.server.begun.Some? && SameActor(a.server, b.server)
    requires s.server.claims == base.server.claims && (claims == Keep ==> a.server.claims == s.server.claims)
    requires WireClean(w, b.clock, Leave(w, b, base.names, base.server.role, Text(base.server.claims), claims).0.clock)
    ensures SameActor(base.server, Leave(w, b, base.names, base.server.role, Text(base.server.claims), claims).0.server)
  {
    CleanLeave(w, base, b, base.server.role, Text(base.server.claims), claims);
  }

  lemma EnterKeepsClaims(w: World, s: State, role: string, claims: Claims)
    ensures Enter(w, s, role, claims).1.None? && claims == Keep ==>
              Enter(w, s, role, claims).0.server.claims == s.server.claims
  {}

  /** On a clean wire, leaving either finishes, or aborts the transaction. */
  lemma CleanLeave(w: World, base: State, s: State, user: string, prev: string, claims: Claims)
    requires Holding(base, s) && s.server.begun.Some?
    requires WireClean(w, s.clock, Leave(w, s, base.names, user, prev, claims).0.clock)
    ensures var (after, r) := Leave(w, s, base.names, user, prev, claims);
            && (r.Some? ==> after.server.aborted)
            && (r.None? ==>
                  (&& !s.server.aborted && after.server.role == user
                   && Text(after.server.claims) ==
                      if prev != "" || claims != Keep then prev else Text(s.server.claims)))
  {
    EndKeepsBase(w, base, s, Release(base.names));
    HoldingFinds(base, s);
    assert w.fault(s.clock) == Fault.Clean;
  }

  /** So on a clean wire a role switch that returns nil restores the claims unconditionally. */
  lemma CleanNilRestoresClaims(w: World, s: State, role: string, claims: Claims, body: Body)
    requires RunAs(w, s, role, claims, body).1.None? && s.server.begun.Some?
    requires WireClean(w, s.clock, RunAs(w, s, role, claims, body).0.clock)
    ensures Text(RunAs(w, s, role, claims, body).0.server.claims) == Text(s.server.claims)
  {
    NilRestores(w, s, role, claims, body);
    CleanAsRoleKeepsActor(w, s, role, claims, body);
  }

  // --- a role switch that fails, and an expected rejection ---

  /**
    When the body of a role switch fails at any depth and the rollback goes through: role,
    claims and data are those before the switch, the transaction is usable, and the switch's
    savepoint stays on top of the old stack.
   */
  lemma FailureReverts(w: World, s: State, role: string, claims: Claims, body: Body)
    requires RunAs(w, s, role, claims, body).2 == RolledBack(true)
    ensures var (after, r, _) := RunAs(w, s, role, claims, body);
            && r.Some?
            && after.server.role == s.server.role && Text(after.server.claims) == Text(s.server.claims)
            && after.server.data == s.server.data && !after.server.aborted
            && after.server.stack == s.server.stack + [Save(s.names, s.server.role, s.server.claims, s.server.data)]
  {
    OpenFacts(w, s, role);
    var b := OpenSwitch(w, s, role).st;
    EnterKeepsStack(w, b, role, claims);
    var (c, failed) := Enter(w, b, role, claims);
    HoldingGrows(s, b, c);
    if failed.Some? {
      RevertRestores(w, s, c, failed.value);
    } else {
      BodyKeepsStack(w, c, body);
      var (d, err) := Run(w, c, body);
      HoldingGrows(s, c, d);
      assert d.server.stack[|s.server.stack|] == c.server.stack[|s.server.stack|];
      RevertRestores(w, s, d, err.value);
    }
  }

  /** An expected rejection that returns nil leaves data, role and claims alone; its savepoint stays. */
  lemma RejectionLeavesNoTrace(w: World, s: State, sql: string)
    requires RunRejected(w, s, sql).1.None?
    ensures var after := RunRejected(w, s, sql).0.server;
            && after.role == s.server.role && Text(after.claims) == Text(s.server.claims)
            && after.data == s.server.data && !after.aborted
            && after.stack == s.server.stack + [Save(s.names, s.server.role, s.server.claims, s.server.data)]
  {
    var named := s.(names := s.names + 1);
    SavepointHolds(w, named, s);
    SavepointSaves(w, s, named);
    var a := Serve(w, named, Savepoint(s.names)).0;
    ServeKeepsStack(w, a, Statement(sql));
    var d := Serve(w, a, Statement(sql)).0;
    HoldingGrows(s, a, d);
    EndKeepsBase(w, s, d, RollbackTo(s.names));
  }

  /** A statement that does write is reported, never nil, and the server accepts an error only for SQLSTATE 42501. */
  lemma RejectionMeansRejected(w: World, s: State, sql: string)
    requires RunRejected(w, s, sql).1.None?
    ensures w.run(sql, s.server.role, s.server.claims, s.server.data) == Raised(true)
  {
    SavepointSaves(w, s, s.(names := s.names + 1));
  }

  // --- the transaction ---

  /**
    A transaction whose rollback goes through leaves role, claims and data as at BEGIN, and the
    body's error is never replaced.
   */
  lemma TransactionLeavesNoTrace(w: World, s: State, body: Body)
    requires s.server.begun.None? && !s.server.aborted && Serve(w, s, Begin).1 == Done
    ensures var (after, r) := RunTransaction(w, s, body);
            var (end, err) := Run(w, Serve(w, s, Begin).0, body);
            && (err.Some? ==> r == err)
            && (err.None? ==> (r.None? <==> Rollback(w, end).1))
            && (w.fault(end.clock) != Dropped ==>
                  && after.server.role == s.server.role && Text(after.server.claims) == Text(s.server.claims)
                  && after.server.data == s.server.data
                  && after.server.stack == [] && !after.server.aborted && after.server.begun.None?)
  {
    var a := Serve(w, s, Begin).0;
    BodyKeepsStack(w, a, body);
  }

  // --- why the claims need the guard ---

  /** Everything succeeds, except that one driver call is lost on the wire. */
  function LossyWorld(lost: nat): World {
    World(role => true, (sql, role, claims, data) => Wrote(data), t => if t == lost then Dropped else Fault.Clean)
  }

  /** An inner switch with claims whose restore is lost after its release, its error swallowed by the outer body. */
  function Leaky(inner: string, text: string, sql: string): Body {
    Swallow(AsRole(inner, Json(text), Exec(sql)))
  }

  /**
    A state of the leaking run: `calls` further on, with `more` names taken, as `role`, with these
    claims and savepoints.
   */
  function LeakAt(s: State, calls: nat, more: nat, role: string, claims: Option<string>, stack: seq<Save>): State {
    State(s.server.(role := role, claims := claims, stack := stack), s.clock + calls, s.names + more)
  }

  function SaveAs(s: State, more: nat, role: string): Save {
    Save(s.names + more, role, s.server.claims, s.server.data)
  }

  /** In a transaction that is not aborted, with a role the client can quote back and no claims in force. */
  predicate Unclaimed(s: State) {
    s.server.begun.Some? && !s.server.aborted && Quoting.Quotable(s.server.role) && Text(s.server.claims) == ""
  }

  lemma TopIsFound(stack: seq<Save>, save: Save)
    ensures FindSave(stack + [save], save.name) == Some(|stack|) && (stack + [save])[..|stack|] == stack
  {}

  /** A switch whose steps are known. */
  lemma SwitchSteps(w: World, s: State, role: string, claims: Claims, body: Body, user: string, prev: string,
                    b: State, c: State, d: State)
    requires OpenSwitch(w, s, role) == Opened(b, user, prev) && Enter(w, b, role, claims) == (c, None)
    requires Run(w, c, body) == (d, None)
    ensures var (e, r) := Leave(w, d, s.names, user, prev, claims); RunAs(w, s, role, claims, body) == (e, r, Finished)
  {}

  lemma InnerOpens(w: World, s: State, role: string, inner: string, text: string, outer: seq<Save>)
    requires w == LossyWorld(s.clock + 9) && Unclaimed(s) && Quoting.Quotable(role) && Quoting.Quotable(inner)
    ensures var b := LeakAt(s, 5, 2, role, s.server.claims, outer + [SaveAs(s, 1, role)]);
            && OpenSwitch(w, LeakAt(s, 3, 1, role, s.server.claims, outer), inner) == Opened(b, role, "")
            && Enter(w, b, inner, Json(text)) ==
                (LeakAt(s, 7, 2, inner, Some(text), outer + [SaveAs(s, 1, role)]), None)
  {
    var a := Serve(w, LeakAt(s, 3, 1, role, s.server.claims, outer).(names := s.names + 2), Capture).0;
    assert a == LeakAt(s, 4, 2, role, s.server.claims, outer);
  }

  /** The inner switch is released, and then its restore is lost. */
  lemma InnerLeaks(w: World, s: State, role: string, inner: string, text: string, sql: string, outer: seq<Save>)
    requires w == LossyWorld(s.clock + 9) && Unclaimed(s) && Quoting.Quotable(role) && Quoting.Quotable(inner)
    ensures RunAs(w, LeakAt(s, 3, 1, role, s.server.claims, outer), inner, Json(text), Exec(sql)).0
            == LeakAt(s, 10, 2, inner, Some(text), outer)
  {
    var start, stack := LeakAt(s, 3, 1, role, s.server.claims, outer), outer + [SaveAs(s, 1, role)];
    var c, d := LeakAt(s, 7, 2, inner, Some(text), stack), LeakAt(s, 8, 2, inner, Some(text), stack);
    InnerOpens(w, s, role, inner, text, outer);
    assert Run(w, c, Exec(sql)) == (d, None);
    TopIsFound(outer, SaveAs(s, 1, role));
    assert Serve(w, d, Release(s.names + 1)) == (LeakAt(s, 9, 2, inner, Some(text), outer), Done);
    SwitchSteps(w, start, inner, Json(text), Exec(sql), role, "", LeakAt(s, 5, 2, role, s.server.claims, stack), c, d);
  }

  lemma OuterOpens(w: World, s: State, role: string, stack: seq<Save>)
    requires w == LossyWorld(s.clock + 9) && Unclaimed(s) && Quoting.Quotable(role)
    requires stack == s.server.stack + [SaveAs(s, 0, s.server.role)]
    ensures var b := LeakAt(s, 2, 1, s.server.role, s.server.claims, stack);
            && OpenSwitch(w, s, role) == Opened(b, s.server.role, "")
            && Enter(w, b, role, Keep) == (LeakAt(s, 3, 1, role, s.server.claims, stack), None)
  {
    var a := Serve(w, s.(names := s.names + 1), Capture).0;
    assert a == LeakAt(s, 1, 1, s.server.role, s.server.claims, s.server.stack);
  }

  lemma OuterLeaves(w: World, s: State, inner: string, text: string, stack: seq<Save>)
    requires w == LossyWorld(s.clock + 9) && Unclaimed(s) && stack == s.server.stack + [SaveAs(s, 0, s.server.role)]
    ensures Leave(w, LeakAt(s, 10, 2, inner, Some(text), stack), s.names, s.server.role, "", Keep)
            == (LeakAt(s, 12, 2, s.server.role, Some(text), s.server.stack), None)
  {
    TopIsFound(s.server.stack, SaveAs(s, 0, s.server.role));
  }

  lemma LeakyRuns(w: World, s: State, inner: string, text: string, sql: string)
    ensures Run(w, s, Leaky(inner, text, sql)) == (RunAs(w, s, inner, Json(text), Exec(sql)).0, None)
  {}

  lemma OuterLeaks(w: World, s: State, role: string, body: Body, inner: string, text: string, stack: seq<Save>)
    requires w == LossyWorld(s.clock + 9) && Unclaimed(s) && Quoting.Quotable(role)
    requires stack == s.server.stack + [SaveAs(s, 0, s.server.role)]
    requires Run(w, LeakAt(s, 3, 1, role, s.server.claims, stack), body) ==
             (LeakAt(s, 10, 2, inner, Some(text), stack), None)
    ensures RunAs(w, s, role, Keep, body) ==
            (LeakAt(s, 12, 2, s.server.role, Some(text), s.server.stack), None, Finished)
  {
    OuterOpens(w, s, role, stack);
    OuterLeaves(w, s, inner, text, stack);
    SwitchSteps(w, s, role, Keep, body, s.server.role, "", LeakAt(s, 2, 1, s.server.role, s.server.claims, stack),
                LeakAt(s, 3, 1, role, s.server.claims, stack), LeakAt(s, 10, 2, inner, Some(text), stack));
  }

  /**
    With nothing to restore and no claims of its own, an outer switch cannot undo claims a nested
    switch failed to clear: from every such session it returns nil on this wire, and the inner
    actor's claims stay in force.
   */
  lemma ClaimsCanLeak(s: State, role: string, inner: string, text: string, sql: string)
    requires Unclaimed(s) && Quoting.Quotable(role) && Quoting.Quotable(inner)
    ensures var (after, r, _) := RunAs(LossyWorld(s.clock + 9), s, role, Keep, Leaky(inner, text, sql));
            r.None? && after.server.role == s.server.role && Text(after.server.claims) == text
  {
    var w, stack := LossyWorld(s.clock + 9), s.server.stack + [SaveAs(s, 0, s.server.role)];
    InnerLeaks(w, s, role, inner, text, sql, stack);
    LeakyRuns(w, LeakAt(s, 3, 1, role, s.server.claims, stack), inner, text, sql);
    OuterLeaks(w, s, role, Leaky(inner, text, sql), inner, text, stack);
  }

  /** The switch never returns nil with other claims in force, whatever the body and the wire. */
  ghost predicate AlwaysRestoresClaims(s: State, role: string, claims: Claims) {
    forall w, body :: RunAs(w, s, role, claims, body).1.None? ==>
        Text(RunAs(w, s, role, claims, body).0.server.claims) == Text(s.server.claims)
  }

  /** A role switch restores the claims for sure exactly when some were in force or it is given some itself. */
  lemma ClaimsGuardExact(s: State, role: string, claims: Claims)
    requires s.server.begun.Some? && !s.server.aborted && Quoting.Quotable(s.server.role) && Quoting.Quotable(role)
    ensures AlwaysRestoresClaims(s, role, claims) <==> Text(s.server.claims) != "" || claims != Keep
  {
    if Text(s.server.claims) != "" || claims != Keep {
      forall w, body | RunAs(w, s, role, claims, body).1.None?
        ensures Text(RunAs(w, s, role, claims, body).0.server.claims) == Text(s.server.claims)
      {
        NilRestores(w, s, role, claims, body);
      }
    } else {
      ClaimsCanLeak(s, role, role, "{}", "SELECT 1");
    }
  }

  // --- the calls, issued one by one ---

  class TestClient {
    const w: World
    var st: State

    constructor (w: World, st: State)
      ensures this.w == w && this.st == st
    {
      this.w := w;
      this.st := st;
    }

    method Query(c: Command) returns (r: Reply)
      modifies this
      ensures (st, r) == Serve(w, old(st), c)
    {
      var (next, reply) := Serve(w, st, c);
      st, r := next, reply;
    }

    /** A locally generated savepoint name. */
    method NewSavepointName() returns (name: nat)
      modifies this
      ensures name == old(st).names && st == old(st).(names := name + 1)
    {
      name := st.names;
      st := st.(names := name + 1);
    }

    method SwitchRole(role: string, claims: Claims, body: Body) returns (err: Result)
      modifies this
      ensures st == RunAs(w, old(st), role, claims, body).0 && err == RunAs(w, old(st), role, claims, body).1
      decreases body, 5
    {
      var savepoint := st.names;
      var o := OpenSavepoint(role);
      if o.Refused? {
        return Some(o.err);
      }
      err := SwitchInside(savepoint, o.user, o.prev, role, claims, body);
    }

    /** Capture who is acting and set the savepoint a switch is undone by. */
    method OpenSavepoint(role: string) returns (o: Opening)
      modifies this
      ensures o == OpenSwitch(w, old(st), role) && st == o.st
    {
      if Quoting.QuoteIdent(role).None? {
        return Refused(st, Api);
      }
      var savepoint := NewSavepointName();
      var captured := Query(Capture);
      if !captured.Row? {
        return Refused(st, Driver(captured.Failed? && captured.privilege));
      }
      if Quoting.QuoteIdent(captured.user).None? {
        return Refused(st, Api);
      }
      var saved := Query(Savepoint(savepoint));
      o := if saved.Failed? then Refused(st, Driver(saved.privilege))
          else Opened(st, captured.user, Text(captured.claims));
    }

    /** From the savepoint on; the cleanup depends on whether the body succeeded. */
    method SwitchInside(savepoint: nat, user: string, prevClaims: string, role: string, claims: Claims, body: Body)
      returns (err: Result)
      modifies this
      ensures st == Inside(w, old(st), savepoint, user, prevClaims, role, claims, body).0
      ensures err == Inside(w, old(st), savepoint, user, prevClaims, role, claims, body).1
      decreases body, 4
    {
      var bodyOK := false;
      err := SwitchAndRun(role, claims, body);
      if err.None? {
        bodyOK := true;
      }
      if bodyOK {
        err := Restore(savepoint, user, prevClaims, claims);
      } else {
        var rolledBack := Query(RollbackTo(savepoint));
      }
    }

    /** Set the role and the claims, then run the body. */
    method SwitchAndRun(role: string, claims: Claims, body: Body) returns (err: Result)
      modifies this
      ensures var (a, failed) := Enter(w, old(st), role, claims);
              if failed.Some? then st == a && err == failed else (st, err) == Run(w, a, body)
      decreases body, 3
    {
      var r := Query(SetRole(role));
      if r.Failed? {
        return Some(Driver(r.privilege));
      }
      if claims == Unencodable {
        return Some(Api);
      }
      if claims.Json? {
        var c := Query(SetClaims(Some(claims.text)));
        if c.Failed? {
          return Some(Driver(c.privilege));
        }
      }
      err := RunBody(body);
    }

    method Restore(savepoint: nat, user: string, prevClaims: string, claims: Claims) returns (err: Result)
      modifies this
      ensures (st, err) == Leave(w, old(st), savepoint, user, prevClaims, claims)
    {
      var r := Query(Release(savepoint));
      if r.Failed? {
        return Some(Driver(r.privilege));
      }
      r := Query(SetRole(user));
      if r.Failed? {
        return Some(Driver(r.privilege));
      }
      if prevClaims != "" {
        r := Query(SetClaims(Some(prevClaims)));
        if r.Failed? {
          return Some(Driver(r.privilege));
        }
      } else if claims != Keep {
        r := Query(SetClaims(None));
        if r.Failed? {
          return Some(Driver(r.privilege));
        }
      }
      err := None;
    }

    method AssertRejected(sql: string) returns (err: Result)
      modifies this
      ensures (st, err) == RunRejected(w, old(st), sql)
    {
      var savepoint := NewSavepointName();
      var saved := Query(Savepoint(savepoint));
      if saved.Failed? {
        return Some(Driver(saved.privilege));
      }
      var got := Query(Statement(sql));
      var rejectedAsExpected := got.Failed? && got.privilege;
      var unexpectedError := got.Failed? && !got.privilege;
      var ended;
      if rejectedAsExpected || unexpectedError {
        ended := Query(RollbackTo(savepoint));
      } else {
        ended := Query(Release(savepoint));
      }
      if ended.Failed? {
        return Some(Driver(ended.privilege));
      }
      err := if rejectedAsExpected then None else Some(Assertion);
    }

    method RunBody(b: Body) returns (err: Result)
      modifies this
      ensures (st, err) == Run(w, old(st), b)
      decreases b, 2
    {
      match b {
        case Exec(sql) =>
          var r := Query(Statement(sql));
          err := if r.Failed? then Some(Driver(r.privilege)) else None;
        case AsRole(role, claims, body) =>
          err := SwitchRole(role, claims, body);
        case Rejected(sql) =>
          err := AssertRejected(sql);
        case Then(first, second) =>
          err := RunBody(first);
          if err.None? {
            err := RunBody(second);
          }
        case Swallow(body) =>
          var ignored := RunBody(body);
          err := None;
        case Fail =>
          err := Some(Test);
      }
    }

    method Transaction(body: Body) returns (err: Result)
      modifies this
      ensures (st, err) == RunTransaction(w, old(st), body)
    {
      var begun := Query(Begin);
      if begun.Failed? {
        return Some(Driver(begun.privilege));
      }
      err := RunBody(body);
      var (next, ok) := Rollback(w, st);
      st := next;
      if err.None? && !ok {
        err := Some(Driver(false));
      }
    }
  }
}
