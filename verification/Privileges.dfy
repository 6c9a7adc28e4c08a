/** Who holds which privilege: role inheritance and the grants, ownership and data roles it carries. */
module Privileges {
  import opened Prelude
  import opened Cells

  datatype Role = Role(name: string, superuser: bool, bypassrls: bool)

  /** `GRANT role TO member`; privileges flow only when `inherits` is set. */
  datatype Membership = Membership(member: string, role: string, inherits: bool)

  datatype Grant = Grant(role: string, privileges: set<Command>)

  datatype ColumnGrant = ColumnGrant(role: string, column: string, privileges: set<Command>)

  /** The access-control part of a table or view. An owner of "" was not captured. */
  datatype Acl = Acl(owner: string, grants: seq<Grant>, columnGrants: seq<ColumnGrant>)

  const PUBLIC := "PUBLIC"

  // --- inheritance, as a chain of INHERIT edges ---

  ghost predicate IsChain(edges: seq<Membership>, chain: seq<string>) {
    |chain| > 0 && forall i :: 0 < i < |chain| ==> Membership(chain[i - 1], chain[i], true) in edges
  }

  /** `role` holds the privileges of `target`: itself, or reached along INHERIT edges. */
  ghost predicate Inherits(edges: seq<Membership>, role: string, target: string) {
    exists chain :: IsChain(edges, chain) && chain[0] == role && chain[|chain| - 1] == target
  }

  ghost predicate InheritsAny(edges: seq<Membership>, seed: set<string>, target: string) {
    exists role :: role in seed && Inherits(edges, role, target)
  }

  lemma InheritsSelf(edges: seq<Membership>, role: string)
    ensures Inherits(edges, role, role)
  {
    assert IsChain(edges, [role]) && [role][0] == role && [role][|[role]| - 1] == role;
  }

  lemma InheritsStep(edges: seq<Membership>, seed: set<string>, a: string, b: string)
    requires InheritsAny(edges, seed, a) && Membership(a, b, true) in edges
    ensures InheritsAny(edges, seed, b)
  {
    var role :| role in seed && Inherits(edges, role, a);
    var chain :| IsChain(edges, chain) && chain[0] == role && chain[|chain| - 1] == a;
    var longer := chain + [b];
    forall i | 0 < i < |longer| ensures Membership(longer[i - 1], longer[i], true) in edges {
      if i < |chain| { assert longer[i - 1] == chain[i - 1] && longer[i] == chain[i]; }
    }
    assert IsChain(edges, longer) && longer[0] == role && longer[|longer| - 1] == b;
  }

  lemma {:induction false} ClosedHoldsChain(edges: seq<Membership>, closed: set<string>, chain: seq<string>)
    requires IsChain(edges, chain) && chain[0] in closed
    requires forall e :: e in edges && e.inherits && e.member in closed ==> e.role in closed
    ensures chain[|chain| - 1] in closed
  {
    if |chain| > 1 {
      var init := chain[..|chain| - 1];
      ClosedHoldsChain(edges, closed, init);
      assert Membership(chain[|chain| - 2], chain[|chain| - 1], true) in edges;
    }
  }

  ghost predicate AllInherited(edges: seq<Membership>, seed: set<string>, reach: set<string>) {
    forall r :: r in reach ==> InheritsAny(edges, seed, r)
  }

  predicate ClosedUnder(edges: seq<Membership>, reach: set<string>) {
    forall e :: e in edges ==> (e.inherits && e.member in reach ==> e.role in reach)
  }

  function Targets(edges: seq<Membership>): set<string> {
    set e | e in edges :: e.role
  }

  /** One sweep over the edges. */
  method Sweep(edges: seq<Membership>, seed: set<string>, reach: set<string>) returns (next: set<string>, changed: bool)
    requires AllInherited(edges, seed, reach)
    ensures reach <= next <= reach + Targets(edges) && AllInherited(edges, seed, next)
    ensures if changed then reach < next else next == reach && ClosedUnder(edges, reach)
  {
    next, changed := reach, false;
    for i := 0 to |edges|
      invariant reach <= next <= reach + Targets(edges) && AllInherited(edges, seed, next)
      invariant if changed then reach < next else next == reach && ClosedUnder(edges[..i], reach)
    {
      var e := edges[i];
      if e.inherits && e.member in next && e.role !in next {
        assert Membership(e.member, e.role, true) == e;
        InheritsStep(edges, seed, e.member, e.role);
        next := next + {e.role};
        changed := true;
      }
      assert edges[..i + 1] == edges[..i] + [e];
    }
    assert edges[..|edges|] == edges;
  }

  lemma ClosedHoldsEverything(edges: seq<Membership>, seed: set<string>, reach: set<string>, r: string)
    requires seed <= reach && ClosedUnder(edges, reach) && InheritsAny(edges, seed, r)
    ensures r in reach
  {
    var role :| role in seed && Inherits(edges, role, r);
    var chain :| IsChain(edges, chain) && chain[0] == role && chain[|chain| - 1] == r;
    ClosedHoldsChain(edges, reach, chain);
  }

  /** The closure of a seed over INHERIT edges, by sweeping the edges until nothing changes. */
  method InheritClosure(edges: seq<Membership>, seed: set<string>) returns (reach: set<string>)
    ensures forall r :: r in reach <==> InheritsAny(edges, seed, r)
  {
    reach := seed;
    var changed := true;
    forall r | r in seed ensures InheritsAny(edges, seed, r) { InheritsSelf(edges, r); }
    while changed
      invariant seed <= reach <= seed + Targets(edges) && AllInherited(edges, seed, reach)
      invariant !changed ==> ClosedUnder(edges, reach)
      decreases seed + Targets(edges) - reach, changed
    {
      reach, changed := Sweep(edges, seed, reach);
    }
    forall r | InheritsAny(edges, seed, r) ensures r in reach {
      ClosedHoldsEverything(edges, seed, reach, r);
    }
  }

  /** PUBLIC is a member of nothing. */
  predicate PublicIsNoMember(edges: seq<Membership>) {
    forall e :: e in edges ==> e.member != PUBLIC
  }

  lemma PublicInheritsNothing(edges: seq<Membership>, target: string)
    requires PublicIsNoMember(edges) && Inherits(edges, PUBLIC, target)
    ensures target == PUBLIC
  {
    var chain :| IsChain(edges, chain) && chain[0] == PUBLIC && chain[|chain| - 1] == target;
    ClosedHoldsChain(edges, {PUBLIC}, chain);
  }

  // --- a session running as a role ---

  /**
    A session: its role, the roles it inherits if the graph tells, the policy targets it is known
    to satisfy, and whether it can satisfy no other.
   */
  datatype Session = Session(role: Role, closure: Option<set<string>>, appliesTo: set<string>, complete: bool)

  ghost predicate SessionOf(s: Session, graph: Option<seq<Membership>>) {
    if s.role.name == PUBLIC then
      s.closure == Some({PUBLIC}) && s.appliesTo == {PUBLIC} && s.complete
    else match graph
      case None => s.closure == None && s.appliesTo == {s.role.name, PUBLIC} && !s.complete
      case Some(edges) =>
        && s.complete && s.closure.Some?
        && (forall r :: r in s.closure.value <==> InheritsAny(edges, {s.role.name}, r))
        && (forall r :: r in s.appliesTo <==> InheritsAny(edges, {s.role.name, PUBLIC}, r))
  }

  method OpenSession(graph: Option<seq<Membership>>, role: Role) returns (s: Session)
    ensures s.role == role && SessionOf(s, graph)
  {
    if role.name == PUBLIC {
      s := Session(role, Some({PUBLIC}), {PUBLIC}, true);
    } else if graph.None? {
      s := Session(role, None, {role.name, PUBLIC}, false);
    } else {
      var closure := InheritClosure(graph.value, {role.name});
      var applies := InheritClosure(graph.value, {role.name, PUBLIC});
      s := Session(role, Some(closure), applies, true);
    }
  }

  // --- privilege paths ---

  /** Membership in this role is as good as a grant of the command on everything. */
  function DataRoleFor(c: Command): Option<string> {
    match c
    case Select => Some("pg_read_all_data")
    case Truncate => None
    case _ => Some("pg_write_all_data")
  }

  predicate ColumnCommand(c: Command) {
    c == Select || c == Insert || c == Update
  }

  function HeldRoles(s: Session): set<string> {
    if s.closure.Some? then s.closure.value else {s.role.name}
  }

  function OwnerPath(s: Session, acl: Acl): set<AccessPath> {
    if acl.owner == "" then {}
    else if acl.owner == s.role.name then {AccessPath(Owner, Some(s.role.name), [])}
    else if acl.owner in HeldRoles(s) then {AccessPath(OwnerMember, Some(acl.owner), [])}
    else {}
  }

  /** Every way the session holds the privilege on the relation. */
  function PrivilegePaths(s: Session, acl: Acl, c: Command): set<AccessPath> {
    if s.role.superuser then {AccessPath(Superuser, None, [])}
    else
      var held := HeldRoles(s);
      (if DataRoleFor(c).Some? && DataRoleFor(c).value in held then {AccessPath(DataRole, DataRoleFor(c), [])} else {})
      + OwnerPath(s, acl)
      + (set g | g in acl.grants && c in g.privileges && (g.role == PUBLIC || g.role in held)
           :: AccessPath(if g.role == PUBLIC then PublicGrant else GrantTo, Some(g.role), []))
      + (set g | g in acl.columnGrants && ColumnCommand(c) && c in g.privileges && (g.role == PUBLIC || g.role in held)
           :: AccessPath(ColumnGrantTo, Some(g.role), []))
  }

  /**
    Whether the paths seen settle the question: one was found, or the inheritance closure is there to
    rule all others out.
   */
  predicate PrivilegeKnown(s: Session, acl: Acl, c: Command) {
    s.role.superuser || s.closure.Some? || PrivilegePaths(s, acl, c) != {}
  }

  /** Whether the session holds the privilege; None when that turns on the missing graph. */
  function Holds(s: Session, acl: Acl, c: Command): Option<bool> {
    if PrivilegePaths(s, acl, c) != {} then Some(true)
    else if PrivilegeKnown(s, acl, c) then Some(false) else None
  }

  /** Postgres's rule, on the graph itself. */
  ghost predicate HasPrivilege(edges: seq<Membership>, role: Role, acl: Acl, c: Command) {
    || role.superuser
    || (DataRoleFor(c).Some? && Inherits(edges, role.name, DataRoleFor(c).value))
    || OwnsPrivileges(edges, role, acl)
    || (exists g :: g in acl.grants && c in g.privileges && (g.role == PUBLIC || Inherits(edges, role.name, g.role)))
    || (ColumnCommand(c) && exists g ::
          g in acl.columnGrants && c in g.privileges && (g.role == PUBLIC || Inherits(edges, role.name, g.role)))
  }

  ghost predicate OwnsPrivileges(edges: seq<Membership>, role: Role, acl: Acl) {
    acl.owner != "" && Inherits(edges, role.name, acl.owner)
  }

  lemma HeldIsInherited(s: Session, edges: seq<Membership>, r: string)
    requires SessionOf(s, Some(edges)) && PublicIsNoMember(edges)
    ensures r in HeldRoles(s) <==> Inherits(edges, s.role.name, r)
    ensures r in s.appliesTo <==> r == PUBLIC || Inherits(edges, s.role.name, r)
  {
    InheritsSelf(edges, s.role.name);
    InheritsSelf(edges, PUBLIC);
    if s.role.name == PUBLIC {
      if Inherits(edges, PUBLIC, r) { PublicInheritsNothing(edges, r); }
    } else {
      assert InheritsAny(edges, {s.role.name}, r) <==> Inherits(edges, s.role.name, r);
      if r in s.appliesTo && !Inherits(edges, s.role.name, r) {
        assert Inherits(edges, PUBLIC, r);
        PublicInheritsNothing(edges, r);
      }
    }
  }

  /** With the graph captured, some path exists exactly when Postgres grants the privilege. */
  lemma PathsExact(s: Session, edges: seq<Membership>, acl: Acl, c: Command)
    requires SessionOf(s, Some(edges)) && PublicIsNoMember(edges)
    ensures Holds(s, acl, c) == Some(HasPrivilege(edges, s.role, acl, c))
    ensures !s.role.superuser ==> (OwnerPath(s, acl) != {} <==> OwnsPrivileges(edges, s.role, acl))
  {
    forall r ensures r in HeldRoles(s) <==> Inherits(edges, s.role.name, r) { HeldIsInherited(s, edges, r); }
    assert s.role.name in HeldRoles(s) by { InheritsSelf(edges, s.role.name); }
    var paths := PrivilegePaths(s, acl, c);
    assert OwnerPath(s, acl) != {} <==> OwnsPrivileges(edges, s.role, acl) by {
      if acl.owner == s.role.name {
        assert AccessPath(Owner, Some(s.role.name), []) in OwnerPath(s, acl) || acl.owner == "";
      } else if acl.owner in HeldRoles(s) {
        assert AccessPath(OwnerMember, Some(acl.owner), []) in OwnerPath(s, acl) || acl.owner == "";
      }
    }
    if HasPrivilege(edges, s.role, acl, c) {
      PathFor(s, edges, acl, c);
    } else if p :| p in paths {
      assert false;
    }
  }

  lemma PathFor(s: Session, edges: seq<Membership>, acl: Acl, c: Command)
    requires forall r :: r in HeldRoles(s) <==> Inherits(edges, s.role.name, r)
    requires OwnerPath(s, acl) != {} <==> OwnsPrivileges(edges, s.role, acl)
    requires HasPrivilege(edges, s.role, acl, c)
    ensures PrivilegePaths(s, acl, c) != {}
  {
    var paths := PrivilegePaths(s, acl, c);
    if s.role.superuser {
      assert AccessPath(Superuser, None, []) in paths;
    } else if DataRoleFor(c).Some? && Inherits(edges, s.role.name, DataRoleFor(c).value) {
      assert AccessPath(DataRole, DataRoleFor(c), []) in paths;
    } else if OwnsPrivileges(edges, s.role, acl) {
      var p :| p in OwnerPath(s, acl);
      assert p in paths;
    } else if g :| g in acl.grants && c in g.privileges && (g.role == PUBLIC || Inherits(edges, s.role.name, g.role)) {
      assert AccessPath(if g.role == PUBLIC then PublicGrant else GrantTo, Some(g.role), []) in paths;
    } else {
      var g :| g in acl.columnGrants && c in g.privileges && (g.role == PUBLIC || Inherits(edges, s.role.name, g.role));
      assert AccessPath(ColumnGrantTo, Some(g.role), []) in paths;
    }
  }

  /** Without the graph, a path found is real under every completion of it. */
  lemma PathsSoundWithoutGraph(s: Session, edges: seq<Membership>, acl: Acl, c: Command)
    requires SessionOf(s, None) && s.role.name != PUBLIC && PrivilegePaths(s, acl, c) != {}
    ensures HasPrivilege(edges, s.role, acl, c)
  {
    InheritsSelf(edges, s.role.name);
    var p :| p in PrivilegePaths(s, acl, c);
  }

  // --- who may call a function ---

  /** The roles that hold EXECUTE, PUBLIC among them unless it was revoked; an owner of "" was not captured. */
  datatype Callable = Callable(owner: string, executors: set<string>)

  predicate MayCall(s: Session, f: Callable) {
    var held := HeldRoles(s) + {PUBLIC};
    || s.role.superuser
    || (f.owner != "" && (f.owner == s.role.name || f.owner in held))
    || f.executors * held != {}
  }

  /** Not seen to be callable, and reported because a membership that was not captured might make it so. */
  predicate CallUndecided(s: Session, f: Callable) {
    !MayCall(s, f) && s.closure.None? && s.role.name != PUBLIC && (f.executors - {PUBLIC} != {} || f.owner != "")
  }

  predicate Executes(f: Callable, r: string) {
    r in f.executors || (r == f.owner && r != "")
  }

  /** Postgres's rule: EXECUTE is granted to everyone or to a role that is inherited, which the owner always holds. */
  ghost predicate CanCall(edges: seq<Membership>, role: Role, f: Callable) {
    role.superuser || exists r :: Executes(f, r) && (r == PUBLIC || Inherits(edges, role.name, r))
  }

  lemma CallExact(s: Session, edges: seq<Membership>, f: Callable)
    requires SessionOf(s, Some(edges)) && PublicIsNoMember(edges)
    ensures MayCall(s, f) <==> CanCall(edges, s.role, f)
  {
    var held := HeldRoles(s) + {PUBLIC};
    forall r ensures r in held <==> r == PUBLIC || Inherits(edges, s.role.name, r) { HeldIsInherited(s, edges, r); }
    InheritsSelf(edges, s.role.name);
    if f.executors * held != {} {
      var r :| r in f.executors * held;
      assert Executes(f, r);
    } else {
      forall r | r in f.executors ensures r !in held { assert r in held ==> r in f.executors * held; }
      assert f.owner != "" ==> Executes(f, f.owner);
    }
  }

  /**
    Without the graph a call found is allowed under every completion, and what some completion allows is
    found or reported.
   */
  lemma CallWithoutGraph(s: Session, f: Callable)
    requires SessionOf(s, None) && s.role.name != PUBLIC
    ensures MayCall(s, f) ==> forall edges :: CanCall(edges, s.role, f)
    ensures MayCall(s, f) || CallUndecided(s, f) <==> exists edges :: CanCall(edges, s.role, f)
  {
    forall edges | MayCall(s, f) ensures CanCall(edges, s.role, f) { SeenCallIsReal(s, edges, f); }
    assert MayCall(s, f) ==> CanCall([], s.role, f);
    if CallUndecided(s, f) {
      var r := if f.owner != "" then f.owner else var r :| r in f.executors - {PUBLIC}; r;
      var edges := [Membership(s.role.name, r, true)];
      InheritsSelf(edges, s.role.name);
      assert edges[0] in edges && InheritsAny(edges, {s.role.name}, s.role.name);
      InheritsStep(edges, {s.role.name}, s.role.name, r);
      assert Executes(f, r) && Inherits(edges, s.role.name, r);
      assert CanCall(edges, s.role, f);
    }
    if edges :| CanCall(edges, s.role, f) && !MayCall(s, f) {
      var r :| Executes(f, r) && (r == PUBLIC || Inherits(edges, s.role.name, r));
      assert r in f.executors ==> r != PUBLIC by {
        assert PUBLIC in f.executors ==> PUBLIC in f.executors * (HeldRoles(s) + {PUBLIC});
      }
      assert r in f.executors ==> r in f.executors - {PUBLIC};
    }
  }

  lemma SeenCallIsReal(s: Session, edges: seq<Membership>, f: Callable)
    requires SessionOf(s, None) && s.role.name != PUBLIC && MayCall(s, f)
    ensures CanCall(edges, s.role, f)
  {
    InheritsSelf(edges, s.role.name);
    var held := HeldRoles(s) + {PUBLIC};
    if f.executors * held != {} {
      var r :| r in f.executors * held;
      assert Executes(f, r);
    } else if !s.role.superuser {
      assert Executes(f, f.owner);
    }
  }
}
