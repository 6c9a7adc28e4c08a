/**
  The direct verdict: what a session running as a role reaches of one table for one command.
  The privilege and the row policies fail independently; the verdict is compared with the rule
  Postgres applies (PostgreSQL 16 documentation, section 5.8 "Row Security Policies").
 */
module CellFor {
  import opened Prelude
  import opened Predicate
  import opened Dependence
  import opened Cells
  import opened Merge
  import opened Privileges
  import Hierarchy
  import TruncateBlocker

  /** `command` None is FOR ALL; an empty `roles` is TO PUBLIC. */
  datatype Policy = Policy(
    name: string, command: Option<Command>, permissive: bool, roles: set<string>,
    using: Option<Expr>, check: Option<Expr>)

  datatype Table = Table(name: string, rlsEnabled: bool, forceRls: bool, acl: Acl, policies: seq<Policy>)

  /** The outcome for one table and command: how it may be reached, by which privileges, under which policies. */
  datatype Direct = Direct(cell: Cell, paths: set<AccessPath>, policies: set<string>)

  /** USING gates SELECT, UPDATE and DELETE; WITH CHECK gates INSERT, falling back to USING for FOR ALL. */
  function EffectiveClause(p: Policy, c: Command): Option<Expr> {
    if c == Insert then
      if p.check.Some? then p.check else if p.command.None? then p.using else None
    else p.using
  }

  /** Whether the policy applies; None when that turns on the missing membership graph. */
  function PolicyApplies(p: Policy, c: Command, s: Session): Option<bool> {
    if p.command.Some? && p.command.value != c then Some(false)
    else
      var roles := if p.roles == {} then {PUBLIC} else p.roles;
      if roles * s.appliesTo != {} then Some(true)
      else if s.complete then Some(false) else None
  }

  /** The verdicts are kept by policy name, so of two policies with one name the last decides. */
  function VerdictByName(ps: seq<Policy>, name: string, c: Command, s: Session): Option<bool>
    requires exists p :: p in ps && p.name == name
  {
    if ps[|ps| - 1].name == name then PolicyApplies(ps[|ps| - 1], c, s)
    else
      assert forall p :: p in ps && p != ps[|ps| - 1] ==> p in ps[..|ps| - 1];
      VerdictByName(ps[..|ps| - 1], name, c, s)
  }

  function WithVerdict(ps: seq<Policy>, all: seq<Policy>, c: Command, s: Session, permissive: bool,
                       verdict: Option<bool>): (r: seq<Policy>)
    requires forall p :: p in ps ==> p in all
    ensures forall p :: p in r <==> p in ps && p.permissive == permissive && VerdictByName(all, p.name, c, s) == verdict
  {
    if ps == [] then []
    else
      (if ps[0].permissive == permissive && VerdictByName(all, ps[0].name, c, s) == verdict then [ps[0]] else [])
      + WithVerdict(ps[1..], all, c, s, permissive, verdict)
  }

  function Clauses(ps: seq<Policy>, c: Command): (r: seq<Expr>)
    ensures forall e :: e in r <==> exists p :: p in ps && EffectiveClause(p, c) == Some(e)
  {
    if ps == [] then []
    else
      var e := EffectiveClause(ps[0], c);
      assert forall p :: p in ps <==> p == ps[0] || p in ps[1..];
      (if e.Some? then [e.value] else []) + Clauses(ps[1..], c)
  }

  /** Restrictive clauses that narrow anything: unconditionally true floors are dropped. */
  function Narrowing(es: seq<Expr>): (r: seq<Expr>)
    ensures forall e :: e in r <==> e in es && !ClauseIsOpen(e)
  {
    if es == [] then [] else (if ClauseIsOpen(es[0]) then [] else [es[0]]) + Narrowing(es[1..])
  }

  function Conjunction(es: seq<Expr>): Expr {
    if |es| == 1 then es[0] else And(es)
  }

  function Disjunction(es: seq<Expr>): Expr {
    if |es| == 1 then es[0] else Or(es)
  }

  function Filtered(e: Expr): Cell {
    Cell(Conditional, Some(e), None, None, None)
  }

  predicate AnyOpen(es: seq<Expr>) {
    exists e :: e in es && ClauseIsOpen(e)
  }

  predicate OwnerReaches(paths: set<AccessPath>) {
    exists p :: p in paths && (p.kind == Owner || p.kind == OwnerMember)
  }

  /**
    The verdict the policies assemble: `some` permissive policies apply with the clauses `perm`,
    `unknown` others might, and `restr` are the applicable restrictive clauses.
   */
  function Assemble(some: bool, unknown: bool, perm: seq<Expr>, restr: seq<Expr>): (r: Cell)
    ensures WellFormed(r) && r.session == None && r.privileges == None
  {
    if !some then
      if unknown then Plain(Undecided, Some("role-membership graph not captured; cannot tell whether policies apply"))
      else Plain(Denied, Some("no permissive policy"))
    else if perm == [] then Plain(Denied, Some("no applicable permissive clause"))
    else
      var kept := Narrowing(restr);
      if AnyOpen(perm) then
        if kept != [] then Filtered(Conjunction(kept)) else Plain(Open, None)
      else if unknown then Plain(Undecided, Some("role-membership graph not captured; policies may also apply"))
      else Filtered(Conjunction([Disjunction(perm)] + kept))
  }

  function Applicable(t: Table, c: Command, s: Session, permissive: bool): seq<Policy> {
    WithVerdict(t.policies, t.policies, c, s, permissive, Some(true))
  }

  function UnknownPermissive(t: Table, c: Command, s: Session): seq<Policy> {
    WithVerdict(t.policies, t.policies, c, s, true, None)
  }

  /** What the applicable policies let through, for a session row security applies to. */
  function PolicyCell(t: Table, c: Command, s: Session): Cell {
    Assemble(Applicable(t, c, s, true) != [], UnknownPermissive(t, c, s) != [],
             Clauses(Applicable(t, c, s, true), c), Clauses(Applicable(t, c, s, false), c))
  }

  /**
    The verdict, branch by branch: whether some privilege path was found, whether finding none
    settles it, and whether one of them is the owner's. `walk` is the outcome of the TRUNCATE
    blocker search, None when it was not run; `byPolicy` is what the policies let through.
   */
  function CellGiven(held: bool, known: bool, owner: bool, t: Table, c: Command, s: Session,
                     walk: Option<TruncateBlocker.Outcome>, byPolicy: Cell): (r: Cell)
    ensures WellFormed(byPolicy) ==> WellFormed(r)
    ensures byPolicy.session == None && byPolicy.privileges == None ==> r.session == None && r.privileges == None
  {
    if !held then
      if !known then Plain(Undecided, Some("role-membership graph not captured; a grant cannot be ruled out"))
      else Plain(Denied, None)
    else if c == Truncate && walk.Some? && walk.value.Blocked? then
      Plain(if walk.value.unknown then Undecided else Denied,
            Some("referenced by a foreign key from " + walk.value.table))
    else if s.role.superuser then Plain(Open, Some("superuser"))
    else if c == Truncate then Plain(Open, Some("TRUNCATE is not subject to RLS"))
    else if s.role.bypassrls then Plain(Open, Some("bypasses RLS"))
    else if !t.rlsEnabled then Plain(Open, Some("RLS off"))
    else if owner && !t.forceRls then Plain(Open, Some("owner; RLS not FORCE'd"))
    else byPolicy
  }

  /** The policies decide only once no branch before them was taken. */
  predicate PoliciesDecide(held: bool, owner: bool, t: Table, c: Command, s: Session) {
    held && c != Truncate && !s.role.superuser && !s.role.bypassrls && t.rlsEnabled && !(owner && !t.forceRls)
  }

  function CellFor(t: Table, c: Command, s: Session, walk: Option<TruncateBlocker.Outcome>): Direct {
    var paths := PrivilegePaths(s, t.acl, c);
    Direct(CellGiven(paths != {}, PrivilegeKnown(s, t.acl, c), OwnerReaches(paths), t, c, s, walk, PolicyCell(t, c, s)),
           paths,
           if PoliciesDecide(paths != {}, OwnerReaches(paths), t, c, s) then
             set p | p in Applicable(t, c, s, true) :: p.name
           else {})
  }

  /** A filtered verdict carries its filter, which runs as the caller, whatever the session. */
  lemma CellWellFormed(t: Table, c: Command, s: Session, walk: Option<TruncateBlocker.Outcome>)
    ensures var cell := CellFor(t, c, s, walk).cell; WellFormed(cell) && cell.session == None && cell.privileges == None
  {}

  // --- Postgres's rule ---

  /** Postgres binds a role by a policy whose target it is or inherits; a policy without targets binds everyone. */
  ghost predicate Binds(edges: seq<Membership>, role: Role, p: Policy, c: Command) {
    && (p.command.None? || p.command.value == c)
    && (|| p.roles == {} || PUBLIC in p.roles
        || exists r :: r in p.roles && Inherits(edges, role.name, r))
  }

  ghost predicate BypassesPolicies(edges: seq<Membership>, role: Role, t: Table, c: Command) {
    || c == Truncate || role.superuser || role.bypassrls || !t.rlsEnabled
    || (OwnsPrivileges(edges, role, t.acl) && !t.forceRls)
  }

  /** Some binding permissive clause is TRUE and every binding restrictive clause is TRUE. */
  ghost predicate PoliciesAdmit(edges: seq<Membership>, role: Role, t: Table, c: Command, w: World, user: string,
                                reader: string) {
    && (exists p :: p in t.policies && p.permissive && Binds(edges, role, p, c) && EffectiveClause(p, c).Some?
          && Passes(EffectiveClause(p, c).value, w, user, reader))
    && (forall p :: p in t.policies && !p.permissive && Binds(edges, role, p, c) && EffectiveClause(p, c).Some? ==>
          Passes(EffectiveClause(p, c).value, w, user, reader))
  }

  /** Whether the row is reached: privilege, and either no row security or the policies admit it. */
  ghost predicate Admits(edges: seq<Membership>, role: Role, t: Table, c: Command, w: World, user: string,
                         reader: string) {
    && HasPrivilege(edges, role, t.acl, c)
    && (BypassesPolicies(edges, role, t, c) || PoliciesAdmit(edges, role, t, c, w, user, reader))
  }

  predicate UniqueNames(ps: seq<Policy>) {
    forall i, j :: 0 <= i < j < |ps| ==> ps[i].name != ps[j].name
  }

  lemma {:induction false} NamedVerdict(ps: seq<Policy>, p: Policy, c: Command, s: Session)
    requires UniqueNames(ps) && p in ps
    ensures VerdictByName(ps, p.name, c, s) == PolicyApplies(p, c, s)
  {
    var last := ps[|ps| - 1];
    if p != last {
      var i :| 0 <= i < |ps| && ps[i] == p;
      assert ps[i].name != last.name;
      assert ps[..|ps| - 1][i] == p;
      NamedVerdict(ps[..|ps| - 1], p, c, s);
    }
  }

  lemma AppliesIsBinds(p: Policy, c: Command, s: Session, edges: seq<Membership>)
    requires SessionOf(s, Some(edges)) && PublicIsNoMember(edges)
    ensures PolicyApplies(p, c, s) == Some(Binds(edges, s.role, p, c))
  {
    forall r ensures r in s.appliesTo <==> r == PUBLIC || Inherits(edges, s.role.name, r) {
      HeldIsInherited(s, edges, r);
    }
    var roles := if p.roles == {} then {PUBLIC} else p.roles;
    if roles * s.appliesTo != {} {
      var r :| r in roles * s.appliesTo;
    } else {
      forall r | r in roles ensures r !in s.appliesTo {
        assert r in roles * s.appliesTo <==> r in s.appliesTo;
      }
      assert PUBLIC !in roles;
    }
  }

  /** The value a verdict takes at one row, when the verdict commits to one. */
  ghost predicate At(cell: Cell, w: World, user: string, reader: string)
    requires WellFormed(cell) && cell.verdict != Undecided
  {
    match cell.verdict
    case Open => true
    case Denied => false
    case Conditional => Passes(cell.filter.value, w, user, reader)
  }

  lemma ConjunctionPasses(es: seq<Expr>, w: World, user: string, reader: string)
    requires es != []
    ensures Passes(Conjunction(es), w, user, reader) <==> forall e :: e in es ==> Passes(e, w, user, reader)
  {
    EvalAndYes(es, w, user, reader);
    assert forall e :: e in es <==> exists i :: 0 <= i < |es| && es[i] == e;
  }

  lemma DisjunctionPasses(es: seq<Expr>, w: World, user: string, reader: string)
    requires es != []
    ensures Passes(Disjunction(es), w, user, reader) <==> exists e :: e in es && Passes(e, w, user, reader)
  {
    EvalOrYes(es, w, user, reader);
    if e :| e in es && Passes(e, w, user, reader) {
      var i :| 0 <= i < |es| && es[i] == e;
      assert Passes(es[i], w, user, reader);
    }
  }

  /** The assembled filter is TRUE exactly where some permissive and every restrictive clause is. */
  lemma AssembledFilter(perm: seq<Expr>, restr: seq<Expr>, w: World, user: string, reader: string)
    requires perm != []
    ensures Passes(Conjunction([Disjunction(perm)] + Narrowing(restr)), w, user, reader) <==>
            && (exists e :: e in perm && Passes(e, w, user, reader))
            && (forall e :: e in restr ==> Passes(e, w, user, reader))
    ensures Narrowing(restr) != [] ==>
            (Passes(Conjunction(Narrowing(restr)), w, user, reader) <==>
                forall e :: e in restr ==> Passes(e, w, user, reader))
    ensures Narrowing(restr) == [] ==> forall e :: e in restr ==> Passes(e, w, user, reader)
    ensures AnyOpen(perm) ==> exists e :: e in perm && Passes(e, w, user, reader)
  {
    var kept := Narrowing(restr);
    DisjunctionPasses(perm, w, user, reader);
    var parts := [Disjunction(perm)] + kept;
    ConjunctionPasses(parts, w, user, reader);
    assert forall e :: e in parts <==> e == Disjunction(perm) || e in kept;
    if kept != [] { ConjunctionPasses(kept, w, user, reader); }
    forall e | e in restr && e !in kept ensures Passes(e, w, user, reader) {
      OpenClausePassesEverything(e, w, user, reader);
    }
    if AnyOpen(perm) {
      var e :| e in perm && ClauseIsOpen(e);
      OpenClausePassesEverything(e, w, user, reader);
    }
  }

  /** Some permissive clause and every restrictive clause is TRUE. */
  ghost predicate ClausesAdmit(perm: seq<Expr>, restr: seq<Expr>, w: World, user: string, reader: string) {
    && (exists e :: e in perm && Passes(e, w, user, reader))
    && (forall e :: e in restr ==> Passes(e, w, user, reader))
  }

  /** With nothing unknown, the assembled verdict is exact about its clauses. */
  lemma AssembleExact(some: bool, perm: seq<Expr>, restr: seq<Expr>, w: World, user: string, reader: string)
    requires perm != [] ==> some
    ensures var cell := Assemble(some, false, perm, restr);
            && WellFormed(cell) && cell.verdict != Undecided && cell.session == None && cell.privileges == None
            && (At(cell, w, user, reader) <==> ClausesAdmit(perm, restr, w, user, reader))
  {
    if perm != [] { AssembledFilter(perm, restr, w, user, reader); }
  }

  lemma EmptyIfNoMember(ps: seq<Policy>)
    ensures (forall p :: p !in ps) ==> ps == []
  {
    if ps != [] { assert ps[0] in ps; }
  }

  ghost predicate IsBindingClause(t: Table, c: Command, role: Role, edges: seq<Membership>, permissive: bool, e: Expr) {
    exists p :: p in t.policies && p.permissive == permissive && Binds(edges, role, p, c)
        && EffectiveClause(p, c) == Some(e)
  }

  /** The clauses the verdict looks at, against the clauses Postgres looks at. */
  lemma ClausesExact(t: Table, c: Command, s: Session, edges: seq<Membership>, permissive: bool)
    requires SessionOf(s, Some(edges)) && PublicIsNoMember(edges) && UniqueNames(t.policies)
    ensures forall e :: e in Clauses(Applicable(t, c, s, permissive), c) <==>
            IsBindingClause(t, c, s.role, edges, permissive, e)
    ensures UnknownPermissive(t, c, s) == []
  {
    forall p | p in t.policies
      ensures VerdictByName(t.policies, p.name, c, s) == Some(Binds(edges, s.role, p, c))
    {
      NamedVerdict(t.policies, p, c, s);
      AppliesIsBinds(p, c, s, edges);
    }
    EmptyIfNoMember(UnknownPermissive(t, c, s));
  }

  /** Postgres's policy rule, read off its clauses. */
  lemma AdmitByClauses(t: Table, c: Command, role: Role, edges: seq<Membership>, w: World, user: string, reader: string)
    ensures PoliciesAdmit(edges, role, t, c, w, user, reader) <==>
            && (exists e :: IsBindingClause(t, c, role, edges, true, e) && Passes(e, w, user, reader))
            && (forall e :: IsBindingClause(t, c, role, edges, false, e) ==> Passes(e, w, user, reader))
  {
    if e :| IsBindingClause(t, c, role, edges, true, e) && Passes(e, w, user, reader) {
      var p :| p in t.policies && p.permissive && Binds(edges, role, p, c) && EffectiveClause(p, c) == Some(e);
    }
    forall p | p in t.policies && Binds(edges, role, p, c) && EffectiveClause(p, c).Some?
      ensures IsBindingClause(t, c, role, edges, p.permissive, EffectiveClause(p, c).value) {}
  }

  lemma PolicyCellExact(t: Table, c: Command, s: Session, edges: seq<Membership>, w: World, user: string,
                        reader: string)
    requires SessionOf(s, Some(edges)) && PublicIsNoMember(edges) && UniqueNames(t.policies)
    ensures var cell := PolicyCell(t, c, s);
            && WellFormed(cell) && cell.verdict != Undecided && cell.session == None && cell.privileges == None
            && (At(cell, w, user, reader) <==> PoliciesAdmit(edges, s.role, t, c, w, user, reader))
  {
    ClausesExact(t, c, s, edges, true);
    ClausesExact(t, c, s, edges, false);
    AdmitByClauses(t, c, s.role, edges, w, user, reader);
    AssembleExact(Applicable(t, c, s, true) != [], Clauses(Applicable(t, c, s, true), c),
                  Clauses(Applicable(t, c, s, false), c), w, user, reader);
  }

  /** The blocker search, where it was run, found a table that stops the statement. */
  predicate Stops(c: Command, walk: Option<TruncateBlocker.Outcome>) {
    c == Truncate && walk.Some? && walk.value.Blocked?
  }

  /** The blocker search, where it was run, did not turn on a missing membership graph. */
  predicate Known(walk: Option<TruncateBlocker.Outcome>) {
    walk.Some? && walk.value.Blocked? ==> !walk.value.unknown
  }

  lemma GivenBranches(held: bool, owner: bool, t: Table, c: Command, s: Session,
                      walk: Option<TruncateBlocker.Outcome>, byPolicy: Cell)
    requires Known(walk)
    ensures var cell := CellGiven(held, true, owner, t, c, s, walk, byPolicy);
            if !held || Stops(c, walk) then cell == Plain(Denied, cell.note)
            else if PoliciesDecide(held, owner, t, c, s) then cell == byPolicy
            else cell == Plain(Open, cell.note)
  {}

  /** The branches before the policies are Postgres's own: no privilege, a blocked TRUNCATE, or no row security. */
  lemma BranchesExact(t: Table, c: Command, s: Session, walk: Option<TruncateBlocker.Outcome>, edges: seq<Membership>)
    requires SessionOf(s, Some(edges)) && PublicIsNoMember(edges) && Known(walk)
    ensures var cell := CellFor(t, c, s, walk).cell;
            if !HasPrivilege(edges, s.role, t.acl, c) || Stops(c, walk) then cell == Plain(Denied, cell.note)
            else if BypassesPolicies(edges, s.role, t, c) then cell == Plain(Open, cell.note)
            else cell == PolicyCell(t, c, s)
  {
    PathsExact(s, edges, t.acl, c);
    var paths := PrivilegePaths(s, t.acl, c);
    if !s.role.superuser { OwnerReachesExact(s, t.acl, c); }
    GivenBranches(paths != {}, OwnerReaches(paths), t, c, s, walk, PolicyCell(t, c, s));
  }

  /**
    With the membership graph captured the verdict is exact: open means every row, denied means
    none, and conditional means exactly the rows its filter is TRUE on. A TRUNCATE reaches them
    unless a foreign key stops it.
   */
  lemma CellExact(t: Table, c: Command, s: Session, walk: Option<TruncateBlocker.Outcome>, edges: seq<Membership>,
                  w: World, user: string, reader: string)
    requires SessionOf(s, Some(edges)) && PublicIsNoMember(edges) && UniqueNames(t.policies) && Known(walk)
    ensures var cell := CellFor(t, c, s, walk).cell;
            && WellFormed(cell) && cell.verdict != Undecided && cell.session == None && cell.privileges == None
            && (At(cell, w, user, reader) <==> !Stops(c, walk) && Admits(edges, s.role, t, c, w, user, reader))
  {
    BranchesExact(t, c, s, walk, edges);
    PolicyCellExact(t, c, s, edges, w, user, reader);
  }

  lemma OwnerReachesExact(s: Session, acl: Acl, c: Command)
    requires !s.role.superuser
    ensures OwnerReaches(PrivilegePaths(s, acl, c)) <==> OwnerPath(s, acl) != {}
  {
    if OwnerPath(s, acl) != {} {
      var p :| p in OwnerPath(s, acl);
      assert p in PrivilegePaths(s, acl, c);
    }
  }

  /** The same, in the terms the doors are folded in: the cell describes the rows Postgres admits. */
  lemma CellDescribesRows(t: Table, c: Command, s: Session, walk: Option<TruncateBlocker.Outcome>,
                          edges: seq<Membership>)
    requires SessionOf(s, Some(edges)) && PublicIsNoMember(edges) && UniqueNames(t.policies) && Known(walk)
    ensures var cell := CellFor(t, c, s, walk).cell;
            && WellFormed(cell) && cell.verdict != Undecided
            && Describes(cell, s.role.name,
                         w => !Stops(c, walk) && Admits(edges, s.role, t, c, w, s.role.name, s.role.name))
  {
    forall w: World
      ensures var cell := CellFor(t, c, s, walk).cell;
              && WellFormed(cell) && cell.verdict != Undecided && cell.session == None && cell.privileges == None
              && (At(cell, w, s.role.name, s.role.name)
                  <==> !Stops(c, walk) && Admits(edges, s.role, t, c, w, s.role.name, s.role.name))
    {
      CellExact(t, c, s, walk, edges, w, s.role.name, s.role.name);
    }
    CellExact(t, c, s, walk, edges, Tattling(), "", "");
  }

  // --- TRUNCATE ---

  /** Which tables of a schema a session may truncate. */
  function CanTruncate(tables: map<string, Table>, s: Session): TruncateBlocker.Can {
    (q: string) => if q in tables then Holds(s, tables[q].acl, Truncate) else Some(false)
  }

  /** A statement the role may run under Postgres's rules that empties the table. */
  ghost predicate MayEmpty(tables: map<string, Table>, edges: seq<Membership>, role: Role, g: Hierarchy.Graph,
                           table: string, named: set<string>) {
    && (forall n :: n in named ==> n in tables && HasPrivilege(edges, role, tables[n].acl, Truncate))
    && table in TruncateBlocker.Emptied(g, named)
    && Hierarchy.ClosedUnder(g.referencing, TruncateBlocker.Emptied(g, named))
  }

  lemma ValidIsMayEmpty(tables: map<string, Table>, s: Session, edges: seq<Membership>, g: Hierarchy.Graph,
                        table: string, named: set<string>)
    requires SessionOf(s, Some(edges)) && PublicIsNoMember(edges)
    ensures TruncateBlocker.ValidStatement(g, CanTruncate(tables, s), table, named)
            <==> MayEmpty(tables, edges, s.role, g, table, named)
  {
    forall n | n in tables
      ensures Holds(s, tables[n].acl, Truncate) == Some(HasPrivilege(edges, s.role, tables[n].acl, Truncate))
    {
      PathsExact(s, edges, tables[n].acl, Truncate);
    }
  }

  lemma {:induction false} KnownGraphBlocks(tables: map<string, Table>, s: Session, g: Hierarchy.Graph,
                                            ancestors: Hierarchy.Links, emptied: seq<string>, todo: seq<string>,
                                            refs: seq<string>)
    requires s.closure.Some? && Elements(refs) <= g.Names()
    ensures var r := TruncateBlocker.Walk(g, ancestors, CanTruncate(tables, s), emptied, todo, refs);
            r.Blocked? ==> !r.unknown
    decreases TruncateBlocker.World(g, ancestors) - Elements(emptied), |todo|, |refs|
  {
    var can := CanTruncate(tables, s);
    if refs != [] {
      assert refs[0] in Elements(refs) && Elements(refs[1..]) <= Elements(refs);
      var chosen := TruncateBlocker.Choose(TruncateBlocker.Above(ancestors, refs[0]), can);
      if refs[0] in emptied {
        KnownGraphBlocks(tables, s, g, ancestors, emptied, todo, refs[1..]);
      } else if chosen.Some? {
        var next := Hierarchy.AddNew(g.Subtree(chosen.value), emptied);
        Hierarchy.AddNewElements(g.Subtree(chosen.value), emptied);
        TruncateBlocker.ChosenNamed(g, ancestors, can, refs[0], chosen.value);
        KnownGraphBlocks(tables, s, g, ancestors, next, todo + next[|emptied|..], refs[1..]);
      }
    } else if todo != [] {
      KnownGraphBlocks(tables, s, g, ancestors, emptied, todo[..|todo| - 1],
          Hierarchy.At(g.referencing, todo[|todo| - 1]));
    }
  }

  lemma StatementsAgree(tables: map<string, Table>, s: Session, edges: seq<Membership>, g: Hierarchy.Graph,
                        table: string)
    requires SessionOf(s, Some(edges)) && PublicIsNoMember(edges)
    ensures (exists named :: TruncateBlocker.ValidStatement(g, CanTruncate(tables, s), table, named)) <==>
            exists named :: MayEmpty(tables, edges, s.role, g, table, named)
  {
    forall named
      ensures TruncateBlocker.ValidStatement(g, CanTruncate(tables, s), table, named)
              <==> MayEmpty(tables, edges, s.role, g, table, named)
    {
      ValidIsMayEmpty(tables, s, edges, g, table, named);
    }
  }

  /**
    The TRUNCATE verdict with the blocker search: it is open only if the role may run a statement
    that empties the table, and exactly then where the first candidate is always the least, as it
    is with at most one parent per table; otherwise it is a denial, never undecided.
   */
  lemma TruncateExact(t: Table, tables: map<string, Table>, s: Session, edges: seq<Membership>, g: Hierarchy.Graph,
                      ancestors: Hierarchy.Links)
    requires SessionOf(s, Some(edges)) && PublicIsNoMember(edges) && t.name in tables && tables[t.name] == t
    requires TruncateBlocker.AncestorsSound(g.children, ancestors)
    ensures var can := CanTruncate(tables, s);
            var walk := TruncateBlocker.Blocker(g, ancestors, can, t.name);
            var cell := CellFor(t, Truncate, s, Some(walk)).cell;
            var may := HasPrivilege(edges, s.role, t.acl, Truncate)
                && exists named :: MayEmpty(tables, edges, s.role, g, t.name, named);
            && Known(Some(walk)) && cell.verdict in {Verdict.Open, Denied}
            && (cell.verdict == Verdict.Open ==> may)
            && (TruncateBlocker.FirstIsLeast(g.children, ancestors, can) ==> (cell.verdict == Verdict.Open <==> may))
  {
    var can := CanTruncate(tables, s);
    KnownGraphBlocks(tables, s, g, ancestors, g.Subtree(t.name), g.Subtree(t.name), []);
    BranchesExact(t, Truncate, s, Some(TruncateBlocker.Blocker(g, ancestors, can, t.name)), edges);
    PathsExact(s, edges, t.acl, Truncate);
    if HasPrivilege(edges, s.role, t.acl, Truncate) {
      StatementsAgree(tables, s, edges, g, t.name);
      TruncateBlocker.ClearMeansValid(g, ancestors, can, t.name);
      if TruncateBlocker.FirstIsLeast(g.children, ancestors, can) {
        TruncateBlocker.LeastIsRight(g, ancestors, can, t.name);
      }
    }
  }

  // --- without the membership graph ---

  /** An upper bound on the rows a verdict allows for. */
  ghost predicate Allows(cell: Cell, w: World, user: string, reader: string)
    requires WellFormed(cell)
  {
    cell.verdict == Undecided || At(cell, w, user, reader)
  }

  /**
    The verdict denies on the clauses it can see before it asks about the policies it cannot
    place: an applicable permissive policy, none of them with a clause, and an undecidable one.
   */
  predicate DeniesTooSoon(t: Table, c: Command, s: Session) {
    Applicable(t, c, s, true) != [] && Clauses(Applicable(t, c, s, true), c) == [] && UnknownPermissive(t, c, s) != []
  }

  lemma SeenPoliciesBind(p: Policy, c: Command, s: Session, edges: seq<Membership>)
    requires SessionOf(s, None) && s.role.name != PUBLIC
    ensures PolicyApplies(p, c, s) == Some(true) ==> Binds(edges, s.role, p, c)
    ensures PolicyApplies(p, c, s) == Some(false) ==> !Binds(edges, s.role, p, c)
  {
    var roles := if p.roles == {} then {PUBLIC} else p.roles;
    if PolicyApplies(p, c, s) == Some(true) {
      var r :| r in roles * s.appliesTo;
      if r != PUBLIC { InheritsSelf(edges, s.role.name); }
    }
  }

  /** Seen clauses bind under every completion, and with nothing unknown the permissive ones are all seen. */
  lemma SeenClauses(t: Table, c: Command, s: Session, edges: seq<Membership>)
    requires SessionOf(s, None) && s.role.name != PUBLIC && UniqueNames(t.policies)
    ensures forall e :: e in Clauses(Applicable(t, c, s, false), c) ==> IsBindingClause(t, c, s.role, edges, false, e)
    ensures UnknownPermissive(t, c, s) == [] ==>
              forall e :: IsBindingClause(t, c, s.role, edges, true, e) ==> e in Clauses(Applicable(t, c, s, true), c)
  {
    forall p | p in t.policies
      ensures VerdictByName(t.policies, p.name, c, s) == PolicyApplies(p, c, s)
      ensures PolicyApplies(p, c, s) == Some(true) ==> Binds(edges, s.role, p, c)
      ensures PolicyApplies(p, c, s) == Some(false) ==> !Binds(edges, s.role, p, c)
    {
      NamedVerdict(t.policies, p, c, s);
      SeenPoliciesBind(p, c, s, edges);
    }
    if UnknownPermissive(t, c, s) == [] {
      forall e | IsBindingClause(t, c, s.role, edges, true, e) ensures e in Clauses(Applicable(t, c, s, true), c) {
        var p :| p in t.policies && p.permissive && Binds(edges, s.role, p, c) && EffectiveClause(p, c) == Some(e);
        assert p !in UnknownPermissive(t, c, s);
        assert p in Applicable(t, c, s, true);
      }
    }
  }

  /** The verdict says it cannot place some policy that might widen it. */
  predicate TellsUnplaced(t: Table, c: Command, s: Session) {
    && UnknownPermissive(t, c, s) != []
    && (|| Applicable(t, c, s, true) == []
        || (Clauses(Applicable(t, c, s, true), c) != [] && !AnyOpen(Clauses(Applicable(t, c, s, true), c))))
  }

  /** The policies seen to apply pass the row. */
  ghost predicate SeenAdmit(t: Table, c: Command, s: Session, w: World, user: string, reader: string) {
    ClausesAdmit(Clauses(Applicable(t, c, s, true), c), Clauses(Applicable(t, c, s, false), c), w, user, reader)
  }

  lemma PolicyCellWellFormed(t: Table, c: Command, s: Session)
    ensures WellFormed(PolicyCell(t, c, s))
    ensures DeniesTooSoon(t, c, s) ==> PolicyCell(t, c, s).verdict == Denied
  {}

  lemma AssembleAllows(some: bool, unknown: bool, perm: seq<Expr>, restr: seq<Expr>, w: World, user: string,
                       reader: string)
    requires perm != [] ==> some
    ensures WellFormed(Assemble(some, unknown, perm, restr))
    ensures Allows(Assemble(some, unknown, perm, restr), w, user, reader) <==>
            (unknown && (!some || (perm != [] && !AnyOpen(perm)))) || ClausesAdmit(perm, restr, w, user, reader)
  {
    if perm != [] { AssembledFilter(perm, restr, w, user, reader); }
  }

  /** The verdict of the policies allows a row exactly when those seen pass it or it says that others might. */
  lemma PolicyCellAllows(t: Table, c: Command, s: Session, w: World, user: string, reader: string)
    ensures WellFormed(PolicyCell(t, c, s))
    ensures Allows(PolicyCell(t, c, s), w, user, reader) <==>
            TellsUnplaced(t, c, s) || SeenAdmit(t, c, s, w, user, reader)
  {
    var perm, restr := Clauses(Applicable(t, c, s, true), c), Clauses(Applicable(t, c, s, false), c);
    var some, unknown := Applicable(t, c, s, true) != [], UnknownPermissive(t, c, s) != [];
    assert PolicyCell(t, c, s) == Assemble(some, unknown, perm, restr);
    AssembleAllows(some, unknown, perm, restr, w, user, reader);
  }

  lemma PolicyCellBoundsRows(t: Table, c: Command, s: Session, edges: seq<Membership>, w: World, user: string,
                             reader: string)
    requires SessionOf(s, None) && s.role.name != PUBLIC && UniqueNames(t.policies)
    requires !DeniesTooSoon(t, c, s) && PoliciesAdmit(edges, s.role, t, c, w, user, reader)
    ensures WellFormed(PolicyCell(t, c, s)) && Allows(PolicyCell(t, c, s), w, user, reader)
  {
    SeenClauses(t, c, s, edges);
    AdmitByClauses(t, c, s.role, edges, w, user, reader);
    PolicyCellAllows(t, c, s, w, user, reader);
    var perm := Clauses(Applicable(t, c, s, true), c);
    if e :| e in perm && ClauseIsOpen(e) { OpenClausePassesEverything(e, w, user, reader); }
  }

  lemma SuperuserHolds(s: Session, acl: Acl, c: Command)
    ensures s.role.superuser ==> PrivilegePaths(s, acl, c) != {}
  {
    if s.role.superuser { assert AccessPath(Superuser, None, []) in PrivilegePaths(s, acl, c); }
  }

  /** Without FORCE the bound fails too: an unseen membership in the owner lifts row security altogether. */
  lemma UnseenOwnerLosesRows(t: Table, s: Session, w: World, user: string, reader: string)
    requires SessionOf(s, None) && s.role == Role("app", false, false)
    requires t == Table("t", true, false, Acl("own", [Grant("app", {Command.Select})], []), [])
    ensures CellFor(t, Command.Select, s, None).cell.verdict == Denied
    ensures Admits([Membership("app", "own", true)], s.role, t, Command.Select, w, user, reader)
  {
    var edges := [Membership("app", "own", true)];
    var chain := ["app", "own"];
    assert edges[0] in edges;
    assert IsChain(edges, chain) && chain[0] == "app" && chain[|chain| - 1] == "own";
    assert Inherits(edges, "app", "own");
    var g := t.acl.grants[0];
    var held := HeldRoles(s);
    assert g in t.acl.grants && Command.Select in g.privileges && g.role in held;
    assert AccessPath(GrantTo, Some("app"), []) in PrivilegePaths(s, t.acl, Command.Select);
    if OwnerReaches(PrivilegePaths(s, t.acl, Command.Select)) {
      OwnerReachesExact(s, t.acl, Command.Select);
      assert false;
    }
  }

  // --- exactly when the bound holds ---

  /** Every row reached under some completion of the graph lies within the verdict. */
  ghost predicate Bounded(t: Table, c: Command, s: Session, walk: Option<TruncateBlocker.Outcome>) {
    forall edges, w, user, reader :: Admits(edges, s.role, t, c, w, user, reader) ==>
      var cell := CellFor(t, c, s, walk).cell; WellFormed(cell) && Allows(cell, w, user, reader)
  }

  /** The blocker search, where it was run, found nothing or turned on the missing graph. */
  predicate Unsure(walk: Option<TruncateBlocker.Outcome>) {
    walk.Some? && walk.value.Blocked? ==> walk.value.unknown
  }

  /** The privilege is seen and no branch before the policies was taken. */
  predicate AtPolicies(t: Table, c: Command, s: Session) {
    PoliciesDecide(PrivilegePaths(s, t.acl, c) != {}, OwnerReaches(PrivilegePaths(s, t.acl, c)), t, c, s)
  }

  /**
    Row security is not forced on the owner, whom the session may turn out to inherit, and the
    policies seen to apply stop some row without the verdict saying that others might not.
   */
  ghost predicate OwnerEscapes(t: Table, c: Command, s: Session) {
    && !t.forceRls && t.acl.owner != "" && !TellsUnplaced(t, c, s)
    && exists w, user, reader :: !SeenAdmit(t, c, s, w, user, reader)
  }

  /**
    A policy `TO` a role the session may turn out to inherit admits a row that everything binding then
    lets through.
   */
  ghost predicate UnplacedAdmits(t: Table, c: Command, s: Session, p: Policy, r: string, w: World, user: string,
                                 reader: string) {
    && p in t.policies && p.permissive && PolicyApplies(p, c, s) == None && r in p.roles
    && EffectiveClause(p, c).Some? && Passes(EffectiveClause(p, c).value, w, user, reader)
    && forall q :: q in t.policies && !q.permissive && BindsThrough(q, c, s.role.name, r) ==>
         EffectiveClause(q, c).Some? ==> Passes(EffectiveClause(q, c).value, w, user, reader)
  }

  /** The policy binds a role that inherits `r` and nothing else. */
  predicate BindsThrough(p: Policy, c: Command, role: string, r: string) {
    && (p.command.None? || p.command.value == c)
    && (p.roles == {} || PUBLIC in p.roles || role in p.roles || r in p.roles)
  }

  ghost predicate PolicyEscapes(t: Table, c: Command, s: Session) {
    DeniesTooSoon(t, c, s) && exists p, r, w, user, reader :: UnplacedAdmits(t, c, s, p, r, w, user, reader)
  }

  lemma GivenDecides(held: bool, known: bool, owner: bool, t: Table, c: Command, s: Session, byPolicy: Cell)
    requires known ==> held
    ensures var cell := CellGiven(held, known, owner, t, c, s, None, byPolicy);
            if PoliciesDecide(held, owner, t, c, s) then cell == byPolicy
            else cell == Plain(Undecided, cell.note) || cell == Plain(Verdict.Open, cell.note)
  {}

  /** Where the policies do not decide, the verdict leaves no row out. */
  lemma AtPoliciesDecides(t: Table, c: Command, s: Session)
    requires SessionOf(s, None) && s.role.name != PUBLIC
    ensures var cell := CellFor(t, c, s, None).cell;
            && WellFormed(cell)
            && (if AtPolicies(t, c, s) then cell == PolicyCell(t, c, s) else cell.verdict in {Undecided, Verdict.Open})
  {
    SuperuserHolds(s, t.acl, c);
    PolicyCellWellFormed(t, c, s);
    var paths := PrivilegePaths(s, t.acl, c);
    GivenDecides(paths != {}, PrivilegeKnown(s, t.acl, c), OwnerReaches(paths), t, c, s, PolicyCell(t, c, s));
  }

  lemma OneEdge(role: string, r: string, target: string)
    ensures Inherits([Membership(role, r, true)], role, target) <==> target == role || target == r
  {
    var edges := [Membership(role, r, true)];
    InheritsSelf(edges, role);
    assert edges[0] in edges;
    assert IsChain(edges, [role, r]) && [role, r][0] == role && [role, r][|[role, r]| - 1] == r;
    if Inherits(edges, role, target) {
      var chain :| IsChain(edges, chain) && chain[0] == role && chain[|chain| - 1] == target;
      ClosedHoldsChain(edges, {role, r}, chain);
    }
  }

  /** One row admitted under one completion and not allowed by the verdict breaks the bound. */
  lemma LeftOut(t: Table, c: Command, s: Session, edges: seq<Membership>, w: World, user: string, reader: string)
    requires var cell := CellFor(t, c, s, None).cell; WellFormed(cell) && !Allows(cell, w, user, reader)
    requires Admits(edges, s.role, t, c, w, user, reader)
    ensures !Bounded(t, c, s, None)
  {}

  /** Every row is admitted once the role turns out to inherit an owner row security does not bind. */
  lemma OwnerIsAdmitted(t: Table, c: Command, s: Session, w: World, user: string, reader: string)
    requires SessionOf(s, None) && s.role.name != PUBLIC && PrivilegePaths(s, t.acl, c) != {} && !t.forceRls
             && t.acl.owner != ""
    ensures Admits([Membership(s.role.name, t.acl.owner, true)], s.role, t, c, w, user, reader)
  {
    var edges := [Membership(s.role.name, t.acl.owner, true)];
    PathsSoundWithoutGraph(s, edges, t.acl, c);
    OneEdge(s.role.name, t.acl.owner, t.acl.owner);
  }

  lemma OwnerEscapeRow(t: Table, c: Command, s: Session, w: World, user: string, reader: string)
    requires SessionOf(s, None) && s.role.name != PUBLIC && AtPolicies(t, c, s) && !t.forceRls && t.acl.owner != ""
    requires WellFormed(PolicyCell(t, c, s)) && !Allows(PolicyCell(t, c, s), w, user, reader)
    ensures !Bounded(t, c, s, None)
  {
    OwnerIsAdmitted(t, c, s, w, user, reader);
    AtPoliciesDecides(t, c, s);
    LeftOut(t, c, s, [Membership(s.role.name, t.acl.owner, true)], w, user, reader);
  }

  lemma OwnerEscapeBreaks(t: Table, c: Command, s: Session)
    requires SessionOf(s, None) && s.role.name != PUBLIC && AtPolicies(t, c, s) && OwnerEscapes(t, c, s)
    ensures !Bounded(t, c, s, None)
  {
    var w, user, reader :| !SeenAdmit(t, c, s, w, user, reader);
    PolicyCellAllows(t, c, s, w, user, reader);
    OwnerEscapeRow(t, c, s, w, user, reader);
  }

  lemma OneEdgeBinds(p: Policy, c: Command, role: Role, r: string)
    ensures Binds([Membership(role.name, r, true)], role, p, c) <==> BindsThrough(p, c, role.name, r)
  {
    var edges := [Membership(role.name, r, true)];
    OneEdge(role.name, r, r);
    OneEdge(role.name, r, role.name);
    if x :| x in p.roles && Inherits(edges, role.name, x) { OneEdge(role.name, r, x); }
  }

  lemma UnplacedIsAdmitted(t: Table, c: Command, s: Session, p: Policy, r: string, w: World, user: string,
                           reader: string)
    requires SessionOf(s, None) && s.role.name != PUBLIC && UnplacedAdmits(t, c, s, p, r, w, user, reader)
    ensures PoliciesAdmit([Membership(s.role.name, r, true)], s.role, t, c, w, user, reader)
  {
    var edges := [Membership(s.role.name, r, true)];
    forall q ensures Binds(edges, s.role, q, c) <==> BindsThrough(q, c, s.role.name, r) {
      OneEdgeBinds(q, c, s.role, r);
    }
  }

  /** When it denies too soon, every row an unplaced policy admits escapes it under some completion of the graph. */
  lemma DeniesTooSoonLosesRows(t: Table, c: Command, s: Session, p: Policy, r: string, w: World, user: string,
                               reader: string)
    requires SessionOf(s, None) && s.role.name != PUBLIC && AtPolicies(t, c, s) && DeniesTooSoon(t, c, s)
    requires UnplacedAdmits(t, c, s, p, r, w, user, reader)
    ensures CellFor(t, c, s, None).cell.verdict == Denied
    ensures Admits([Membership(s.role.name, r, true)], s.role, t, c, w, user, reader)
  {
    PathsSoundWithoutGraph(s, [Membership(s.role.name, r, true)], t.acl, c);
    UnplacedIsAdmitted(t, c, s, p, r, w, user, reader);
    AtPoliciesDecides(t, c, s);
    PolicyCellWellFormed(t, c, s);
  }

  lemma PolicyEscapeBreaks(t: Table, c: Command, s: Session)
    requires SessionOf(s, None) && s.role.name != PUBLIC && AtPolicies(t, c, s) && PolicyEscapes(t, c, s)
    ensures !Bounded(t, c, s, None)
  {
    var p, r, w, user, reader :| UnplacedAdmits(t, c, s, p, r, w, user, reader);
    DeniesTooSoonLosesRows(t, c, s, p, r, w, user, reader);
    LeftOut(t, c, s, [Membership(s.role.name, r, true)], w, user, reader);
  }

  /**
    Row security is forced; the policy for the role has no USING, and the one that admits every row is
    for another role.
   */
  const TOO_SOON := Table("t", true, true, Acl("own", [Grant("app", {Update})], []),
                          [Policy("own", Some(Update), true, {"app"}, None, None),
                           Policy("all", Some(Update), true, {"lead"}, Some(Const(Truth(Yes))), None)])

  lemma TooSoonPolicies(s: Session)
    requires SessionOf(s, None) && s.role == Role("app", false, false)
    ensures var ps := TOO_SOON.policies;
            && PolicyApplies(ps[0], Update, s) == VerdictByName(ps, "own", Update, s) == Some(true)
            && PolicyApplies(ps[1], Update, s) == VerdictByName(ps, "all", Update, s) == None
  {
    var ps := TOO_SOON.policies;
    assert "app" in ps[0].roles * s.appliesTo;
    assert "own" != "all" by { assert "own"[0] == 'o' && "all"[0] == 'a'; }
    NamedVerdict(ps, ps[0], Update, s);
    NamedVerdict(ps, ps[1], Update, s);
  }

  lemma TooSoonDenies(s: Session)
    requires SessionOf(s, None) && s.role == Role("app", false, false)
    ensures AtPolicies(TOO_SOON, Update, s) && DeniesTooSoon(TOO_SOON, Update, s)
  {
    var t, held := TOO_SOON, HeldRoles(s);
    var g, ps := t.acl.grants[0], TOO_SOON.policies;
    TooSoonPolicies(s);
    assert g in t.acl.grants && Update in g.privileges && g.role in held;
    assert AccessPath(GrantTo, Some("app"), []) in PrivilegePaths(s, t.acl, Update);
    OwnerReachesExact(s, t.acl, Update);
    assert ps[0] in Applicable(t, Update, s, true) && ps[1] in UnknownPermissive(t, Update, s);
    forall p | p in Applicable(t, Update, s, true) ensures EffectiveClause(p, Update).None? { assert p == ps[0]; }
  }

  /** So there is a table denied to a role that one unseen membership lets update every row. */
  lemma TooSoonLosesRows(s: Session, w: World, user: string, reader: string)
    requires SessionOf(s, None) && s.role == Role("app", false, false)
    ensures PolicyEscapes(TOO_SOON, Update, s) && CellFor(TOO_SOON, Update, s, None).cell.verdict == Denied
    ensures Admits([Membership("app", "lead", true)], s.role, TOO_SOON, Update, w, user, reader)
  {
    var p := TOO_SOON.policies[1];
    TooSoonPolicies(s);
    TooSoonDenies(s);
    assert UnplacedAdmits(TOO_SOON, Update, s, p, "lead", w, user, reader);
    DeniesTooSoonLosesRows(TOO_SOON, Update, s, p, "lead", w, user, reader);
  }

  lemma BindingIsUnplaced(t: Table, c: Command, s: Session, edges: seq<Membership>, p: Policy)
    requires SessionOf(s, None) && s.role.name != PUBLIC && UniqueNames(t.policies)
    requires Clauses(Applicable(t, c, s, true), c) == []
    requires p in t.policies && p.permissive && Binds(edges, s.role, p, c) && EffectiveClause(p, c).Some?
    ensures PolicyApplies(p, c, s) == None && exists r :: r in p.roles && Inherits(edges, s.role.name, r)
  {
    NamedVerdict(t.policies, p, c, s);
    SeenPoliciesBind(p, c, s, edges);
    var e := EffectiveClause(p, c).value;
    assert p in Applicable(t, c, s, true) ==> e in Clauses(Applicable(t, c, s, true), c);
    var roles := if p.roles == {} then {PUBLIC} else p.roles;
    assert PUBLIC in roles ==> PUBLIC in roles * s.appliesTo;
  }

  /** A row that binding policies admit after a denial shows which of them escaped it. */
  lemma EscapeFound(t: Table, c: Command, s: Session, edges: seq<Membership>, w: World, user: string, reader: string)
    requires SessionOf(s, None) && s.role.name != PUBLIC && UniqueNames(t.policies)
    requires DeniesTooSoon(t, c, s) && PoliciesAdmit(edges, s.role, t, c, w, user, reader)
    ensures PolicyEscapes(t, c, s)
  {
    var p :| p in t.policies && p.permissive && Binds(edges, s.role, p, c) && EffectiveClause(p, c).Some?
             && Passes(EffectiveClause(p, c).value, w, user, reader);
    BindingIsUnplaced(t, c, s, edges, p);
    var r :| r in p.roles && Inherits(edges, s.role.name, r);
    InheritsSelf(edges, s.role.name);
    assert UnplacedAdmits(t, c, s, p, r, w, user, reader);
  }

  lemma BoundedRow(t: Table, c: Command, s: Session, edges: seq<Membership>, w: World, user: string, reader: string)
    requires SessionOf(s, None) && s.role.name != PUBLIC && UniqueNames(t.policies)
    requires AtPolicies(t, c, s) ==> !OwnerEscapes(t, c, s) && !PolicyEscapes(t, c, s)
    requires Admits(edges, s.role, t, c, w, user, reader)
    ensures var cell := CellFor(t, c, s, None).cell; WellFormed(cell) && Allows(cell, w, user, reader)
  {
    AtPoliciesDecides(t, c, s);
    if AtPolicies(t, c, s) {
      if BypassesPolicies(edges, s.role, t, c) {
        PolicyCellAllows(t, c, s, w, user, reader);
      } else {
        if DeniesTooSoon(t, c, s) { EscapeFound(t, c, s, edges, w, user, reader); }
        PolicyCellBoundsRows(t, c, s, edges, w, user, reader);
      }
    }
  }

  lemma RowBoundExact(t: Table, c: Command, s: Session)
    requires SessionOf(s, None) && s.role.name != PUBLIC && UniqueNames(t.policies)
    ensures Bounded(t, c, s, None) <==> !(AtPolicies(t, c, s) && (OwnerEscapes(t, c, s) || PolicyEscapes(t, c, s)))
  {
    if AtPolicies(t, c, s) && OwnerEscapes(t, c, s) {
      OwnerEscapeBreaks(t, c, s);
    } else if AtPolicies(t, c, s) && PolicyEscapes(t, c, s) {
      PolicyEscapeBreaks(t, c, s);
    } else {
      forall edges, w, user, reader | Admits(edges, s.role, t, c, w, user, reader)
        ensures var cell := CellFor(t, c, s, None).cell; WellFormed(cell) && Allows(cell, w, user, reader)
      {
        BoundedRow(t, c, s, edges, w, user, reader);
      }
    }
  }

  /**
    Without the graph the blocker search never settles on a block: the table it stops at might itself be
    truncatable.
   */
  lemma {:induction false} MissingGraphBlocks(tables: map<string, Table>, s: Session, g: Hierarchy.Graph,
                                              ancestors: Hierarchy.Links, emptied: seq<string>, todo: seq<string>,
                                              refs: seq<string>)
    requires s.closure.None? && g.Names() <= tables.Keys && Elements(refs) <= g.Names()
    ensures Unsure(Some(TruncateBlocker.Walk(g, ancestors, CanTruncate(tables, s), emptied, todo, refs)))
    decreases TruncateBlocker.World(g, ancestors) - Elements(emptied), |todo|, |refs|
  {
    var can := CanTruncate(tables, s);
    if refs != [] {
      assert refs[0] in Elements(refs) && Elements(refs[1..]) <= Elements(refs);
      var candidates := TruncateBlocker.Above(ancestors, refs[0]);
      var chosen := TruncateBlocker.Choose(candidates, can);
      if refs[0] in emptied {
        MissingGraphBlocks(tables, s, g, ancestors, emptied, todo, refs[1..]);
      } else if chosen.Some? {
        var next := Hierarchy.AddNew(g.Subtree(chosen.value), emptied);
        Hierarchy.AddNewElements(g.Subtree(chosen.value), emptied);
        TruncateBlocker.ChosenNamed(g, ancestors, can, refs[0], chosen.value);
        MissingGraphBlocks(tables, s, g, ancestors, next, todo + next[|emptied|..], refs[1..]);
      } else {
        TruncateBlocker.ChooseFinds(candidates, can);
        assert candidates[0] == refs[0] && refs[0] in candidates && can(refs[0]) == None;
      }
    } else if todo != [] {
      MissingGraphBlocks(tables, s, g, ancestors, emptied, todo[..|todo| - 1],
          Hierarchy.At(g.referencing, todo[|todo| - 1]));
    }
  }

  lemma NoTruncateIsRuledOut(t: Table, s: Session, walk: Option<TruncateBlocker.Outcome>)
    requires SessionOf(s, None) && s.role.name != PUBLIC && Unsure(walk)
    ensures CellFor(t, Truncate, s, walk).cell.verdict in {Undecided, Verdict.Open}
  {
    SuperuserHolds(s, t.acl, Truncate);
    var paths := PrivilegePaths(s, t.acl, Truncate);
    var cell := CellGiven(paths != {}, PrivilegeKnown(s, t.acl, Truncate), OwnerReaches(paths), t, Truncate, s, walk,
                          PolicyCell(t, Truncate, s));
    assert cell.verdict in {Undecided, Verdict.Open};
  }

  /**
    Without the membership graph the verdict is an upper bound under every completion of it,
    except exactly where the policies decide and either an unseen membership in the owner lifts
    unforced row security, or the denial came before a policy it could not place.
   */
  lemma MissingGraphExact(t: Table, c: Command, s: Session, walk: Option<TruncateBlocker.Outcome>)
    requires SessionOf(s, None) && s.role.name != PUBLIC && UniqueNames(t.policies) && Unsure(walk)
    ensures Bounded(t, c, s, walk) <==> !(AtPolicies(t, c, s) && (OwnerEscapes(t, c, s) || PolicyEscapes(t, c, s)))
  {
    if c == Truncate {
      NoTruncateIsRuledOut(t, s, walk);
    } else {
      RowBoundExact(t, c, s);
      assert CellFor(t, c, s, walk).cell == CellFor(t, c, s, None).cell;
    }
  }

  /**
    Without the graph, on a FORCE'd table and for the row commands, every row reached under
    some completion of the graph lies within the verdict, unless the verdict denied too soon.
   */
  lemma MissingGraphBounds(t: Table, c: Command, s: Session, edges: seq<Membership>, w: World, user: string,
                           reader: string)
    requires SessionOf(s, None) && s.role.name != PUBLIC && UniqueNames(t.policies)
    requires t.forceRls && c != Truncate && !DeniesTooSoon(t, c, s)
    requires Admits(edges, s.role, t, c, w, user, reader)
    ensures var cell := CellFor(t, c, s, None).cell;
            WellFormed(cell) && Allows(cell, w, user, reader)
  {
    BoundedRow(t, c, s, edges, w, user, reader);
  }
}
