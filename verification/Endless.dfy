/**
  Roles for which the fixed-point loop never ends: one that reads every table under the same filter
  and does nothing else, over a hierarchy whose ancestor lists make a cycle.
 */
module Endless {
  import opened Prelude
  import opened Predicate
  import opened Cells
  import opened Privileges
  import opened ViewDoors
  import opened RoleRows
  import Ancestry
  import CellFor
  import Dependence
  import DoorRows
  import Hierarchy
  import OwnerDoors
  import Reach
  import ReachFixpoint
  import T = ReachTermination
  import TruncateBlocker

  // --- one table ---

  /** The session holds SELECT on the table by a grant, and nothing else. */
  predicate ReadsOnly(s: Session, acl: Acl) {
    && !s.role.superuser && !s.role.bypassrls && s.closure.Some? && PUBLIC in s.appliesTo
    && s.role.name in HeldRoles(s) && "pg_write_all_data" !in HeldRoles(s) && acl.owner !in HeldRoles(s)
    && acl.columnGrants == [] && (forall g :: g in acl.grants ==> g.privileges <= {Select})
    && exists g :: g in acl.grants && Select in g.privileges && (g.role == PUBLIC || g.role in HeldRoles(s))
  }

  function ForEveryone(name: string, filter: Expr): CellFor.Policy {
    CellFor.Policy(name, Some(Select), true, {}, Some(filter), None)
  }

  /** Row security is on with one policy, a filter that is not literally true. */
  predicate FilteredBy(t: CellFor.Table, filter: Expr) {
    t.rlsEnabled && !ClauseIsOpen(filter) && |t.policies| == 1
        && t.policies[0] == ForEveryone(t.policies[0].name, filter)
  }

  lemma ReadPath(s: Session, acl: Acl)
    requires ReadsOnly(s, acl)
    ensures PrivilegePaths(s, acl, Select) != {}
  {
    var g :| g in acl.grants && Select in g.privileges && (g.role == PUBLIC || g.role in HeldRoles(s));
    var kind := if g.role == PUBLIC then PublicGrant else GrantTo;
    assert AccessPath(kind, Some(g.role), []) in PrivilegePaths(s, acl, Select);
  }

  lemma NoOwnerPath(s: Session, acl: Acl, c: Command)
    requires ReadsOnly(s, acl)
    ensures !CellFor.OwnerReaches(PrivilegePaths(s, acl, c))
  {
    CellFor.OwnerReachesExact(s, acl, c);
  }

  lemma NoOtherPath(s: Session, acl: Acl, c: Command)
    requires ReadsOnly(s, acl) && c != Select
    ensures PrivilegePaths(s, acl, c) == {}
  {
    assert OwnerPath(s, acl) == {};
  }

  lemma OneApplies(p: CellFor.Policy, c: Command, s: Session, permissive: bool, verdict: Option<bool>)
    ensures var kept := CellFor.WithVerdict([p], [p], c, s, permissive, verdict);
            kept == if p.permissive == permissive && CellFor.PolicyApplies(p, c, s) == verdict then [p] else []
  {
    assert [p][1..] == [] && CellFor.VerdictByName([p], p.name, c, s) == CellFor.PolicyApplies(p, c, s);
  }

  lemma OnePolicyCell(t: CellFor.Table, s: Session, filter: Expr)
    requires FilteredBy(t, filter) && PUBLIC in s.appliesTo
    ensures CellFor.PolicyCell(t, Select, s) == T.Filtered(filter, None)
  {
    var p := t.policies[0];
    assert t.policies == [p];
    assert PUBLIC in {PUBLIC} * s.appliesTo && CellFor.PolicyApplies(p, Select, s) == Some(true);
    OneApplies(p, Select, s, true, Some(true));
    OneApplies(p, Select, s, true, None);
    OneApplies(p, Select, s, false, Some(true));
    assert [p][1..] == [] && CellFor.Clauses([p], Select) == [filter];
  }

  lemma ReadCell(cat: Catalog, s: Session, t: CellFor.Table, c: Command, filter: Expr)
    requires ReadsOnly(s, t.acl) && FilteredBy(t, filter)
    ensures DirectOf(cat, s, t, c).cell == if c == Select then T.Filtered(filter, None) else Plain(Denied, None)
    ensures DirectOf(cat, s, t, c).paths != {} <==> c == Select
  {
    NoOwnerPath(s, t.acl, c);
    if c == Select {
      ReadPath(s, t.acl);
      OnePolicyCell(t, s, filter);
    } else {
      NoOtherPath(s, t.acl, c);
    }
  }

  // --- the role ---

  /** No views, no functions, and every table read under one filter. */
  predicate ReadsUnder(u: Setup, filter: Expr) {
    && u.cat.views == map[] && u.starts == [] && u.functions == []
    && forall n :: n in u.cat.tables ==>
        ReadsOnly(u.session, u.cat.tables[n].acl) && FilteredBy(u.cat.tables[n], filter)
  }

  lemma NoDoorsToChoose(u: Setup, k: Spot)
    requires u.starts == [] && u.functions == [] && k.rel in u.cat.tables
    ensures BaseCell(u, k) == DirectOf(u.cat, u.session, u.cat.tables[k.rel], k.command).cell
  {
    assert ViewDoorsAt(u, k) == [] && FunctionDoorsAt(u, u.functions, k) == [];
  }

  lemma NoWritePaths(u: Setup, filter: Expr, n: string, c: Command)
    requires ReadsUnder(u, filter) && n in u.cat.tables && c != Select
    ensures DirectOf(u.cat, u.session, u.cat.tables[n], c).paths == {}
  {
    ReadCell(u.cat, u.session, u.cat.tables[n], c, filter);
  }

  lemma NothingHeldToWrite(u: Setup, filter: Expr)
    requires ReadsUnder(u, filter)
    ensures HeldWrites(u) == {}
  {
    forall n, c | n in u.cat.tables && c in WRITES + {Truncate}
      ensures DirectOf(u.cat, u.session, u.cat.tables[n], c).paths == {}
    {
      NoWritePaths(u, filter, n, c);
    }
  }

  lemma NothingWrittenByDoors(u: Setup)
    requires u.starts == [] && u.functions == []
    ensures DoorWrites(u) == {}
  {}

  lemma BaseReadCell(u: Setup, filter: Expr, k: Spot)
    requires ReadsUnder(u, filter) && k.rel in u.cat.tables
    ensures BaseCell(u, k) == if k.command == Select then T.Filtered(filter, None) else Plain(Denied, None)
  {
    NoDoorsToChoose(u, k);
    ReadCell(u.cat, u.session, u.cat.tables[k.rel], k.command, filter);
  }

  /** The loop starts with every table's SELECT cell under that filter, everything else denied, and nothing issued. */
  lemma BaseReads(u: Setup, filter: Expr, p: seq<string>)
    requires ReadsUnder(u, filter) && forall x :: x in p ==> x in u.cat.tables
    ensures T.StartsOn(p, filter, Base(u))
  {
    NothingHeldToWrite(u, filter);
    NothingWrittenByDoors(u);
    forall k | k in Base(u).cells
      ensures Base(u).cells[k] == if k.command == Select then T.Filtered(filter, None) else Plain(Denied, None)
    {
      BaseReadCell(u, filter, k);
    }
  }

  /** For such a role the loop never ends on any hierarchy whose lists make a cycle. */
  lemma ReadsNeverSettle(u: Setup, s: Reach.Schema, filter: Expr, p: seq<string>)
    requires ReadsUnder(u, filter) && (forall x :: x in p ==> x in u.cat.tables)
    requires T.NoSelectTriggers(s) && T.IsCycle(s, p)
    ensures !ReachFixpoint.Settles(s, Base(u), Me(u))
  {
    BaseReads(u, filter, p);
    T.CycleNeverSettles(s, p, filter, Base(u), Me(u));
  }

  lemma {:induction false} NothingHeld(t: Reach.Table, ancestors: seq<Reach.Ancestor>, s: Reach.Schema)
    requires forall x :: x in s.tables ==> x.triggers == []
    ensures Reach.ClonedFirings(s, t, ancestors) == []
  {
    if ancestors != [] { NothingHeld(t, ancestors[1..], s); }
  }

  lemma {:induction false} NothingFires(s: Reach.Schema, ts: seq<Reach.Table>)
    requires forall x :: x in s.tables ==> x.triggers == []
    requires forall x :: x in ts ==> x in s.tables
    ensures Reach.TableFirings(s, ts) == []
  {
    if ts != [] {
      assert ts[0] in ts;
      NothingHeld(ts[0], ts[0].ancestors, s);
      NothingFires(s, ts[1..]);
    }
  }

  lemma BaseIsStart(u: Setup, s: Reach.Schema)
    requires SetupRight(u) && T.TableNames(s) == u.cat.tables.Keys
    ensures T.IsStart(s, Base(u))
  {
    BaseWellFormed(u);
  }

  /** The base is a start as the loop is given it, and never lets it end. */
  lemma NeverEnds(u: Setup, s: Reach.Schema, filter: Expr, p: seq<string>)
    requires SetupRight(u) && ReadsUnder(u, filter) && T.TableNames(s) == u.cat.tables.Keys
    requires T.IsCycle(s, p) && (forall x :: x in p ==> x in u.cat.tables)
    requires forall x :: x in s.tables ==> x.triggers == []
    ensures T.IsStart(s, Base(u)) && !ReachFixpoint.Settles(s, Base(u), Me(u))
  {
    NothingFires(s, s.tables);
    assert T.NoSelectTriggers(s);
    ReadsNeverSettle(u, s, filter, p);
    BaseIsStart(u, s);
  }

  /** `t` is a partition of `v`, and `v` inherits from `t`. */
  function PairParents(t: string, v: string): Ancestry.Parents {
    Ancestry.Parents({t, v}, map[t := [v]], map[v := [t]])
  }

  function PairSchema(t: string, v: string): Reach.Schema {
    var h := PairParents(t, v);
    Reach.Schema([Reach.Table(t, Ancestry.AncestorsOf(h, t), [], []),
        Reach.Table(v, Ancestry.AncestorsOf(h, v), [], [])], [])
  }

  function ReadTable(name: string, me: string, owner: string, filter: Expr): CellFor.Table {
    CellFor.Table(name, true, true, Acl(owner, [Grant(me, {Select})], []), [ForEveryone("reads", filter)])
  }

  function PairCatalog(t: string, v: string, me: string, owner: string, filter: Expr): Catalog {
    var links := map[t := [v], v := [t]];
    Catalog(map[], map[t := ReadTable(t, me, owner, filter), v := ReadTable(v, me, owner, filter)], map[],
            Hierarchy.Graph(links, map[]), links)
  }

  /** The role is a member of nothing; no body is ever traced. */
  function PairSetup(t: string, v: string, me: string, owner: string, filter: Expr): Setup {
    var cat, session := PairCatalog(t, v, me, owner, filter),
        Session(Role(me, false, false), Some({me}), {me, PUBLIC}, true);
    Setup(cat, session, [], [], [], e => Traced(OwnerDoors.Body(cat, session, "", RuleDoor, "", None, None, false), []))
  }

  lemma NoMemberships(me: string, seed: set<string>, r: string)
    ensures InheritsAny([], seed, r) <==> r in seed
  {
    if r in seed { InheritsSelf([], r); }
    if InheritsAny([], seed, r) { ClosedHoldsEverything([], seed, seed, r); }
  }

  lemma PairSession(t: string, v: string, me: string, owner: string, filter: Expr)
    requires me != PUBLIC
    ensures SessionOf(PairSetup(t, v, me, owner, filter).session, Some([]))
  {
    forall r
      ensures InheritsAny([], {me}, r) <==> r in {me}
      ensures InheritsAny([], {me, PUBLIC}, r) <==> r in {me, PUBLIC}
    {
      NoMemberships(me, {me}, r);
      NoMemberships(me, {me, PUBLIC}, r);
    }
  }

  lemma PairAncestorsSound(t: string, v: string)
    requires t != v
    ensures TruncateBlocker.AncestorsSound(map[t := [v], v := [t]], map[t := [v], v := [t]])
  {
    var links := map[t := [v], v := [t]];
    forall x, a | a in Hierarchy.At(links, x) ensures x in Hierarchy.DescendantsOf(links, a) {
      Hierarchy.DescendantsExact(links, a);
      Hierarchy.BeneathSelf(links, a);
      Hierarchy.BeneathStep(links, a, a, x);
    }
  }

  lemma PairTableRight(name: string, me: string, owner: string, filter: Expr)
    requires Dependence.Judgeable(filter)
    ensures DoorRows.TableRight(ReadTable(name, me, owner, filter))
  {}

  lemma PairCatalogRight(t: string, v: string, me: string, owner: string, filter: Expr)
    requires t != v && Dependence.Judgeable(filter)
    ensures DoorRows.CatalogRight(PairCatalog(t, v, me, owner, filter), [])
  {
    var cat := PairCatalog(t, v, me, owner, filter);
    PairAncestorsSound(t, v);
    forall n | n in cat.tables ensures DoorRows.TableRight(cat.tables[n]) && cat.tables[n].name == n {
      PairTableRight(n, me, owner, filter);
    }
  }

  lemma PairIsRight(t: string, v: string, me: string, owner: string, filter: Expr)
    requires t != v && me != PUBLIC && Dependence.Judgeable(filter)
    ensures SetupRight(PairSetup(t, v, me, owner, filter))
  {
    PairSession(t, v, me, owner, filter);
    PairCatalogRight(t, v, me, owner, filter);
  }

  lemma PairListsAreTheirs(t: string, v: string)
    requires t != v
    ensures Ancestry.ListsFrom(PairSchema(t, v), PairParents(t, v)) && T.TableNames(PairSchema(t, v)) == {t, v}
    ensures T.IsCycle(PairSchema(t, v), [t, v, t])
  {
    var s, h := PairSchema(t, v), PairParents(t, v);
    assert T.TableNames(s) == {t, v} by { assert s.tables[0] in s.tables && s.tables[1] in s.tables; }
    Ancestry.MixedPairIsCyclic(s, h, t, v);
  }

  lemma PairReads(t: string, v: string, me: string, owner: string, filter: Expr)
    requires me != "pg_write_all_data" && owner != me && !ClauseIsOpen(filter)
    ensures ReadsUnder(PairSetup(t, v, me, owner, filter), filter)
  {
    assert Grant(me, {Select}) in [Grant(me, {Select})];
  }

  lemma PairTables(t: string, v: string, me: string, owner: string, filter: Expr)
    requires t != v
    ensures PairSetup(t, v, me, owner, filter).cat.tables.Keys == {t, v}
    ensures forall x :: x in PairSchema(t, v).tables ==> x.triggers == []
    ensures forall x, a :: x in PairSchema(t, v).tables && a in x.ancestors ==> a.table in {t, v}
  {
    Ancestry.MixedLists(PairParents(t, v), t, v);
  }

  lemma PairSchemaOver(u: Setup, s: Reach.Schema)
    requires (forall x :: x in s.tables ==> x.triggers == []) && s.rules == []
    requires forall i, j :: 0 <= i < j < |s.tables| ==> s.tables[i].name != s.tables[j].name
    requires forall x, a :: x in s.tables && a in x.ancestors ==> a.table in u.cat.tables
    ensures SchemaOver(u, s)
  {
    NothingFires(s, s.tables);
  }

  lemma PairFits(t: string, v: string, me: string, owner: string, filter: Expr)
    requires t != v
    ensures SchemaOver(PairSetup(t, v, me, owner, filter), PairSchema(t, v))
  {
    var u, s := PairSetup(t, v, me, owner, filter), PairSchema(t, v);
    PairTables(t, v, me, owner, filter);
    assert s.tables[0].name != s.tables[1].name;
    PairSchemaOver(u, s);
  }

  /**
    So a partition of the table that inherits from it, with one grant of SELECT and one policy for
    everyone on each, is enough: the start that the loop is given for the role never lets it end.
   */
  lemma PairNeverSettles(t: string, v: string, me: string, owner: string, filter: Expr)
    requires t != v && me !in {PUBLIC, "pg_write_all_data"} && owner != me
    requires Dependence.Judgeable(filter) && !ClauseIsOpen(filter)
    ensures var u, s := PairSetup(t, v, me, owner, filter), PairSchema(t, v);
            && SetupRight(u) && SchemaOver(u, s) && Ancestry.ListsFrom(s, PairParents(t, v))
            && T.IsStart(s, Base(u)) && !ReachFixpoint.Settles(s, Base(u), Me(u))
  {
    PairIsRight(t, v, me, owner, filter);
    PairTables(t, v, me, owner, filter);
    PairListsAreTheirs(t, v);
    PairReads(t, v, me, owner, filter);
    PairFits(t, v, me, owner, filter);
    NeverEnds(PairSetup(t, v, me, owner, filter), PairSchema(t, v), filter, [t, v, t]);
  }
}
