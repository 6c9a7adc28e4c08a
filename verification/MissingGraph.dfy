/**
  What the role reaches by itself when the membership graph was not captured: whatever the graph
  turns out to be, every row reached directly, through views or by calling a function lies within
  the verdict that was given without it, unless a direct verdict on the way is one that escapes.
 */
module MissingGraph {
  import opened Prelude
  import opened Predicate
  import opened Dependence
  import opened Cells
  import opened Merge
  import opened Privileges
  import opened ViewDoors
  import opened OwnerDoors
  import opened DoorRows
  import opened RoleRows
  import CellFor
  import Reach
  import TruncateBlocker

  // --- the same role, seen with and without the graph ---

  /** `s` is the session without the graph that `t` is with it. */
  ghost predicate Unseen(s: Session, t: Session) {
    s.role == t.role && SessionOf(s, None)
  }

  ghost predicate CatalogUnseen(a: Catalog, b: Catalog) {
    && a.views == b.views && a.tables == b.tables && a.graph == b.graph && a.ancestors == b.ancestors
    && a.owners.Keys == b.owners.Keys
    && (forall n :: n in a.owners ==> Unseen(a.owners[n], b.owners[n]))
    && a.graph.Names() <= a.tables.Keys
  }

  ghost predicate BodyUnseen(a: Body, b: Body) {
    a == b.(cat := a.cat, owner := a.owner) && CatalogUnseen(a.cat, b.cat) && Unseen(a.owner, b.owner)
  }

  ghost predicate TracedUnseen(a: Traced, b: Traced) {
    a.touches == b.touches && BodyUnseen(a.body, b.body)
  }

  ghost predicate DefinerUnseen(f: Definer, g: Definer) {
    f.call == g.call && f.trigger == g.trigger && TracedUnseen(f.run, g.run)
  }

  ghost predicate SetupUnseen(u: Setup, v: Setup) {
    && CatalogUnseen(u.cat, v.cat) && Unseen(u.session, v.session) && u.starts == v.starts && u.edges == v.edges
    && |u.functions| == |v.functions|
    && forall i :: 0 <= i < |u.functions| ==> DefinerUnseen(u.functions[i], v.functions[i])
  }

  /** The direct verdict without the graph is no upper bound there. */
  ghost predicate Escapes(t: CellFor.Table, c: Command, s: Session) {
    CellFor.AtPolicies(t, c, s) && (CellFor.OwnerEscapes(t, c, s) || CellFor.PolicyEscapes(t, c, s))
  }

  /**
    None of the session's direct verdicts escapes; PUBLIC is a member of nothing, so only the blocker
    search matters to it.
   */
  ghost predicate NoEscape(cat: Catalog, s: Session, c: Command) {
    if s.role.name == PUBLIC then FirstLeast(cat, s, c)
    else forall n :: n in cat.tables ==> !Escapes(cat.tables[n], c, s)
  }

  ghost predicate OwnersNoEscape(cat: Catalog, c: Command) {
    forall n :: n in cat.owners ==> NoEscape(cat, cat.owners[n], c)
  }

  /** Undecided, or the row is one the verdict stands for. */
  ghost predicate MayHold(c: Cell, me: string, w: World)
    requires WellFormed(c)
  {
    c.verdict == Undecided || Shows(c, me, w)
  }

  // --- privileges and direct verdicts ---

  lemma NotRuledOut(s: Session, edges: seq<Membership>, acl: Acl, c: Command)
    requires SessionOf(s, None) && PublicIsNoMember(edges) && HasPrivilege(edges, s.role, acl, c)
    ensures Holds(s, acl, c) != Some(false)
  {
    if s.role.name == PUBLIC {
      PathsExact(s, edges, acl, c);
    } else {
      CellFor.SuperuserHolds(s, acl, c);
    }
  }

  /** A row some graph lets the session reach lies within its direct verdict. */
  lemma DirectBounds(a: Catalog, b: Catalog, edges: seq<Membership>, s: Session, rel: string, c: Command, w: World,
                     user: string, reader: string)
    requires CatalogUnseen(a, b) && CatalogRight(b, edges) && SessionOf(s, None) && NoEscape(a, s, c) && rel in a.tables
    requires Reaches(b, edges, s, rel, c, w, user, reader)
    ensures var cell := DirectOf(a, s, a.tables[rel], c).cell;
            WellFormed(cell) && CellFor.Allows(cell, w, user, reader)
  {
    var t := a.tables[rel];
    assert TableRight(t);
    CellFor.CellWellFormed(t, c, s, WalkFor(a, s, t, c));
    if s.role.name == PUBLIC {
      DirectOfPublic(a, b, s, t, c);
      DirectExact(b, edges, s, rel, c, w, user, reader);
    } else {
      if c == Truncate {
        CellFor.MissingGraphBlocks(a.tables, s, a.graph, a.ancestors, a.graph.Subtree(rel), a.graph.Subtree(rel), []);
      }
      CellFor.MissingGraphExact(t, c, s, WalkFor(a, s, t, c));
    }
  }

  lemma DirectOfPublic(a: Catalog, b: Catalog, s: Session, t: CellFor.Table, c: Command)
    requires CatalogUnseen(a, b)
    ensures DirectOf(a, s, t, c) == DirectOf(b, s, t, c) && (FirstLeast(a, s, c) <==> FirstLeast(b, s, c))
  {}

  // --- through views ---

  ghost predicate TripUnseen(a: Trip, b: Trip) {
    a == b.(cat := a.cat, principal := a.principal) && CatalogUnseen(a.cat, b.cat) && Unseen(a.principal, b.principal)
  }

  ghost predicate TripBounds(a: Trip, b: Trip) {
    && TripUnseen(a, b) && CatalogRight(b.cat, b.edges) && SessionOf(b.principal, Some(b.edges))
    && StartsCatalogued(b.cat, b.starts) && NoEscape(a.cat, a.principal, a.command) && OwnersNoEscape(a.cat, a.command)
  }

  lemma EffUnseen(a: Trip, b: Trip, v: View)
    requires TripBounds(a, b)
    ensures var x, y := Eff(a.cat, a.principal, v), Eff(b.cat, b.principal, v);
            Unseen(x, y) && SessionOf(y, Some(b.edges)) && NoEscape(a.cat, x, a.command)
  {}

  /** What may be held where the graph is known is not ruled out where it is not. */
  lemma HeldNotRuledOut(a: Trip, b: Trip, v: View, acl: Acl)
    requires TripBounds(a, b)
    ensures Holds(b.principal, acl, a.command) == Some(true) ==> Holds(a.principal, acl, a.command) != Some(false)
    ensures Holds(Eff(b.cat, b.principal, v), acl, a.command) == Some(true) ==>
              Holds(Eff(a.cat, a.principal, v), acl, a.command) != Some(false)
  {
    EffUnseen(a, b, v);
    var x, y := Eff(a.cat, a.principal, v), Eff(b.cat, b.principal, v);
    PathsExact(b.principal, b.edges, acl, a.command);
    PathsExact(y, b.edges, acl, a.command);
    if Holds(b.principal, acl, a.command) == Some(true) { NotRuledOut(a.principal, b.edges, acl, a.command); }
    if Holds(y, acl, a.command) == Some(true) { NotRuledOut(x, b.edges, acl, a.command); }
  }

  /** A hop the graph permits is one that some answer permits. */
  lemma HopIsLenient(a: Trip, b: Trip, x: string, y: string)
    requires TripBounds(a, b) && Hop(WalkOn(b), x, y)
    ensures Hop(Lenient(WalkOn(a)), x, y)
  {
    HeldNotRuledOut(a, b, a.cat.views[x], a.cat.views[y].acl);
  }

  lemma LeadsLeniently(a: Trip, b: Trip, entry: View, last: string, table: string)
    requires TripBounds(a, b) && Leads(WalkOn(b), b.starts, entry, last, table)
    ensures Leads(Lenient(WalkOn(a)), a.starts, entry, last, table)
  {
    var k, l := WalkOn(b), Lenient(WalkOn(a));
    HeldNotRuledOut(a, b, entry, entry.acl);
    var p :| IsWalk(k, p) && p[0] == entry.name && p[|p| - 1] == last && last in k.cat.views
             && table in k.cat.views[last].references && table in k.cat.tables;
    forall i | 0 < i < |p| ensures Hop(l, p[i - 1], p[i]) { HopIsLenient(a, b, p[i - 1], p[i]); }
    assert IsWalk(l, p);
  }

  /** The cell of a view that a row is reached from may hold it. */
  lemma ViewCellMayHold(a: Trip, b: Trip, entry: View, v: View, table: string, x: Cell, me: string, w: World)
    requires TripBounds(a, b) && table in a.cat.tables && ReachesFrom(b, v, table, me, w)
    requires Retells(a, x, DoorCell(WalkOn(a), entry, v, a.cat.tables[table])) || x.verdict == Undecided
    ensures DoorCell(WalkOn(a), entry, v, a.cat.tables[table]).verdict != Denied
    ensures WellFormed(x) && MayHold(x, me, w)
  {
    var eff, t := Eff(a.cat, a.principal, v), a.cat.tables[table];
    EffUnseen(a, b, v);
    DirectBounds(a.cat, b.cat, b.edges, eff, table, a.command, w, Resolve(a.session, me), Reader(a, v));
    CellFor.CellWellFormed(t, a.command, eff, WalkFor(a.cat, eff, t, a.command));
    assert WalkOn(a).reach(v, t).cell == DirectOf(a.cat, eff, t, a.command).cell;
  }

  /** The table at the end of a permitted walk is recorded without the graph, by a door that may hold the row. */
  lemma LedDoorMayHold(a: Trip, b: Trip, entry: View, last: string, table: string, tell: Door -> Door, me: string,
                       w: World)
    returns (door: Door)
    requires TripBounds(a, b) && Leads(WalkOn(b), b.starts, entry, last, table) && last in a.cat.views
             && table in a.cat.tables
    requires ReachesFrom(b, a.cat.views[last], table, me, w) && forall d :: Retells(a, tell(d).cell, d.cell)
    ensures Record(table, door) in AllEvents(WalkOn(a), a.starts)
    ensures WellFormed(tell(door).cell) && MayHold(tell(door).cell, me, w)
  {
    var v := a.cat.views[last];
    ViewCellMayHold(a, b, entry, v, table, Plain(Undecided, None), me, w);
    LeadsLeniently(a, b, entry, last, table);
    door := LeadsIsCovered(WalkOn(a), a.starts, entry, last, table);
    assert Retells(a, tell(door).cell, door.cell);
    ViewCellMayHold(a, b, entry, v, table, tell(door).cell, me, w);
  }

  lemma LedRowBound(a: Trip, b: Trip, entry: View, last: string, table: string, ds: seq<Door>, tell: Door -> Door,
                    me: string, w: World)
    requires TripBounds(a, b) && Leads(WalkOn(b), b.starts, entry, last, table) && last in a.cat.views
             && table in a.cat.tables
    requires DoorsRetell(a, table, ds, tell) && DoorsWellFormed(ds) && ReachesFrom(b, a.cat.views[last], table, me, w)
    ensures MayShow(ds, me, w)
  {
    var door := LedDoorMayHold(a, b, entry, last, table, tell, me, w);
    assert tell(door) in ds;
  }

  /** A row that a permitted walk reaches may be shown by the doors found without the graph. */
  lemma ViewDoorsBound(a: Trip, b: Trip, table: string, ds: seq<Door>, tell: Door -> Door, me: string, w: World)
    requires TripBounds(a, b) && table in a.cat.tables && DoorsRetell(a, table, ds, tell) && DoorsWellFormed(ds)
    requires ViewRow(b, table, me, w)
    ensures MayShow(ds, me, w)
  {
    var entry, last :| Leads(WalkOn(b), b.starts, entry, last, table) && last in b.cat.views
        && ReachesFrom(b, b.cat.views[last], table, me, w);
    LedRowBound(a, b, entry, last, table, ds, tell, me, w);
  }

  // --- through bodies ---

  ghost predicate BodyBounds(a: Body, b: Body, edges: seq<Membership>, c: Command) {
    && BodyUnseen(a, b) && CatalogRight(b.cat, edges) && SessionOf(b.owner, Some(edges))
    && NoEscape(a.cat, a.owner, c) && OwnersNoEscape(a.cat, c)
  }

  /** The owner's own verdict on a table its body touches may hold what the owner reaches there. */
  lemma TableSpotMayHold(a: Body, b: Body, edges: seq<Membership>, k: Spot, me: string, w: World)
    requires BodyBounds(a, b, edges, k.command) && k.rel in a.cat.tables
    requires Reaches(b.cat, edges, b.owner, k.rel, k.command, w, Resolve(b.session, me),
             Resolve(b.privileges, b.owner.role.name))
    ensures OwnersDirect(a, k).cell.verdict != Denied
    ensures WellFormed(TableCell(a, k)) && MayHold(TableCell(a, k), me, w)
  {
    DirectBounds(a.cat, b.cat, edges, a.owner, k.rel, k.command, w, Resolve(a.session, me),
        Resolve(a.privileges, a.owner.role.name));
    CellFor.CellWellFormed(a.cat.tables[k.rel], k.command, a.owner,
        WalkFor(a.cat, a.owner, a.cat.tables[k.rel], k.command));
  }

  lemma SpotDoorsWellFormed(a: Body, s: Spot, k: Spot)
    ensures DoorsWellFormed(Reach.DoorsFor(OneEffect(a, s).doors, k))
  {
    forall d | d in Reach.DoorsFor(OneEffect(a, s).doors, k) ensures WellFormed(d.cell) {
      Reach.DoorsForMembers(OneEffect(a, s).doors, k, d);
      PlacedWellFormed(a, s, Reach.Placed(k, d));
    }
  }

  lemma TableSpotBound(a: Body, b: Body, edges: seq<Membership>, k: Spot, me: string, w: World)
    requires BodyBounds(a, b, edges, k.command) && k.rel in a.cat.tables
    requires Reaches(b.cat, edges, b.owner, k.rel, k.command, w, Resolve(b.session, me),
                     Resolve(b.privileges, b.owner.role.name))
    ensures DoorsWellFormed(Reach.DoorsFor(OneEffect(a, k).doors, k))
            && MayShow(Reach.DoorsFor(OneEffect(a, k).doors, k), me, w)
  {
    TableDoors(a, k, k);
    TableSpotMayHold(a, b, edges, k, me, w);
  }

  lemma BodyTripBounds(a: Body, b: Body, edges: seq<Membership>, s: Spot)
    requires BodyBounds(a, b, edges, s.command) && IsViewSpot(a, s)
    ensures IsViewSpot(b, s) && TripBounds(BodyTrip(a, edges, s), BodyTrip(b, edges, s))
  {}

  lemma ViewSpotBound(a: Body, b: Body, edges: seq<Membership>, s: Spot, k: Spot, me: string, w: World)
    requires BodyBounds(a, b, edges, k.command) && k.rel in a.cat.tables && IsViewSpot(a, s) && s.command == k.command
    requires ViewRow(BodyTrip(b, edges, s), k.rel, me, w)
    ensures DoorsWellFormed(Reach.DoorsFor(OneEffect(a, s).doors, k))
            && MayShow(Reach.DoorsFor(OneEffect(a, s).doors, k), me, w)
  {
    SpotDoorsWellFormed(a, s, k);
    ViewSpotRetells(a, edges, s, k);
    BodyTripBounds(a, b, edges, s);
    ViewDoorsBound(BodyTrip(a, edges, s), BodyTrip(b, edges, s), k.rel, Reach.DoorsFor(OneEffect(a, s).doors, k),
                   (door: Door) => EventDoor(a, door), me, w);
  }

  /** What one touch reaches as the owner, whatever the graph, may be shown by the doors it opens without it. */
  lemma SpotBound(a: Body, b: Body, edges: seq<Membership>, s: Spot, k: Spot, me: string, w: World)
    requires BodyBounds(a, b, edges, k.command) && k.rel in a.cat.tables && SpotRow(b, edges, s, k, me, w)
    ensures DoorsWellFormed(Reach.DoorsFor(OneEffect(a, s).doors, k))
            && MayShow(Reach.DoorsFor(OneEffect(a, s).doors, k), me, w)
  {
    if s == k && Reaches(b.cat, edges, b.owner, k.rel, k.command, w, Resolve(b.session, me),
        Resolve(b.privileges, b.owner.role.name)) {
      TableSpotBound(a, b, edges, k, me, w);
    } else {
      ViewSpotBound(a, b, edges, s, k, me, w);
    }
  }

  lemma ExpandsAlike(a: Body, b: Body, t: Touch)
    requires BodyUnseen(a, b)
    ensures Expand(a, t) == Expand(b, t)
  {}

  /** So with all of a body's touches. */
  lemma BodyBound(a: Body, b: Body, touches: seq<Touch>, edges: seq<Membership>, k: Spot, me: string, w: World)
    requires BodyBounds(a, b, edges, k.command) && k.rel in a.cat.tables && BodyRow(b, touches, edges, k, me, w)
    ensures var ds := Reach.DoorsFor(RunAsOwner(a, touches).doors, k); DoorsWellFormed(ds) && MayShow(ds, me, w)
  {
    var s :| Touches(b, touches, s) && SpotRow(b, edges, s, k, me, w);
    var t :| t in touches && s in Expand(b, t);
    ExpandsAlike(a, b, t);
    SpotBound(a, b, edges, s, k, me, w);
    var d :| d in Reach.DoorsFor(OneEffect(a, s).doors, k) && (d.cell.verdict == Undecided || Shows(d.cell, me, w));
    BodyDoorsMembers(a, touches, k, d);
    BodyDoorsWellFormed(a, touches, k);
  }

  lemma BodyDoorsWellFormed(a: Body, touches: seq<Touch>, k: Spot)
    ensures DoorsWellFormed(Reach.DoorsFor(RunAsOwner(a, touches).doors, k))
  {
    RunAsOwnerWellFormed(a, touches);
    forall d | d in Reach.DoorsFor(RunAsOwner(a, touches).doors, k) ensures WellFormed(d.cell) {
      Reach.DoorsForMembers(RunAsOwner(a, touches).doors, k, d);
    }
  }

  // --- everything the role reaches by itself ---

  /** A fold may hold whatever the cell or some door may hold. */
  lemma FoldBounds(cell: Cell, ds: seq<Door>, me: string, w: World)
    requires WellFormed(cell) && FilterJudgeable(cell) && DoorsWellFormed(ds) && Lawful(w)
    requires forall d :: d in ds ==> FilterJudgeable(d.cell)
    requires MayHold(cell, me, w) || MayShow(ds, me, w)
    ensures WellFormed(Fold(cell, ds, me)) && MayHold(Fold(cell, ds, me), me, w)
  {
    FoldMeans(cell, ds, me, (x: World) => MayHold(cell, me, x), (x: World) => MayShow(ds, me, x));
  }

  ghost predicate SetupBounds(u: Setup, v: Setup, c: Command) {
    && SetupUnseen(u, v) && SetupRight(v) && NoEscape(u.cat, u.session, c) && OwnersNoEscape(u.cat, c)
    && forall f :: f in u.functions ==>
        NoEscape(f.run.body.cat, f.run.body.owner, c) && OwnersNoEscape(f.run.body.cat, c)
  }

  lemma DirectRowBound(u: Setup, v: Setup, k: Spot, w: World)
    requires SetupBounds(u, v, k.command) && DirectRow(v, k, w)
    ensures k.rel in u.cat.tables
    ensures var cell := DirectOf(u.cat, u.session, u.cat.tables[k.rel], k.command).cell;
            WellFormed(cell) && MayHold(cell, Me(u), w)
  {
    DirectBounds(u.cat, v.cat, v.edges, u.session, k.rel, k.command, w, Me(u), Me(u));
    CellFor.CellWellFormed(u.cat.tables[k.rel], k.command, u.session,
        WalkFor(u.cat, u.session, u.cat.tables[k.rel], k.command));
  }

  lemma RoleTripBounds(u: Setup, v: Setup, c: Command)
    requires SetupBounds(u, v, c)
    ensures TripBounds(RoleTrip(u, c), RoleTrip(v, c))
  {}

  // --- every door can be folded ---

  /** What a search needs of its catalog for its doors to be folded, whatever the sessions know. */
  ghost predicate Foldable(cat: Catalog) {
    CatalogWellFormed(cat) && forall n :: n in cat.tables ==> TableRight(cat.tables[n])
  }

  lemma DoorCellFolds(a: Trip, entry: View, v: View, table: string)
    requires Foldable(a.cat) && table in a.cat.tables
    ensures var x := DoorCell(WalkOn(a), entry, v, a.cat.tables[table]); WellFormed(x) && FilterJudgeable(x)
  {
    var t, eff := a.cat.tables[table], Eff(a.cat, a.principal, v);
    DirectJudgeable(a.cat, eff, t, a.command);
    CellFor.CellWellFormed(t, a.command, eff, WalkFor(a.cat, eff, t, a.command));
    assert WalkOn(a).reach(v, t).cell == DirectOf(a.cat, eff, t, a.command).cell;
  }

  lemma RecordFolds(a: Trip, table: string, door: Door)
    requires Foldable(a.cat) && StartsCatalogued(a.cat, a.starts)
             && Record(table, door) in AllEvents(WalkOn(a), a.starts)
    ensures WellFormed(door.cell) && FilterJudgeable(door.cell)
  {
    if door.cell.verdict != Undecided {
      var entry, last := RecordLeads(WalkOn(a), a.starts, table, door);
      DoorCellFolds(a, entry, a.cat.views[last], table);
    }
  }

  lemma SpotDoorFolds(a: Body, s: Spot, k: Spot, d: Door)
    requires Foldable(a.cat) && k.rel in a.cat.tables && d in Reach.DoorsFor(OneEffect(a, s).doors, k)
    ensures FilterJudgeable(d.cell)
  {
    Reach.DoorsForMembers(OneEffect(a, s).doors, k, d);
    if s.rel in a.cat.tables {
      DirectJudgeable(a.cat, a.owner, a.cat.tables[s.rel], s.command);
    } else if IsViewSpot(a, s) && s.command == k.command {
      ViewSpotRetells(a, [], s, k);
      var t := BodyTrip(a, [], s);
      var door :| Record(k.rel, door) in AllEvents(WalkOn(t), t.starts) && d == EventDoor(a, door);
      RecordFolds(t, k.rel, door);
      assert Retells(t, d.cell, door.cell);
    } else {
      NothingElsewhere(a, [], s, k, "");
    }
  }

  lemma {:induction false} FunctionDoorMembers(u: Setup, fs: seq<Definer>, k: Spot, d: Door)
    ensures d in FunctionDoorsAt(u, fs, k) <==> exists f :: f in fs && d in DoorsBy(u, f, k)
  {
    if fs != [] {
      FunctionDoorMembers(u, fs[1..], k, d);
      assert forall f :: f in fs <==> f == fs[0] || f in fs[1..];
    }
  }

  lemma FunctionDoorFolds(u: Setup, k: Spot, d: Door)
    requires (forall f :: f in u.functions ==> Foldable(f.run.body.cat) && k.rel in f.run.body.cat.tables)
    requires d in FunctionDoorsAt(u, u.functions, k)
    ensures FilterJudgeable(d.cell)
  {
    FunctionDoorMembers(u, u.functions, k, d);
    var f :| f in u.functions && d in DoorsBy(u, f, k);
    BodyDoorsMembers(f.run.body, f.run.touches, k, d);
    var s :| Touches(f.run.body, f.run.touches, s) && d in Reach.DoorsFor(OneEffect(f.run.body, s).doors, k);
    SpotDoorFolds(f.run.body, s, k, d);
  }

  lemma ViewDoorFolds(u: Setup, k: Spot, d: Door)
    requires Foldable(u.cat) && StartsCatalogued(u.cat, u.starts) && d in ViewDoorsAt(u, k)
    ensures WellFormed(d.cell) && FilterJudgeable(d.cell)
  {
    var t := RoleTrip(u, k.command);
    CollectMembers(map[], AllEvents(WalkOn(t), t.starts), k.rel, d);
    RecordFolds(t, k.rel, d);
  }

  /** All the doors the role chooses can be folded, and their row sets joined. */
  lemma ChosenFold(u: Setup, k: Spot)
    requires Foldable(u.cat) && StartsCatalogued(u.cat, u.starts) && k.rel in u.cat.tables
    requires forall f :: f in u.functions ==> Foldable(f.run.body.cat) && k.rel in f.run.body.cat.tables
    ensures var ds := ViewDoorsAt(u, k) + FunctionDoorsAt(u, u.functions, k);
            && DoorsWellFormed(ViewDoorsAt(u, k)) && DoorsWellFormed(ds) && forall d :: d in ds ==>
                FilterJudgeable(d.cell)
  {
    var ds := ViewDoorsAt(u, k) + FunctionDoorsAt(u, u.functions, k);
    FunctionDoorsWellFormed(u, u.functions, k);
    forall d | d in ViewDoorsAt(u, k) ensures WellFormed(d.cell) && FilterJudgeable(d.cell) { ViewDoorFolds(u, k, d); }
    forall d | d in FunctionDoorsAt(u, u.functions, k) ensures FilterJudgeable(d.cell) { FunctionDoorFolds(u, k, d); }
  }

  // --- the bound ---

  lemma CatalogFolds(a: Catalog, b: Catalog, edges: seq<Membership>)
    requires CatalogUnseen(a, b) && CatalogRight(b, edges)
    ensures Foldable(a)
  {}

  lemma TracedBounds(a: Traced, b: Traced, v: Setup, c: Command)
    requires TracedUnseen(a, b) && TracedRight(v, b) && CatalogRight(v.cat, v.edges)
    requires NoEscape(a.body.cat, a.body.owner, c) && OwnersNoEscape(a.body.cat, c)
    ensures a.touches == b.touches && a.body.cat.tables == v.cat.tables && BodyBounds(a.body, b.body, v.edges, c)
    ensures Foldable(a.body.cat)
  {
    CatalogFolds(a.body.cat, b.body.cat, v.edges);
  }

  lemma FunctionBounds(u: Setup, v: Setup, i: nat, c: Command)
    requires SetupBounds(u, v, c) && i < |v.functions|
    ensures i < |u.functions|
    ensures var f, g := u.functions[i], v.functions[i];
            && f.call == g.call && f.trigger == g.trigger && f.run.touches == g.run.touches && f in u.functions
            && f.run.body.cat.tables == u.cat.tables && Foldable(f.run.body.cat)
            && BodyBounds(f.run.body, g.run.body, v.edges, c)
  {
    var f, g := u.functions[i], v.functions[i];
    assert g in v.functions && f in u.functions && DefinerUnseen(f, g);
    TracedBounds(f.run, g.run, v, c);
  }

  lemma SetupFolds(u: Setup, v: Setup, c: Command)
    requires SetupBounds(u, v, c)
    ensures Foldable(u.cat) && StartsCatalogued(u.cat, u.starts)
    ensures forall f :: f in u.functions ==> Foldable(f.run.body.cat) && f.run.body.cat.tables == u.cat.tables
  {
    CatalogFolds(u.cat, v.cat, v.edges);
    forall f | f in u.functions ensures Foldable(f.run.body.cat) && f.run.body.cat.tables == u.cat.tables {
      var i :| 0 <= i < |u.functions| && u.functions[i] == f;
      FunctionBounds(u, v, i, c);
    }
  }

  lemma CallSeenOrReported(s: Session, edges: seq<Membership>, f: Callable)
    requires SessionOf(s, None) && PublicIsNoMember(edges) && CanCall(edges, s.role, f)
    ensures MayCall(s, f) || CallUndecided(s, f)
  {
    if s.role.name == PUBLIC {
      CallExact(s, edges, f);
    } else {
      CallWithoutGraph(s, f);
    }
  }

  lemma MayShowMore(a: seq<Door>, b: seq<Door>, me: string, w: World)
    requires DoorsWellFormed(a) && DoorsWellFormed(b) && MayShow(a, me, w) && forall d :: d in a ==> d in b
    ensures MayShow(b, me, w)
  {}

  lemma ViewRowBound(u: Setup, v: Setup, k: Spot, w: World)
    requires SetupBounds(u, v, k.command) && k.rel in u.cat.tables && DoorsWellFormed(ViewDoorsAt(u, k))
             && ViewRows(v, k)(w)
    ensures MayShow(ViewDoorsAt(u, k), Me(u), w)
  {
    var a, b := RoleTrip(u, k.command), RoleTrip(v, k.command);
    RoleTripBounds(u, v, k.command);
    ChosenRetell(u, k);
    assert ViewRow(b, k.rel, Me(u), w);
    ViewDoorsBound(a, b, k.rel, ViewDoorsAt(u, k), (door: Door) => door, Me(u), w);
  }

  /** Some function is reported because whether the role may call it could not be told. */
  ghost predicate ReportsUndecided(u: Setup) {
    exists f :: f in u.functions && CallUndecided(u.session, f.call)
  }

  /** A function that the graph lets the role call is seen to be callable, or reported. */
  lemma CalledIsSeen(u: Setup, v: Setup, i: nat, k: Spot, w: World)
    requires SetupBounds(u, v, k.command) && i < |v.functions| && !ReportsUndecided(u)
             && FunctionRow(v, v.functions[i], k, w)
    ensures i < |u.functions| && Calls(u, u.functions[i])
  {
    FunctionBounds(u, v, i, k.command);
    CallSeenOrReported(u.session, v.edges, u.functions[i].call);
  }

  lemma CalledRowBound(u: Setup, v: Setup, i: nat, k: Spot, w: World)
    requires SetupBounds(u, v, k.command) && k.rel in u.cat.tables && i < |v.functions| && i < |u.functions|
    requires Calls(u, u.functions[i]) && FunctionRow(v, v.functions[i], k, w)
    ensures u.functions[i] in u.functions
    ensures DoorsWellFormed(DoorsBy(u, u.functions[i], k)) && MayShow(DoorsBy(u, u.functions[i], k), Me(u), w)
  {
    FunctionBounds(u, v, i, k.command);
    var f, g := u.functions[i], v.functions[i];
    BodyBound(f.run.body, g.run.body, f.run.touches, v.edges, k, Me(u), w);
  }

  lemma FunctionRowBound(u: Setup, v: Setup, g: Definer, k: Spot, w: World)
    requires SetupBounds(u, v, k.command) && k.rel in u.cat.tables && !ReportsUndecided(u)
    requires g in v.functions && FunctionRow(v, g, k, w)
    ensures DoorsWellFormed(FunctionDoorsAt(u, u.functions, k)) && MayShow(FunctionDoorsAt(u, u.functions, k), Me(u), w)
  {
    var i :| 0 <= i < |v.functions| && v.functions[i] == g;
    CalledIsSeen(u, v, i, k, w);
    CalledRowBound(u, v, i, k, w);
    FunctionDoorsWellFormed(u, u.functions, k);
    forall d | d in DoorsBy(u, u.functions[i], k) ensures d in FunctionDoorsAt(u, u.functions, k) {
      FunctionDoorMembers(u, u.functions, k, d);
    }
    MayShowMore(DoorsBy(u, u.functions[i], k), FunctionDoorsAt(u, u.functions, k), Me(u), w);
  }

  lemma DoorsBound(u: Setup, v: Setup, k: Spot, w: World)
    requires SetupBounds(u, v, k.command) && k.rel in u.cat.tables && !ReportsUndecided(u)
    requires DoorsWellFormed(ViewDoorsAt(u, k) + FunctionDoorsAt(u, u.functions, k))
             && DoorsWellFormed(ViewDoorsAt(u, k))
    requires ViewRows(v, k)(w) || FunctionRows(v, v.functions, k)(w)
    ensures MayShow(ViewDoorsAt(u, k) + FunctionDoorsAt(u, u.functions, k), Me(u), w)
  {
    if ViewRows(v, k)(w) {
      ViewRowBound(u, v, k, w);
      MayShowMore(ViewDoorsAt(u, k), ViewDoorsAt(u, k) + FunctionDoorsAt(u, u.functions, k), Me(u), w);
    } else {
      var g :| g in v.functions && FunctionRow(v, g, k, w);
      FunctionRowBound(u, v, g, k, w);
      MayShowMore(FunctionDoorsAt(u, u.functions, k), ViewDoorsAt(u, k) + FunctionDoorsAt(u, u.functions, k), Me(u), w);
    }
  }

  lemma OwnRowSplits(v: Setup, k: Spot, w: World)
    requires OwnRows(v, k)(w)
    ensures DirectRow(v, k, w) || ViewRows(v, k)(w) || FunctionRows(v, v.functions, k)(w)
  {}

  lemma DirectCellFolds(u: Setup, k: Spot)
    requires Foldable(u.cat) && k.rel in u.cat.tables
    ensures var cell := DirectOf(u.cat, u.session, u.cat.tables[k.rel], k.command).cell;
            WellFormed(cell) && FilterJudgeable(cell)
  {
    var t := u.cat.tables[k.rel];
    DirectJudgeable(u.cat, u.session, t, k.command);
    CellFor.CellWellFormed(t, k.command, u.session, WalkFor(u.cat, u.session, t, k.command));
  }

  /**
    Whatever the membership graph turns out to be, every row the role then reaches directly, through
    views or by calling functions lies within the cell that was computed without it: unless a direct
    verdict of the role, of a view's owner or of a function's escapes, or some function is reported
    because whether the role may call it could not be told.
   */
  lemma BaseBoundsRows(u: Setup, v: Setup, k: Spot, w: World)
    requires SetupBounds(u, v, k.command) && k.rel in u.cat.tables && Lawful(w) && !ReportsUndecided(u)
    requires OwnRows(v, k)(w)
    ensures WellFormed(BaseCell(u, k)) && MayHold(BaseCell(u, k), Me(u), w)
  {
    var ds := ViewDoorsAt(u, k) + FunctionDoorsAt(u, u.functions, k);
    SetupFolds(u, v, k.command);
    ChosenFold(u, k);
    DirectCellFolds(u, k);
    OwnRowSplits(v, k, w);
    if DirectRow(v, k, w) {
      DirectRowBound(u, v, k, w);
    } else {
      DoorsBound(u, v, k, w);
    }
    FoldBounds(DirectOf(u.cat, u.session, u.cat.tables[k.rel], k.command).cell, ds, Me(u), w);
  }

  // --- what the loop is then given ---

  lemma HeldWritesOf(u: Setup, k: Spot)
    requires k.rel in u.cat.tables && k.rel !in u.cat.views && k.command != Select
    ensures k in HeldWrites(u) <==> Holds(u.session, u.cat.tables[k.rel].acl, k.command) == Some(true)
  {
    assert k == Spot(k.rel, k.command) && k.command in WRITES + {Truncate};
  }

  /**
    The writes are another matter: one is issued only when its privilege was seen. Those that the
    graph would add are exactly the ones whose privilege it grants and that could not be told without
    it; what a statement trigger or rule does on them is not followed.
   */
  lemma WritesMissed(u: Setup, v: Setup, k: Spot)
    requires SetupUnseen(u, v) && SetupRight(v) && k.rel in u.cat.tables && k.command != Select
    ensures var acl := u.cat.tables[k.rel].acl;
            k in HeldWrites(v) - HeldWrites(u) <==>
            HasPrivilege(v.edges, v.session.role, acl, k.command) && Holds(u.session, acl, k.command) == None
  {
    var acl := u.cat.tables[k.rel].acl;
    HeldWritesOf(u, k);
    HeldWritesOf(v, k);
    PathsExact(v.session, v.edges, acl, k.command);
    if HasPrivilege(v.edges, v.session.role, acl, k.command) {
      NotRuledOut(u.session, v.edges, acl, k.command);
      var answer := Holds(u.session, acl, k.command);
      assert answer.Some? ==> answer == Some(answer.value);
    }
  }
}
