/**
  The rows behind doors: what Postgres lets the effective user of a view, or the owner of a body,
  reach, compared with the doors recorded for them.
 */
module DoorRows {
  import opened Prelude
  import opened Predicate
  import opened Dependence
  import opened Cells
  import opened Merge
  import opened Privileges
  import opened CellFor
  import opened ViewDoors
  import opened OwnerDoors
  import Reach
  import TruncateBlocker

  // --- what is asked of the catalog ---

  /** No clause holds a node the dependence walk misjudges. */
  predicate ClausesJudgeable(t: Table, c: Command) {
    forall p :: p in t.policies && EffectiveClause(p, c).Some? ==> Judgeable(EffectiveClause(p, c).value)
  }

  ghost predicate TableRight(t: Table) {
    UniqueNames(t.policies) && forall c: Command :: ClausesJudgeable(t, c)
  }

  ghost predicate CatalogRight(cat: Catalog, edges: seq<Membership>) {
    && CatalogWellFormed(cat) && PublicIsNoMember(edges)
    && TruncateBlocker.AncestorsSound(cat.graph.children, cat.ancestors)
    && (forall n :: n in cat.owners ==> SessionOf(cat.owners[n], Some(edges)) && cat.owners[n].role.name == n)
    && (forall n :: n in cat.tables ==> TableRight(cat.tables[n]) && cat.tables[n].name == n)
  }

  // --- a session's own access ---

  /**
    For TRUNCATE, the first table the blocker search would take above any table is the least it could
    take, without which the search errs (`TruncateBlocker.BlockerExact`). Nothing is asked for other commands.
   */
  ghost predicate FirstLeast(cat: Catalog, s: Session, c: Command) {
    c == Truncate ==> TruncateBlocker.FirstIsLeast(cat.graph.children, cat.ancestors, CanTruncate(cat.tables, s))
  }

  ghost predicate OwnersFirstLeast(cat: Catalog, c: Command) {
    forall n :: n in cat.owners ==> FirstLeast(cat, cat.owners[n], c)
  }

  /**
    Postgres lets a session reach the row; a TRUNCATE needs a statement that the role may run and that
    empties the table.
   */
  ghost predicate Reaches(cat: Catalog, edges: seq<Membership>, s: Session, rel: string, c: Command, w: World,
                          user: string, reader: string)
    requires rel in cat.tables
  {
    && Admits(edges, s.role, cat.tables[rel], c, w, user, reader)
    && (c == Truncate ==> exists named :: MayEmpty(cat.tables, edges, s.role, cat.graph, rel, named))
  }

  lemma {:induction false} AllAreJudgeable(es: seq<Expr>)
    requires forall e :: e in es ==> Judgeable(e)
    ensures AllJudgeable(es)
  {
    if es != [] {
      assert es[0] in es;
      assert forall e :: e in es[1..] ==> e in es;
      AllAreJudgeable(es[1..]);
    }
  }

  lemma AssembledJudgeable(some: bool, unknown: bool, perm: seq<Expr>, restr: seq<Expr>)
    requires forall e :: e in perm || e in restr ==> Judgeable(e)
    ensures FilterJudgeable(Assemble(some, unknown, perm, restr))
  {
    var kept := Narrowing(restr);
    AllAreJudgeable(perm);
    AllAreJudgeable(kept);
    if perm != [] {
      var parts := [Disjunction(perm)] + kept;
      assert Judgeable(Disjunction(perm)) by { assert perm[0] in perm; }
      AllAreJudgeable(parts);
      assert Judgeable(Conjunction(parts)) by { assert parts[0] in parts; }
    }
    if kept != [] {
      assert Judgeable(Conjunction(kept)) by { assert kept[0] in kept; }
    }
  }

  lemma PolicyJudgeable(t: Table, c: Command, s: Session)
    requires ClausesJudgeable(t, c)
    ensures FilterJudgeable(PolicyCell(t, c, s))
  {
    var perm, restr := Clauses(Applicable(t, c, s, true), c), Clauses(Applicable(t, c, s, false), c);
    forall e | e in perm || e in restr ensures Judgeable(e) {
      var permissive := e in perm;
      var p :| p in Applicable(t, c, s, permissive) && EffectiveClause(p, c) == Some(e);
      assert p in t.policies;
    }
    AssembledJudgeable(Applicable(t, c, s, true) != [], UnknownPermissive(t, c, s) != [], perm, restr);
  }

  lemma DirectJudgeable(cat: Catalog, s: Session, t: Table, c: Command)
    requires ClausesJudgeable(t, c)
    ensures FilterJudgeable(DirectOf(cat, s, t, c).cell)
  {
    PolicyJudgeable(t, c, s);
  }

  /** A session's direct verdict commits, and says at every row whether Postgres lets the session reach it. */
  lemma DirectExact(cat: Catalog, edges: seq<Membership>, s: Session, rel: string, c: Command, w: World,
                    user: string, reader: string)
    requires CatalogRight(cat, edges) && SessionOf(s, Some(edges)) && FirstLeast(cat, s, c) && rel in cat.tables
    ensures var cell := DirectOf(cat, s, cat.tables[rel], c).cell;
            && WellFormed(cell) && FilterJudgeable(cell) && cell.verdict != Undecided
            && cell.session == None && cell.privileges == None
            && (CellFor.At(cell, w, user, reader) <==> Reaches(cat, edges, s, rel, c, w, user, reader))
  {
    var t := cat.tables[rel];
    assert TableRight(t);
    DirectJudgeable(cat, s, t, c);
    if c == Truncate {
      TruncateExact(t, cat.tables, s, edges, cat.graph, cat.ancestors);
    }
    CellExact(t, c, s, WalkFor(cat, s, t, c), edges, w, user, reader);
  }

  // --- through views ---

  /**
    A walk through views: who makes it, with which command, whether the principal's own access is
    a door, whose session and rights the filters see when they are not the effective user's, and
    the views it starts from.
   */
  datatype Trip = Trip(
    cat: Catalog, edges: seq<Membership>, principal: Session, command: Command, direct: bool,
    session: Option<string>, rights: Option<string>, starts: seq<View>)

  function WalkOn(t: Trip): ViewDoors.Walk {
    WalkOf(t.cat, t.principal, t.command, t.direct, t.session)
  }

  ghost predicate TripRight(t: Trip) {
    && CatalogRight(t.cat, t.edges) && SessionOf(t.principal, Some(t.edges)) && StartsCatalogued(t.cat, t.starts)
    && FirstLeast(t.cat, t.principal, t.command) && OwnersFirstLeast(t.cat, t.command)
  }

  function Reader(t: Trip, v: View): string {
    if t.rights.Some? then t.rights.value else if v.invoker then t.principal.role.name else v.owner
  }

  /** Postgres lets the effective user of the view just left reach the row of the table it names. */
  ghost predicate ReachesFrom(t: Trip, v: View, table: string, me: string, w: World)
    requires table in t.cat.tables
  {
    && (v.invoker ==> t.direct)
    && Reaches(t.cat, t.edges, Eff(t.cat, t.principal, v), table, t.command, w, Resolve(t.session, me), Reader(t, v))
  }

  /** Some permitted walk of views reaches the row. */
  ghost predicate ViewRow(t: Trip, table: string, me: string, w: World) {
    exists entry, last :: Leads(WalkOn(t), t.starts, entry, last, table) && last in t.cat.views && table in t.cat.tables
      && ReachesFrom(t, t.cat.views[last], table, me, w)
  }

  /** `x` says what the recorded `y` says, with the trip's session and rights, or leaves it undecided. */
  predicate Retells(t: Trip, x: Cell, y: Cell) {
    && (y.verdict == Undecided ==> x.verdict == Undecided)
    && (x.verdict != Undecided ==>
          && x.verdict == y.verdict && x.filter == y.filter
          && x.session == (if t.session.Some? then t.session else y.session)
          && x.privileges == (if t.rights.Some? then t.rights else y.privileges))
  }

  /** A door cell for a view shows exactly the rows Postgres lets that view's effective user reach. */
  lemma ViewCellShows(t: Trip, entry: View, v: View, table: string, x: Cell, me: string, w: World)
    requires TripRight(t) && v.name in t.cat.views && t.cat.views[v.name] == v && table in t.cat.tables
    requires Retells(t, x, DoorCell(WalkOn(t), entry, v, t.cat.tables[table]))
    ensures WellFormed(x) && FilterJudgeable(x)
    ensures x.verdict != Undecided ==> (Shows(x, me, w) <==> ReachesFrom(t, v, table, me, w))
  {
    var eff := Eff(t.cat, t.principal, v);
    assert SessionOf(eff, Some(t.edges));
    DirectExact(t.cat, t.edges, eff, table, t.command, w, Resolve(t.session, me), Reader(t, v));
    var own := DirectOf(t.cat, eff, t.cat.tables[table], t.command).cell;
    assert WalkOn(t).reach(v, t.cat.tables[table]).cell == own;
  }

  /**
    A door list at one table that tells the records of a walk there, one by one, and what telling
    a view's cell shows.
   */
  ghost predicate Telling(k: ViewDoors.Walk, starts: seq<View>, table: string, ds: seq<Door>, me: string,
                          tell: Door -> Door, rows: View -> RowSet)
    requires table in k.cat.tables
  {
    && (forall d :: d in ds <==> exists door :: Record(table, door) in AllEvents(k, starts) && d == tell(door))
    && (forall door: Door :: door.cell.verdict == Undecided ==> tell(door).cell.verdict == Undecided)
    && (forall door: Door, entry, last ::
          last in k.cat.views && door.cell == DoorCell(k, entry, k.cat.views[last], k.cat.tables[table]) ==>
            TellsRows(tell(door).cell, me, rows(k.cat.views[last])))
    && (forall entry, last ::
          last in k.cat.views && DoorCell(k, entry, k.cat.views[last], k.cat.tables[table]).verdict == Denied ==>
            NoRows(rows(k.cat.views[last])))
  }

  ghost predicate NoRows(rows: RowSet) {
    forall w: World :: !rows(w)
  }

  /** The cell is undecided or shows exactly these rows. */
  ghost predicate TellsRows(x: Cell, me: string, rows: RowSet) {
    && WellFormed(x) && FilterJudgeable(x)
    && (x.verdict != Undecided ==> forall w: World :: Shows(x, me, w) <==> rows(w))
  }

  /** The row is one of a view that some permitted walk ends in. */
  ghost predicate LedTo(k: ViewDoors.Walk, starts: seq<View>, table: string, rows: View -> RowSet, w: World) {
    exists entry, last :: Leads(k, starts, entry, last, table) && last in k.cat.views && rows(k.cat.views[last])(w)
  }

  lemma ToldDoor(k: ViewDoors.Walk, starts: seq<View>, table: string, ds: seq<Door>, me: string,
                 tell: Door -> Door, rows: View -> RowSet, d: Door)
    requires CatalogWellFormed(k.cat) && StartsCatalogued(k.cat, starts) && table in k.cat.tables
    requires Telling(k, starts, table, ds, me, tell, rows) && d in ds
    ensures WellFormed(d.cell) && FilterJudgeable(d.cell)
    ensures d.cell.verdict != Undecided ==> forall w: World :: Shows(d.cell, me, w) ==> LedTo(k, starts, table, rows, w)
  {
    var door :| Record(table, door) in AllEvents(k, starts) && d == tell(door);
    if d.cell.verdict != Undecided {
      var entry, last := RecordLeads(k, starts, table, door);
      assert TellsRows(d.cell, me, rows(k.cat.views[last]));
    }
  }

  lemma LedToIsTold(k: ViewDoors.Walk, starts: seq<View>, table: string, ds: seq<Door>, me: string,
                    tell: Door -> Door, rows: View -> RowSet, w: World)
    requires CatalogWellFormed(k.cat) && StartsCatalogued(k.cat, starts) && table in k.cat.tables && DoorsWellFormed(ds)
    requires Telling(k, starts, table, ds, me, tell, rows) && LedTo(k, starts, table, rows, w)
    ensures MayShow(ds, me, w)
  {
    var entry, last :| Leads(k, starts, entry, last, table) && last in k.cat.views && rows(k.cat.views[last])(w);
    var door := LeadsIsRecorded(k, starts, entry, last, table);
    assert tell(door) in ds;
    assert TellsRows(tell(door).cell, me, rows(k.cat.views[last]));
  }

  /** Such doors stand for exactly the rows that permitted walks lead to. */
  lemma ToldDoorsMean(k: ViewDoors.Walk, starts: seq<View>, table: string, ds: seq<Door>, me: string,
                      tell: Door -> Door, rows: View -> RowSet)
    requires CatalogWellFormed(k.cat) && StartsCatalogued(k.cat, starts) && table in k.cat.tables
    requires Telling(k, starts, table, ds, me, tell, rows)
    ensures StandFor(ds, me, w => LedTo(k, starts, table, rows, w))
  {
    forall d | d in ds
      ensures WellFormed(d.cell) && FilterJudgeable(d.cell)
      ensures d.cell.verdict != Undecided ==> forall w: World :: Shows(d.cell, me, w) ==>
              LedTo(k, starts, table, rows, w)
    {
      ToldDoor(k, starts, table, ds, me, tell, rows, d);
    }
    assert DoorsWellFormed(ds);
    forall w: World | LedTo(k, starts, table, rows, w) ensures MayShow(ds, me, w) {
      LedToIsTold(k, starts, table, ds, me, tell, rows, w);
    }
  }

  /** The doors of a trip at one table retell the records of its walk there. */
  ghost predicate DoorsRetell(t: Trip, table: string, ds: seq<Door>, tell: Door -> Door) {
    && (forall d :: d in ds <==>
          exists door :: Record(table, door) in AllEvents(WalkOn(t), t.starts) && d == tell(door))
    && (forall door :: Retells(t, tell(door).cell, door.cell))
  }

  ghost function TripRows(t: Trip, table: string, me: string): View -> RowSet
    requires table in t.cat.tables
  {
    v => (w: World) => ReachesFrom(t, v, table, me, w)
  }

  /** The doors of a trip stand for exactly the rows some permitted walk of views reaches. */
  lemma ViewDoorsMean(t: Trip, table: string, ds: seq<Door>, tell: Door -> Door, me: string)
    requires TripRight(t) && table in t.cat.tables && DoorsRetell(t, table, ds, tell)
    ensures StandFor(ds, me, w => ViewRow(t, table, me, w))
  {
    var rows := TripRows(t, table, me);
    TripTells(t, table, ds, me, tell, rows);
    ToldDoorsMean(WalkOn(t), t.starts, table, ds, me, tell, rows);
    DoorsMeanExtensional(ds, me, w => LedTo(WalkOn(t), t.starts, table, rows, w), w => ViewRow(t, table, me, w));
  }

  lemma TripTells(t: Trip, table: string, ds: seq<Door>, me: string, tell: Door -> Door, rows: View -> RowSet)
    requires TripRight(t) && table in t.cat.tables && DoorsRetell(t, table, ds, tell) && rows == TripRows(t, table, me)
    ensures Telling(WalkOn(t), t.starts, table, ds, me, tell, rows)
  {
    forall door: Door, entry, last | last in t.cat.views
        && door.cell == DoorCell(WalkOn(t), entry, t.cat.views[last], t.cat.tables[table])
      ensures TellsRows(tell(door).cell, me, rows(t.cat.views[last]))
    {
      RetoldTellsRows(t, entry, t.cat.views[last], table, tell(door).cell, me);
    }
    forall entry, last | last in t.cat.views
        && DoorCell(WalkOn(t), entry, t.cat.views[last], t.cat.tables[table]).verdict == Denied
      ensures NoRows(rows(t.cat.views[last]))
    {
      forall w: World ensures !rows(t.cat.views[last])(w) {
        DeniedReachesNothing(t, entry, t.cat.views[last], table, me, w);
      }
    }
  }

  lemma RetoldTellsRows(t: Trip, entry: View, v: View, table: string, x: Cell, me: string)
    requires TripRight(t) && v.name in t.cat.views && t.cat.views[v.name] == v && table in t.cat.tables
    requires Retells(t, x, DoorCell(WalkOn(t), entry, v, t.cat.tables[table]))
    ensures TellsRows(x, me, TripRows(t, table, me)(v))
  {
    ViewCellShows(t, entry, v, table, x, me, Tattling());
    forall w: World ensures x.verdict != Undecided ==> (Shows(x, me, w) <==> TripRows(t, table, me)(v)(w)) {
      ViewCellShows(t, entry, v, table, x, me, w);
    }
  }

  /** A view whose cell is a denial reaches no row. */
  lemma DeniedReachesNothing(t: Trip, entry: View, v: View, table: string, me: string, w: World)
    requires TripRight(t) && v.name in t.cat.views && t.cat.views[v.name] == v && table in t.cat.tables
    requires DoorCell(WalkOn(t), entry, v, t.cat.tables[table]).verdict == Denied
    ensures !ReachesFrom(t, v, table, me, w)
  {
    var y := DoorCell(WalkOn(t), entry, v, t.cat.tables[table]);
    var x := y.(session := if t.session.Some? then t.session else y.session,
                privileges := if t.rights.Some? then t.rights else y.privileges);
    ViewCellShows(t, entry, v, table, x, me, w);
  }

  // --- through bodies ---

  /** The walk a body's owner makes from a view the body names. */
  function BodyTrip(b: Body, edges: seq<Membership>, s: Spot): Trip
    requires IsViewSpot(b, s)
  {
    Trip(b.cat, edges, b.owner, s.command, true, b.session, b.privileges, [b.cat.views[s.rel]])
  }

  /** A row at `k` that the body's touch of `s` reaches: as its owner, or through a view walked as its owner. */
  ghost predicate SpotRow(b: Body, edges: seq<Membership>, s: Spot, k: Spot, me: string, w: World) {
    || (s == k && k.rel in b.cat.tables
        && Reaches(b.cat, edges, b.owner, k.rel, k.command, w, Resolve(b.session, me),
            Resolve(b.privileges, b.owner.role.name)))
    || (IsViewSpot(b, s) && s.command == k.command && ViewRow(BodyTrip(b, edges, s), k.rel, me, w))
  }

  ghost function SpotRows(b: Body, edges: seq<Membership>, s: Spot, k: Spot, me: string): RowSet {
    w => SpotRow(b, edges, s, k, me, w)
  }

  ghost predicate Touches(b: Body, touches: seq<Touch>, s: Spot) {
    exists t :: t in touches && s in Expand(b, t)
  }

  ghost predicate BodyRow(b: Body, touches: seq<Touch>, edges: seq<Membership>, k: Spot, me: string, w: World) {
    exists s :: Touches(b, touches, s) && SpotRow(b, edges, s, k, me, w)
  }

  ghost predicate BodyRight(b: Body, edges: seq<Membership>, c: Command) {
    && CatalogRight(b.cat, edges) && SessionOf(b.owner, Some(edges))
    && FirstLeast(b.cat, b.owner, c) && OwnersFirstLeast(b.cat, c)
  }

  lemma TableSpotMeans(b: Body, edges: seq<Membership>, s: Spot, me: string)
    requires BodyRight(b, edges, s.command) && s.rel in b.cat.tables
    ensures WellFormed(TableCell(b, s)) && FilterJudgeable(TableCell(b, s))
    ensures TableCell(b, s).verdict != Undecided ==>
              forall w: World :: Shows(TableCell(b, s), me, w) <==> SpotRow(b, edges, s, s, me, w)
    ensures OwnersDirect(b, s).cell.verdict == Denied ==> forall w: World :: !SpotRow(b, edges, s, s, me, w)
  {
    var user, reader := Resolve(b.session, me), Resolve(b.privileges, b.owner.role.name);
    DirectExact(b.cat, edges, b.owner, s.rel, s.command, Tattling(), user, reader);
    forall w: World
      ensures CellFor.At(OwnersDirect(b, s).cell, w, user, reader) <==>
              Reaches(b.cat, edges, b.owner, s.rel, s.command, w, user, reader)
    {
      DirectExact(b.cat, edges, b.owner, s.rel, s.command, w, user, reader);
    }
  }

  lemma NothingElsewhere(b: Body, edges: seq<Membership>, s: Spot, k: Spot, me: string)
    requires k.rel in b.cat.tables && s.rel !in b.cat.tables && (s.rel !in b.cat.views || s.command != k.command)
    ensures StandFor(Reach.DoorsFor(OneEffect(b, s).doors, k), me, SpotRows(b, edges, s, k, me))
  {
    SpotCredits(b, s, k);
    var ds := Reach.DoorsFor(OneEffect(b, s).doors, k);
    if ds != [] { Reach.DoorsForMembers(OneEffect(b, s).doors, k, ds[0]); }
    assert ds == [];
  }

  lemma ViewSpotRetells(b: Body, edges: seq<Membership>, s: Spot, k: Spot)
    requires IsViewSpot(b, s) && s.command == k.command
    ensures DoorsRetell(BodyTrip(b, edges, s), k.rel, Reach.DoorsFor(OneEffect(b, s).doors, k),
            (door: Door) => EventDoor(b, door))
  {
    var t, v := BodyTrip(b, edges, s), b.cat.views[s.rel];
    var events := StartEvents(WalkOn(t), v);
    var ds := Reach.DoorsFor(OneEffect(b, s).doors, k);
    assert AllEvents(WalkOn(t), t.starts) == events by { assert t.starts[1..] == []; }
    forall d ensures d in ds <==> exists door :: Record(k.rel, door) in events && d == EventDoor(b, door) {
      Reach.DoorsForMembers(OneEffect(b, s).doors, k, d);
      EventDoorsMembers(b, s.command, events, Reach.Placed(k, d));
      if e :| e in events && e.Record?
              && Reach.Placed(k, d) == Reach.Placed(Spot(e.table, s.command), EventDoor(b, e.door)) {
        assert e == Record(k.rel, e.door);
      }
      if door :| Record(k.rel, door) in events && d == EventDoor(b, door) {
        assert Reach.Placed(k, d) == Reach.Placed(Spot(k.rel, s.command), EventDoor(b, door));
      }
    }
    forall door ensures Retells(t, EventDoor(b, door).cell, door.cell) {}
  }

  lemma TableDoors(b: Body, s: Spot, k: Spot)
    requires s.rel in b.cat.tables
    ensures Reach.DoorsFor(OneEffect(b, s).doors, k) ==
            if s == k && OwnersDirect(b, s).cell.verdict != Denied then
              [Door(TableCell(b, s), AccessPath(b.kind, Some(b.via), []))]
            else []
  {
    var doors := OneEffect(b, s).doors;
    assert doors != [] ==> doors[1..] == [];
  }

  lemma TableDoorsMean(b: Body, edges: seq<Membership>, s: Spot, k: Spot, me: string)
    requires BodyRight(b, edges, k.command) && k.rel in b.cat.tables && s.rel in b.cat.tables
    ensures StandFor(Reach.DoorsFor(OneEffect(b, s).doors, k), me, SpotRows(b, edges, s, k, me))
  {
    TableDoors(b, s, k);
    if s == k { TableSpotMeans(b, edges, s, me); }
  }

  lemma BodyTripRight(b: Body, edges: seq<Membership>, s: Spot)
    requires BodyRight(b, edges, s.command) && IsViewSpot(b, s)
    ensures TripRight(BodyTrip(b, edges, s))
  {}

  lemma ViewSpotMeans(b: Body, edges: seq<Membership>, s: Spot, k: Spot, me: string)
    requires BodyRight(b, edges, k.command) && k.rel in b.cat.tables && IsViewSpot(b, s) && s.command == k.command
    ensures StandFor(Reach.DoorsFor(OneEffect(b, s).doors, k), me, SpotRows(b, edges, s, k, me))
  {
    var t, ds := BodyTrip(b, edges, s), Reach.DoorsFor(OneEffect(b, s).doors, k);
    ViewSpotRetells(b, edges, s, k);
    BodyTripRight(b, edges, s);
    ViewDoorsMean(t, k.rel, ds, (door: Door) => EventDoor(b, door), me);
    DoorsMeanExtensional(ds, me, w => ViewRow(t, k.rel, me, w), SpotRows(b, edges, s, k, me));
  }

  /** The doors a body opens at `k` by touching `s` stand for exactly the rows its owner reaches there. */
  lemma SpotMeans(b: Body, edges: seq<Membership>, s: Spot, k: Spot, me: string)
    requires BodyRight(b, edges, k.command) && k.rel in b.cat.tables
    ensures StandFor(Reach.DoorsFor(OneEffect(b, s).doors, k), me, SpotRows(b, edges, s, k, me))
  {
    if s.rel in b.cat.tables {
      TableDoorsMean(b, edges, s, k, me);
    } else if IsViewSpot(b, s) && s.command == k.command {
      ViewSpotMeans(b, edges, s, k, me);
    } else {
      NothingElsewhere(b, edges, s, k, me);
    }
  }

  lemma BodyDoorsMembers(b: Body, touches: seq<Touch>, k: Spot, d: Door)
    ensures d in Reach.DoorsFor(RunAsOwner(b, touches).doors, k) <==>
            exists s :: Touches(b, touches, s) && d in Reach.DoorsFor(OneEffect(b, s).doors, k)
  {
    var spots := Dedup(ExpandAll(b, touches), []);
    Reach.DoorsForMembers(RunAsOwner(b, touches).doors, k, d);
    EffectMembers(b, spots, Reach.Placed(k, d));
    forall s
      ensures s in spots <==> Touches(b, touches, s)
      ensures d in Reach.DoorsFor(OneEffect(b, s).doors, k) <==> Reach.Placed(k, d) in OneEffect(b, s).doors
    {
      ExpandMembers(b, touches, s);
      Reach.DoorsForMembers(OneEffect(b, s).doors, k, d);
    }
  }

  ghost function BodyRows(b: Body, touches: seq<Touch>, edges: seq<Membership>, k: Spot, me: string): RowSet {
    w => BodyRow(b, touches, edges, k, me, w)
  }

  /** All the doors a body opens at `k` stand for exactly the rows its statements reach there. */
  lemma BodyDoorsMean(b: Body, touches: seq<Touch>, edges: seq<Membership>, k: Spot, me: string)
    requires BodyRight(b, edges, k.command) && k.rel in b.cat.tables
    ensures StandFor(Reach.DoorsFor(RunAsOwner(b, touches).doors, k), me, BodyRows(b, touches, edges, k, me))
  {
    var chosen, parts := (s: Spot) => Touches(b, touches, s), (s: Spot) => Reach.DoorsFor(OneEffect(b, s).doors, k);
    var rows := (s: Spot) => SpotRows(b, edges, s, k, me);
    forall s ensures StandFor(parts(s), me, rows(s)) { SpotMeans(b, edges, s, k, me); }
    BodyDoorsUnion(b, touches, edges, k, me, chosen, parts, rows);
  }

  lemma BodyDoorsUnion(b: Body, touches: seq<Touch>, edges: seq<Membership>, k: Spot, me: string,
                       chosen: Spot -> bool, parts: Spot -> seq<Door>, rows: Spot -> RowSet)
    requires forall s :: chosen(s) <==> Touches(b, touches, s)
    requires forall s :: parts(s) == Reach.DoorsFor(OneEffect(b, s).doors, k)
    requires forall s :: rows(s) == SpotRows(b, edges, s, k, me)
    requires forall s :: StandFor(parts(s), me, rows(s))
    ensures StandFor(Reach.DoorsFor(RunAsOwner(b, touches).doors, k), me, BodyRows(b, touches, edges, k, me))
  {
    var ds := Reach.DoorsFor(RunAsOwner(b, touches).doors, k);
    forall d ensures d in ds <==> exists s :: chosen(s) && d in parts(s) { BodyDoorsMembers(b, touches, k, d); }
    DoorsMeanUnion(ds, chosen, parts, rows, me);
    DoorsMeanExtensional(ds, me, w => exists s :: chosen(s) && rows(s)(w), BodyRows(b, touches, edges, k, me));
  }
}
