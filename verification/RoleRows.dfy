/**
  The whole chain for one role: its own verdicts, the view and function doors it chooses to open
  folded into them, and the fixed point over triggers, rules, parents and foreign keys on top,
  compared with the rows that Postgres lets each effective user on the way reach.
 */
module RoleRows {
  import opened Prelude
  import opened Predicate
  import opened Dependence
  import opened Cells
  import opened Merge
  import opened Privileges
  import opened ViewDoors
  import opened OwnerDoors
  import opened DoorRows
  import Reach
  import ReachFixpoint
  import ReachDerivation
  import ReachMeaning

  /** A body and what tracing it found it touches. */
  datatype Traced = Traced(body: Body, touches: seq<Touch>)

  /** A SECURITY DEFINER function: who may call it, whether it is a trigger function, and its body. */
  datatype Definer = Definer(call: Callable, trigger: bool, run: Traced)

  /**
    One role's session over a catalog, the views in the order they are searched, the SECURITY
    DEFINER functions in theirs, and the body behind each trigger's and rule's effect.
   */
  datatype Setup = Setup(
    cat: Catalog, session: Session, edges: seq<Membership>, starts: seq<View>, functions: seq<Definer>,
    source: Reach.Effect -> Traced)

  function Me(u: Setup): string {
    u.session.role.name
  }

  ghost predicate TracedRight(u: Setup, f: Traced) {
    f.body.cat == u.cat && SessionOf(f.body.owner, Some(u.edges))
  }

  ghost predicate SetupRight(u: Setup) {
    && CatalogRight(u.cat, u.edges) && SessionOf(u.session, Some(u.edges)) && StartsCatalogued(u.cat, u.starts)
    && forall f :: f in u.functions ==> TracedRight(u, f.run)
  }

  /** For TRUNCATE the blocker search is right for the role, for every view's owner and for every function's. */
  ghost predicate SetupFirstLeast(u: Setup, c: Command) {
    && FirstLeast(u.cat, u.session, c) && OwnersFirstLeast(u.cat, c)
    && forall f :: f in u.functions ==> FirstLeast(u.cat, f.run.body.owner, c)
  }

  // --- where the fixed point starts ---

  /** The walk the role itself makes: its own access through invoker views is no door. */
  function RoleTrip(u: Setup, c: Command): Trip {
    Trip(u.cat, u.edges, u.session, c, false, None, None, u.starts)
  }

  /** The doors the search for one command found at a table; a view cannot be truncated. */
  function ViewDoorsAt(u: Setup, k: Spot): seq<Door> {
    var found := Collect(map[], AllEvents(WalkOn(RoleTrip(u, k.command)), u.starts));
    if k.command != Truncate && k.rel in found then found[k.rel] else []
  }

  /** The role may call the function by itself, which no trigger function allows. */
  predicate Calls(u: Setup, f: Definer) {
    !f.trigger && MayCall(u.session, f.call)
  }

  function DoorsBy(u: Setup, f: Definer, k: Spot): seq<Door> {
    if Calls(u, f) then Reach.DoorsFor(RunAsOwner(f.run.body, f.run.touches).doors, k) else []
  }

  function FunctionDoorsAt(u: Setup, fs: seq<Definer>, k: Spot): seq<Door> {
    if fs == [] then [] else DoorsBy(u, fs[0], k) + FunctionDoorsAt(u, fs[1..], k)
  }

  /** The direct verdict with the chosen doors folded in. */
  function BaseCell(u: Setup, k: Spot): Cell
    requires k.rel in u.cat.tables
  {
    Fold(DirectOf(u.cat, u.session, u.cat.tables[k.rel], k.command).cell,
         ViewDoorsAt(u, k) + FunctionDoorsAt(u, u.functions, k), Me(u))
  }

  const WRITES := {Insert, Update, Delete}

  function Spots(cat: Catalog): set<Spot> {
    SpotsOn(cat.tables.Keys)
  }

  /** What the role holds the privilege for, on tables and on views. */
  function HeldWrites(u: Setup): set<Spot> {
    (set n, c | n in u.cat.tables && c in WRITES + {Truncate}
        && DirectOf(u.cat, u.session, u.cat.tables[n], c).paths != {} :: Spot(n, c))
    + (set n, c | n in u.cat.views && c in WRITES
        && Holds(u.session, u.cat.views[n].acl, c) == Some(true) :: Spot(n, c))
  }

  /** What is issued on the way through the views and functions it chooses to open. */
  function DoorWrites(u: Setup): set<Spot> {
    (set c, k | c in WRITES && k in Issued(AllEvents(WalkOn(RoleTrip(u, c)), u.starts), c) :: k)
    + (set f, k | f in u.functions && Calls(u, f) && k in RunAsOwner(f.run.body, f.run.touches).issued :: k)
  }

  function Base(u: Setup): Reach.State {
    Reach.State(map k | k in Spots(u.cat) :: BaseCell(u, k), HeldWrites(u) + DoorWrites(u))
  }

  // --- the rows Postgres lets the role reach by itself ---

  ghost predicate DirectRow(u: Setup, k: Spot, w: World) {
    k.rel in u.cat.tables && Reaches(u.cat, u.edges, u.session, k.rel, k.command, w, Me(u), Me(u))
  }

  ghost function ViewRows(u: Setup, k: Spot): RowSet {
    w => k.command != Truncate && ViewRow(RoleTrip(u, k.command), k.rel, Me(u), w)
  }

  /** Postgres lets the role call the function, whose body reaches the row as its owner. */
  ghost predicate FunctionRow(u: Setup, f: Definer, k: Spot, w: World) {
    !f.trigger && CanCall(u.edges, u.session.role, f.call) && BodyRow(f.run.body, f.run.touches, u.edges, k, Me(u), w)
  }

  ghost function FunctionRows(u: Setup, fs: seq<Definer>, k: Spot): RowSet {
    w => exists f :: f in fs && FunctionRow(u, f, k, w)
  }

  ghost function DirectRows(u: Setup, k: Spot): RowSet {
    w => DirectRow(u, k, w)
  }

  /** Directly, through views, or by executing a function. */
  ghost function OwnRows(u: Setup, k: Spot): RowSet {
    Union(DirectRows(u, k), Union(ViewRows(u, k), FunctionRows(u, u.functions, k)))
  }

  lemma DirectDescribes(u: Setup, k: Spot)
    requires SetupRight(u) && SetupFirstLeast(u, k.command) && k.rel in u.cat.tables
    ensures var cell := DirectOf(u.cat, u.session, u.cat.tables[k.rel], k.command).cell;
            WellFormed(cell) && FilterJudgeable(cell) && Describes(cell, Me(u), DirectRows(u, k))
  {
    var cell := DirectOf(u.cat, u.session, u.cat.tables[k.rel], k.command).cell;
    DirectExact(u.cat, u.edges, u.session, k.rel, k.command, Tattling(), Me(u), Me(u));
    forall w: World ensures CellFor.At(cell, w, Me(u), Me(u)) <==> DirectRow(u, k, w) {
      DirectExact(u.cat, u.edges, u.session, k.rel, k.command, w, Me(u), Me(u));
    }
  }

  lemma ViewDoorsStand(u: Setup, k: Spot)
    requires SetupRight(u) && SetupFirstLeast(u, k.command) && k.rel in u.cat.tables
    ensures StandFor(ViewDoorsAt(u, k), Me(u), ViewRows(u, k))
  {
    if k.command == Truncate {
      ReachMeaning.NoDoors(Me(u));
      DoorsMeanExtensional([], Me(u), w => false, ViewRows(u, k));
    } else {
      var t := RoleTrip(u, k.command);
      ChosenRetell(u, k);
      ViewDoorsMean(t, k.rel, ViewDoorsAt(u, k), (door: Door) => door, Me(u));
      DoorsMeanExtensional(ViewDoorsAt(u, k), Me(u), w => ViewRow(t, k.rel, Me(u), w), ViewRows(u, k));
    }
  }

  lemma ChosenRetell(u: Setup, k: Spot)
    requires k.command != Truncate
    ensures DoorsRetell(RoleTrip(u, k.command), k.rel, ViewDoorsAt(u, k), (door: Door) => door)
  {
    var t := RoleTrip(u, k.command);
    forall d ensures d in ViewDoorsAt(u, k) <==> Record(k.rel, d) in AllEvents(WalkOn(t), t.starts) {
      CollectMembers(map[], AllEvents(WalkOn(t), t.starts), k.rel, d);
    }
  }

  lemma DoorsByStand(u: Setup, f: Definer, k: Spot)
    requires CatalogRight(u.cat, u.edges) && SessionOf(u.session, Some(u.edges)) && k.rel in u.cat.tables
    requires TracedRight(u, f.run) && FirstLeast(u.cat, f.run.body.owner, k.command)
             && OwnersFirstLeast(u.cat, k.command)
    ensures StandFor(DoorsBy(u, f, k), Me(u), w => FunctionRow(u, f, k, w))
  {
    CallExact(u.session, u.edges, f.call);
    if Calls(u, f) {
      BodyDoorsMean(f.run.body, f.run.touches, u.edges, k, Me(u));
      DoorsMeanExtensional(DoorsBy(u, f, k), Me(u), BodyRows(f.run.body, f.run.touches, u.edges, k, Me(u)),
                           w => FunctionRow(u, f, k, w));
    } else {
      ReachMeaning.NoDoors(Me(u));
      DoorsMeanExtensional([], Me(u), w => false, w => FunctionRow(u, f, k, w));
    }
  }

  lemma OneMoreFunction(u: Setup, f: Definer, fs: seq<Definer>, k: Spot)
    requires StandFor(DoorsBy(u, f, k), Me(u), w => FunctionRow(u, f, k, w))
    requires StandFor(FunctionDoorsAt(u, fs, k), Me(u), FunctionRows(u, fs, k))
    ensures StandFor(DoorsBy(u, f, k) + FunctionDoorsAt(u, fs, k), Me(u), FunctionRows(u, [f] + fs, k))
  {
    var ds, first := DoorsBy(u, f, k) + FunctionDoorsAt(u, fs, k), (w: World) => FunctionRow(u, f, k, w);
    DoorsMeanBoth(DoorsBy(u, f, k), FunctionDoorsAt(u, fs, k), Me(u), first, FunctionRows(u, fs, k));
    forall w: World ensures Union(first, FunctionRows(u, fs, k))(w) <==> FunctionRows(u, [f] + fs, k)(w) {
      assert f in [f] + fs && forall g :: g in [f] + fs <==> g == f || g in fs;
    }
    DoorsMeanExtensional(ds, Me(u), Union(first, FunctionRows(u, fs, k)), FunctionRows(u, [f] + fs, k));
  }

  lemma {:induction false} FunctionDoorsStand(u: Setup, fs: seq<Definer>, k: Spot)
    requires CatalogRight(u.cat, u.edges) && SessionOf(u.session, Some(u.edges)) && k.rel in u.cat.tables
    requires OwnersFirstLeast(u.cat, k.command)
    requires forall f :: f in fs ==> TracedRight(u, f.run) && FirstLeast(u.cat, f.run.body.owner, k.command)
    ensures StandFor(FunctionDoorsAt(u, fs, k), Me(u), FunctionRows(u, fs, k))
  {
    if fs == [] {
      ReachMeaning.NoDoors(Me(u));
      DoorsMeanExtensional([], Me(u), w => false, FunctionRows(u, fs, k));
    } else {
      assert fs[0] in fs && fs == [fs[0]] + fs[1..];
      FunctionDoorsStand(u, fs[1..], k);
      DoorsByStand(u, fs[0], k);
      OneMoreFunction(u, fs[0], fs[1..], k);
    }
  }

  /** The cell the fixed point starts from stands for exactly the role's own rows. */
  lemma BaseDescribesOwnRows(u: Setup, k: Spot)
    requires SetupRight(u) && SetupFirstLeast(u, k.command) && k.rel in u.cat.tables
    ensures var cell := BaseCell(u, k);
            && WellFormed(cell) && FilterJudgeable(cell) && Describes(cell, Me(u), OwnRows(u, k))
  {
    DirectDescribes(u, k);
    ViewDoorsStand(u, k);
    FunctionDoorsStand(u, u.functions, k);
    DoorsMeanBoth(ViewDoorsAt(u, k), FunctionDoorsAt(u, u.functions, k), Me(u), ViewRows(u, k),
        FunctionRows(u, u.functions, k));
    FoldMeans(DirectOf(u.cat, u.session, u.cat.tables[k.rel], k.command).cell,
              ViewDoorsAt(u, k) + FunctionDoorsAt(u, u.functions, k), Me(u),
              DirectRows(u, k), Union(ViewRows(u, k), FunctionRows(u, u.functions, k)));
  }

  // --- the final matrix ---

  /** The schema's tables are catalogued, and every trigger's and rule's effect is its traced body run as its owner. */
  ghost predicate SchemaOver(u: Setup, s: Reach.Schema) {
    && (forall i, j :: 0 <= i < j < |s.tables| ==> s.tables[i].name != s.tables[j].name)
    && (forall t, a :: t in s.tables && a in t.ancestors ==> a.table in u.cat.tables)
    && (forall e :: ReachMeaning.IsBody(s, e) ==>
          TracedRight(u, u.source(e)) && e == RunAsOwner(u.source(e).body, u.source(e).touches))
  }

  ghost predicate BodiesFirstLeast(u: Setup, s: Reach.Schema, c: Command) {
    forall e :: ReachMeaning.IsBody(s, e) ==> FirstLeast(u.cat, u.source(e).body.owner, c)
  }

  /** The rows behind everything; only those of referential actions are handed in. */
  ghost function AllRows(u: Setup, action: (Spot, string) -> RowSet): ReachMeaning.Rows {
    ReachMeaning.Rows((k: Spot) => OwnRows(u, k),
                      (e: Reach.Effect, k: Spot) => BodyRows(u.source(e).body, u.source(e).touches, u.edges, k, Me(u)),
                      action)
  }

  lemma {:induction false} FunctionDoorsWellFormed(u: Setup, fs: seq<Definer>, k: Spot)
    ensures DoorsWellFormed(FunctionDoorsAt(u, fs, k))
  {
    if fs != [] {
      var e := RunAsOwner(fs[0].run.body, fs[0].run.touches);
      RunAsOwnerWellFormed(fs[0].run.body, fs[0].run.touches);
      forall d | d in DoorsBy(u, fs[0], k) ensures WellFormed(d.cell) { Reach.DoorsForMembers(e.doors, k, d); }
      FunctionDoorsWellFormed(u, fs[1..], k);
    }
  }

  lemma ViewDoorsWellFormed(u: Setup, k: Spot)
    requires SetupRight(u) && k.rel in u.cat.tables
    ensures DoorsWellFormed(ViewDoorsAt(u, k))
  {
    if k.command != Truncate { ViewDoorsStand(u, k); }
  }

  lemma BaseCellWellFormed(u: Setup, k: Spot)
    requires SetupRight(u) && k.rel in u.cat.tables
    ensures WellFormed(BaseCell(u, k))
  {
    var t := u.cat.tables[k.rel];
    CellFor.CellWellFormed(t, k.command, u.session, WalkFor(u.cat, u.session, t, k.command));
    ViewDoorsWellFormed(u, k);
    FunctionDoorsWellFormed(u, u.functions, k);
    var ds := ViewDoorsAt(u, k) + FunctionDoorsAt(u, u.functions, k);
    FoldIsLub(DirectOf(u.cat, u.session, t, k.command).cell, ds, Me(u), Nothing);
  }

  lemma BaseWellFormed(u: Setup)
    requires SetupRight(u)
    ensures Reach.StateWellFormed(Base(u))
  {
    forall k | k in Base(u).cells ensures WellFormed(Base(u).cells[k]) { BaseCellWellFormed(u, k); }
  }

  lemma SchemaIsWellFormed(u: Setup, s: Reach.Schema)
    requires SchemaOver(u, s)
    ensures Reach.SchemaWellFormed(s)
  {
    forall e | ReachMeaning.IsBody(s, e) ensures Reach.EffectWellFormed(e) {
      RunAsOwnerWellFormed(u.source(e).body, u.source(e).touches);
    }
    assert forall f :: f in Reach.Firings(s) ==> ReachMeaning.IsBody(s, f.body);
    assert forall r :: r in s.rules ==> ReachMeaning.IsBody(s, r.body);
  }

  lemma BodiesMatch(u: Setup, s: Reach.Schema, e: Reach.Effect, k: Spot)
    requires SetupRight(u) && SchemaOver(u, s) && SetupFirstLeast(u, k.command) && BodiesFirstLeast(u, s, k.command)
    requires ReachMeaning.IsBody(s, e) && k.rel in u.cat.tables
    ensures StandFor(Reach.DoorsFor(e.doors, k), Me(u),
            BodyRows(u.source(e).body, u.source(e).touches, u.edges, k, Me(u)))
  {
    assert BodyRight(u.source(e).body, u.edges, k.command);
    BodyDoorsMean(u.source(e).body, u.source(e).touches, u.edges, k, Me(u));
  }

  lemma RowsMatchBase(u: Setup, s: Reach.Schema, action: (Spot, string) -> RowSet, c: Command)
    requires SetupRight(u) && SchemaOver(u, s) && SetupFirstLeast(u, c) && BodiesFirstLeast(u, s, c)
    ensures ReachMeaning.RowsMatch(s, Base(u), Me(u), AllRows(u, action), c)
  {
    var rows := AllRows(u, action);
    BaseWellFormed(u);
    SchemaIsWellFormed(u, s);
    forall k | k in Base(u).cells && k.command == c
      ensures FilterJudgeable(Base(u).cells[k]) && Describes(Base(u).cells[k], Me(u), rows.own(k))
    {
      BaseDescribesOwnRows(u, k);
    }
    forall e, k | ReachMeaning.IsBody(s, e) && k in Base(u).cells && k.command == c
      ensures StandFor(Reach.DoorsFor(e.doors, k), Me(u), rows.body(e, k))
    {
      BodiesMatch(u, s, e, k);
    }
  }

  lemma LoopSettles(u: Setup, s: Reach.Schema, n: nat)
    requires SetupRight(u) && SchemaOver(u, s)
    requires !ReachFixpoint.Moves(s, Base(u), Me(u), n)
    ensures ReachMeaning.Settled(s, Base(u), Reach.Rounds(s, Base(u), Me(u), n))
  {
    BaseWellFormed(u);
    SchemaIsWellFormed(u, s);
    ReachDerivation.RoundsDerive(s, Base(u), Me(u), n);
    forall f
      ensures ReachDerivation.Holds(f, Reach.Rounds(s, Base(u), Me(u), n)) <==>
              ReachDerivation.Derivable(s, Base(u), f)
    {
      ReachDerivation.ReachedIffDerivable(s, Base(u), Me(u), n, f);
    }
  }

  lemma AncestorsAreCells(u: Setup, s: Reach.Schema)
    requires SchemaOver(u, s)
    ensures ReachMeaning.AncestorsHaveCells(s, Base(u))
  {}

  lemma FixedRowsMean(s: Reach.Schema, base: Reach.State, n: nat, me: string, level: map<string, nat>,
                      rows: ReachMeaning.Rows, k: Spot)
    requires ReachMeaning.RowsMatch(s, base, me, rows, k.command)
             && ReachMeaning.Settled(s, base, Reach.Rounds(s, base, me, n))
    requires Reach.Layered(s, level) && ReachMeaning.AncestorsHaveCells(s, base) && k in base.cells
    requires !ReachFixpoint.Moves(s, base, me, n)
    ensures ReachMeaning.CellMeans(s, base, Reach.Rounds(s, base, me, n), me, level, rows, k)
  {
    ReachMeaning.FinalCellsMeanRows(s, base, Reach.Rounds(s, base, me, n), me, level, rows, k);
  }

  /**
    From policies to the final matrix: where the loop stops, an open cell means every row is
    reached, a denied one none, and a conditional one exactly the rows its filter is TRUE on.
    Reached is what Postgres lets the role reach itself, each view's effective user on a permitted
    walk, and each body's owner, for the functions the role may call and every trigger and rule
    that a finite derivation runs, at the relation or at an ancestor; and what actions rewrite.
    For TRUNCATE it is asked that the blocker search be right for everyone involved.
   */
  lemma FinalVerdictsMeanRows(u: Setup, s: Reach.Schema, n: nat, level: map<string, nat>,
                              action: (Spot, string) -> RowSet, k: Spot)
    requires SetupRight(u) && SchemaOver(u, s) && Reach.Layered(s, level) && k in Spots(u.cat)
    requires SetupFirstLeast(u, k.command) && BodiesFirstLeast(u, s, k.command)
    requires !ReachFixpoint.Moves(s, Base(u), Me(u), n)
    ensures ReachMeaning.CellMeans(s, Base(u), Reach.Rounds(s, Base(u), Me(u), n), Me(u), level, AllRows(u, action), k)
  {
    RowsMatchBase(u, s, action, k.command);
    LoopSettles(u, s, n);
    AncestorsAreCells(u, s);
    FixedRowsMean(s, Base(u), n, Me(u), level, AllRows(u, action), k);
  }
}
