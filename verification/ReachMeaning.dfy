/** What the verdicts the loop ends with say about rows. */
module ReachMeaning {
  import opened Prelude
  import opened Dependence
  import opened Cells
  import opened Merge
  import opened Reach
  import opened ReachFixpoint
  import opened ReachDerivation
  import Predicate

  /**
    The rows behind the inputs: what the role's own session and chosen doors reach of each
    relation, what each traced body reaches there, and what a foreign-key action rewrites.
   */
  datatype Rows = Rows(own: Spot -> RowSet, body: (Effect, Spot) -> RowSet, action: (Spot, string) -> RowSet)

  // --- which rows are reached, without the computed cells ---

  /** The body runs: a derivable fact fires its trigger, or a derivable write its rule. */
  ghost predicate Runs(s: Schema, base: State, e: Effect) {
    || (exists fi, f :: fi in Firings(s) && fi.body == e && FiresOn(fi, f) && Derivable(s, base, f))
    || (exists r :: r in s.rules && r.body == e && Derivable(s, base, WriteIssued(r.at)))
  }

  /** The foreign key's action amounts to this command, and its trigger is derivable at the parent. */
  ghost predicate ActsOn(s: Schema, base: State, k: Spot, fk: ForeignKey) {
    var t := FindTable(s.tables, k.rel);
    t.Some? && fk in t.value.fks && exists from :: FkEdge(t.value, fk, from, k) && Derivable(s, base, RowsReached(from))
  }

  ghost predicate IsParent(s: Schema, level: map<string, nat>, k: Spot, a: Ancestor) {
    var t := FindTable(s.tables, k.rel);
    && t.Some? && a in t.value.ancestors && Reach.Passes(a, k.command)
    && LevelOf(level, Spot(a.table, k.command)) < LevelOf(level, k)
  }

  /**
    A row is reached at a relation through the role's own session or chosen doors, at an
    ancestor, through a body that runs, or by a foreign-key action that fires.
   */
  ghost predicate RowReached(s: Schema, base: State, level: map<string, nat>, rows: Rows, k: Spot, w: Predicate.World)
    decreases LevelOf(level, k)
  {
    || rows.own(k)(w)
    || (exists a :: IsParent(s, level, k, a) && RowReached(s, base, level, rows, Spot(a.table, k.command), w))
    || (exists e :: Runs(s, base, e) && rows.body(e, k)(w))
    || (exists fk :: ActsOn(s, base, k, fk) && rows.action(k, fk.name)(w))
  }

  ghost function Reaching(s: Schema, base: State, level: map<string, nat>, rows: Rows, k: Spot): RowSet {
    w => RowReached(s, base, level, rows, k, w)
  }

  ghost predicate IsBody(s: Schema, e: Effect) {
    (exists fi :: fi in Firings(s) && fi.body == e) || (exists r :: r in s.rules && r.body == e)
  }

  /** For one command the rows handed in are the ones the base cells and the bodies' doors stand for. */
  ghost predicate RowsMatch(s: Schema, base: State, me: string, rows: Rows, c: Command) {
    && StateWellFormed(base) && SchemaWellFormed(s)
    && (forall k :: k in base.cells && k.command == c ==>
          FilterJudgeable(base.cells[k]) && Describes(base.cells[k], me, rows.own(k)))
    && (forall e, k :: IsBody(s, e) && k in base.cells && k.command == c ==>
          StandFor(DoorsFor(e.doors, k), me, rows.body(e, k)))
  }

  /** Every table an ancestor list names has a cell. */
  ghost predicate AncestorsHaveCells(s: Schema, base: State) {
    forall t, a, c :: t in s.tables && a in t.ancestors && Spot(t.name, c) in base.cells ==>
        Spot(a.table, c) in base.cells
  }

  /** What holds in the state is what is derivable: the loop has stopped there. */
  ghost predicate Settled(s: Schema, base: State, st: State) {
    StateWellFormed(st) && forall f :: Holds(f, st) <==> Derivable(s, base, f)
  }

  // --- what each kind of door stands for ---

  /** What is known of an ancestor's cell when its descendants are looked at. */
  ghost predicate CellMeans(s: Schema, base: State, st: State, me: string, level: map<string, nat>, rows: Rows,
                            k: Spot) {
    && k in st.cells && WellFormed(st.cells[k]) && FilterJudgeable(st.cells[k])
    && Describes(st.cells[k], me, Reaching(s, base, level, rows, k))
  }

  ghost predicate ParentsMean(s: Schema, base: State, st: State, me: string, level: map<string, nat>, rows: Rows,
                              k: Spot) {
    forall a :: IsParent(s, level, k, a) ==> CellMeans(s, base, st, me, level, rows, Spot(a.table, k.command))
  }

  ghost function ParentRows(s: Schema, base: State, level: map<string, nat>, rows: Rows, k: Spot): RowSet {
    w => exists a :: IsParent(s, level, k, a) && RowReached(s, base, level, rows, Spot(a.table, k.command), w)
  }

  ghost function ActionRows(s: Schema, base: State, rows: Rows, k: Spot): RowSet {
    w => exists fk :: ActsOn(s, base, k, fk) && rows.action(k, fk.name)(w)
  }

  ghost function RunRows(s: Schema, base: State, rows: Rows, k: Spot): RowSet {
    w => exists e :: Runs(s, base, e) && rows.body(e, k)(w)
  }

  ghost function ParentDoorOf(st: State, k: Spot, a: Ancestor): Door
    requires Reached(st.cells, Spot(a.table, k.command))
  {
    Door(Via("through parent " + a.table, st.cells[Spot(a.table, k.command)], None, None),
         AccessPath(ParentDoor, Some(a.table), []))
  }

  lemma ParentSources(s: Schema, st: State, level: map<string, nat>, k: Spot, d: Door, t: Table)
    requires Layered(s, level) && FindTable(s.tables, k.rel) == Some(t)
    ensures d in ParentDoors(t.ancestors, k.command, st.cells) <==>
            exists a :: IsParent(s, level, k, a) && Reached(st.cells, Spot(a.table, k.command))
                && d == ParentDoorOf(st, k, a)
  {
    ParentDoorsMembers(t.ancestors, k.command, st.cells, d);
    if d in ParentDoors(t.ancestors, k.command, st.cells) {
      var a :| a in t.ancestors && Reach.Passes(a, k.command) && Reached(st.cells, Spot(a.table, k.command))
               && d == ParentDoorOf(st, k, a);
      assert IsParent(s, level, k, a);
    }
  }

  /** One parent's door shows what is reached at the parent. */
  lemma ParentDoorShows(s: Schema, base: State, st: State, me: string, level: map<string, nat>, rows: Rows, k: Spot,
                        a: Ancestor)
    requires CellMeans(s, base, st, me, level, rows, Spot(a.table, k.command))
             && Reached(st.cells, Spot(a.table, k.command))
    ensures var d := ParentDoorOf(st, k, a);
            && WellFormed(d.cell) && FilterJudgeable(d.cell)
            && (d.cell.verdict != Undecided ==>
                  forall w: Predicate.World :: Lawful(w) ==>
                    (Shows(d.cell, me, w) <==> RowReached(s, base, level, rows, Spot(a.table, k.command), w)))
  {}

  lemma ParentDoorsMean(s: Schema, base: State, st: State, me: string, level: map<string, nat>, rows: Rows, k: Spot,
                        t: Table)
    requires Layered(s, level) && FindTable(s.tables, k.rel) == Some(t) && ParentsMean(s, base, st, me, level, rows, k)
    ensures StandFor(ParentDoors(t.ancestors, k.command, st.cells), me, ParentRows(s, base, level, rows, k))
  {
    var ds := ParentDoors(t.ancestors, k.command, st.cells);
    forall d ensures d in ds <==>
                     exists a :: IsParent(s, level, k, a) && Reached(st.cells, Spot(a.table, k.command))
                         && d == ParentDoorOf(st, k, a)
    {
      ParentSources(s, st, level, k, d, t);
    }
    forall a | IsParent(s, level, k, a) && Reached(st.cells, Spot(a.table, k.command))
      ensures WellFormed(ParentDoorOf(st, k, a).cell) && FilterJudgeable(ParentDoorOf(st, k, a).cell)
    {
      ParentDoorShows(s, base, st, me, level, rows, k, a);
    }
    assert DoorsWellFormed(ds) by { assert forall i :: 0 <= i < |ds| ==> ds[i] in ds; }
    forall w: Predicate.World | Lawful(w)
      ensures forall d :: d in ds && Shows(d.cell, me, w) ==> ParentRows(s, base, level, rows, k)(w)
      ensures ParentRows(s, base, level, rows, k)(w) ==> MayShow(ds, me, w)
    {
      forall d | d in ds && Shows(d.cell, me, w) ensures ParentRows(s, base, level, rows, k)(w) {
        var a :| IsParent(s, level, k, a) && Reached(st.cells, Spot(a.table, k.command)) && d == ParentDoorOf(st, k, a);
        ParentDoorShows(s, base, st, me, level, rows, k, a);
      }
      if a :| IsParent(s, level, k, a) && RowReached(s, base, level, rows, Spot(a.table, k.command), w) {
        ReachedParentHasDoor(s, base, st, me, level, rows, k, a, w);
        ParentDoorShows(s, base, st, me, level, rows, k, a);
        assert ParentDoorOf(st, k, a) in ds;
      }
    }
  }

  lemma ReachedParentHasDoor(s: Schema, base: State, st: State, me: string, level: map<string, nat>, rows: Rows,
                             k: Spot, a: Ancestor, w: Predicate.World)
    requires CellMeans(s, base, st, me, level, rows, Spot(a.table, k.command)) && Lawful(w)
    requires RowReached(s, base, level, rows, Spot(a.table, k.command), w)
    ensures Reached(st.cells, Spot(a.table, k.command))
  {
    assert Reaching(s, base, level, rows, Spot(a.table, k.command))(w);
  }

  /** A foreign key acts, at the state the loop stops in, exactly when its trigger is derivable at the parent. */
  lemma ActsExactly(s: Schema, base: State, st: State, k: Spot, fk: ForeignKey, t: Table)
    requires Settled(s, base, st) && FindTable(s.tables, k.rel) == Some(t) && fk in t.fks
    ensures ActsOn(s, base, k, fk) <==>
            FkActs(fk, k.command, st.cells, Delete) || FkActs(fk, k.command, st.cells, Update)
  {
    forall trigger | trigger == Delete || trigger == Update
      ensures FkActs(fk, k.command, st.cells, trigger) <==>
              FkEdge(t, fk, Spot(fk.parent, trigger), k) && Derivable(s, base, RowsReached(Spot(fk.parent, trigger)))
    {
      assert Holds(RowsReached(Spot(fk.parent, trigger)), st) <==> Reached(st.cells, Spot(fk.parent, trigger));
    }
    if from :| FkEdge(t, fk, from, k) && Derivable(s, base, RowsReached(from)) {
      assert from == Spot(fk.parent, from.command);
    }
  }

  lemma ActionDoorsMean(s: Schema, base: State, st: State, me: string, rows: Rows, k: Spot, t: Table)
    requires Settled(s, base, st) && FindTable(s.tables, k.rel) == Some(t)
    ensures StandFor(FkDoors(t.fks, k.command, st.cells), me, ActionRows(s, base, rows, k))
  {
    var ds := FkDoors(t.fks, k.command, st.cells);
    forall d ensures d in ds <==>
                     exists fk :: fk in t.fks && ((FkActs(fk, k.command, st.cells, Delete) && d == FkDoor(fk, "delete"))
                                                  || (FkActs(fk, k.command, st.cells, Update)
                                                      && d == FkDoor(fk, "update")))
    {
      FkDoorsMembers(t.fks, k.command, st.cells, d);
    }
    assert forall d :: d in ds ==> d.cell.verdict == Undecided && FilterJudgeable(d.cell);
    assert DoorsWellFormed(ds) by { assert forall i :: 0 <= i < |ds| ==> ds[i] in ds; }
    forall fk | ActsOn(s, base, k, fk) ensures ds != [] {
      ActsExactly(s, base, st, k, fk, t);
      assert (if FkActs(fk, k.command, st.cells, Delete) then FkDoor(fk, "delete") else FkDoor(fk, "update")) in ds;
    }
    if ds != [] { assert ds[0] in ds; }
  }

  /** A body runs, at the state the loop stops in, exactly when it is one the round's doors come from. */
  lemma RunsExactly(s: Schema, base: State, st: State, k: Spot, d: Door)
    requires Settled(s, base, st)
    ensures d in TriggerDoors(Firings(s), k, st) + RuleDoors(s.rules, k, st.reach) <==>
            exists e :: Runs(s, base, e) && d in DoorsFor(e.doors, k)
  {
    TriggerDoorsMembers(Firings(s), k, st, d);
    RuleDoorsMembers(s.rules, k, st.reach, d);
    forall e: Effect ensures d in DoorsFor(e.doors, k) <==> Placed(k, d) in e.doors { DoorsForMembers(e.doors, k, d); }
    forall fi | fi in Firings(s) ensures Fires(fi, st) <==> exists f :: FiresOn(fi, f) && Derivable(s, base, f) {
      FiresOnSomeFact(fi, st);
    }
    forall r | r in s.rules ensures r.at in st.reach <==> Derivable(s, base, WriteIssued(r.at)) {
      assert Holds(WriteIssued(r.at), st) <==> r.at in st.reach;
    }
  }

  lemma RunningStands(s: Schema, base: State, me: string, rows: Rows, k: Spot, e: Effect)
    requires RowsMatch(s, base, me, rows, k.command) && k in base.cells && Runs(s, base, e)
    ensures StandFor(DoorsFor(e.doors, k), me, rows.body(e, k))
  {
    assert IsBody(s, e);
  }

  lemma RunDoorsUnion(s: Schema, base: State, st: State, me: string, rows: Rows, k: Spot,
                      chosen: Effect -> bool, parts: Effect -> seq<Door>, sets: Effect -> RowSet)
    requires Settled(s, base, st)
    requires forall e :: chosen(e) <==> Runs(s, base, e)
    requires forall e :: parts(e) == DoorsFor(e.doors, k)
    requires forall e :: sets(e) == rows.body(e, k)
    requires forall e :: chosen(e) ==> StandFor(parts(e), me, sets(e))
    ensures StandFor(TriggerDoors(Firings(s), k, st) + RuleDoors(s.rules, k, st.reach), me, RunRows(s, base, rows, k))
  {
    var ds := TriggerDoors(Firings(s), k, st) + RuleDoors(s.rules, k, st.reach);
    forall d ensures d in ds <==> exists e :: chosen(e) && d in parts(e) { RunsExactly(s, base, st, k, d); }
    DoorsMeanUnion(ds, chosen, parts, sets, me);
    DoorsMeanExtensional(ds, me, w => exists e :: chosen(e) && sets(e)(w), RunRows(s, base, rows, k));
  }

  lemma RunDoorsMean(s: Schema, base: State, st: State, me: string, rows: Rows, k: Spot)
    requires Settled(s, base, st) && RowsMatch(s, base, me, rows, k.command) && k in base.cells
    ensures StandFor(TriggerDoors(Firings(s), k, st) + RuleDoors(s.rules, k, st.reach), me, RunRows(s, base, rows, k))
  {
    var chosen, parts := (e: Effect) => Runs(s, base, e), (e: Effect) => DoorsFor(e.doors, k);
    var sets := (e: Effect) => rows.body(e, k);
    forall e | Runs(s, base, e) ensures StandFor(DoorsFor(e.doors, k), me, rows.body(e, k)) {
      RunningStands(s, base, me, rows, k, e);
    }
    RunDoorsUnion(s, base, st, me, rows, k, chosen, parts, sets);
  }

  // --- one cell, and all of them ---

  ghost function DoorRows(s: Schema, base: State, level: map<string, nat>, rows: Rows, k: Spot): RowSet {
    Union(Union(ParentRows(s, base, level, rows, k), ActionRows(s, base, rows, k)), RunRows(s, base, rows, k))
  }

  lemma NoDoors(me: string)
    ensures StandFor([], me, w => false)
  {}

  lemma TableDoorsMean(s: Schema, base: State, st: State, me: string, level: map<string, nat>, rows: Rows, k: Spot,
                       t: Table)
    requires Settled(s, base, st) && Layered(s, level) && FindTable(s.tables, k.rel) == Some(t)
    requires ParentsMean(s, base, st, me, level, rows, k)
    ensures StandFor(ParentDoors(t.ancestors, k.command, st.cells) + FkDoors(t.fks, k.command, st.cells), me,
                     Union(ParentRows(s, base, level, rows, k), ActionRows(s, base, rows, k)))
  {
    ParentDoorsMean(s, base, st, me, level, rows, k, t);
    ActionDoorsMean(s, base, st, me, rows, k, t);
    DoorsMeanBoth(ParentDoors(t.ancestors, k.command, st.cells), FkDoors(t.fks, k.command, st.cells), me,
                  ParentRows(s, base, level, rows, k), ActionRows(s, base, rows, k));
  }

  lemma NoTableNoDoors(s: Schema, base: State, me: string, level: map<string, nat>, rows: Rows, k: Spot)
    requires FindTable(s.tables, k.rel).None?
    ensures StandFor([], me, Union(ParentRows(s, base, level, rows, k), ActionRows(s, base, rows, k)))
  {
    NoDoors(me);
    DoorsMeanExtensional([], me, w => false, Union(ParentRows(s, base, level, rows, k), ActionRows(s, base, rows, k)));
  }

  lemma AllDoorsMean(s: Schema, base: State, st: State, me: string, level: map<string, nat>, rows: Rows, k: Spot)
    requires RowsMatch(s, base, me, rows, k.command) && Settled(s, base, st) && Layered(s, level)
    requires ParentsMean(s, base, st, me, level, rows, k) && k in base.cells
    ensures StandFor(DoorsAt(s, st, k), me, DoorRows(s, base, level, rows, k))
  {
    var t := FindTable(s.tables, k.rel);
    var run := TriggerDoors(Firings(s), k, st) + RuleDoors(s.rules, k, st.reach);
    var own := if t.Some? then ParentDoors(t.value.ancestors, k.command, st.cells)
        + FkDoors(t.value.fks, k.command, st.cells) else [];
    if t.Some? {
      TableDoorsMean(s, base, st, me, level, rows, k, t.value);
    } else {
      NoTableNoDoors(s, base, me, level, rows, k);
    }
    RunDoorsMean(s, base, st, me, rows, k);
    DoorsMeanBoth(own, run, me, Union(ParentRows(s, base, level, rows, k), ActionRows(s, base, rows, k)),
        RunRows(s, base, rows, k));
    assert DoorsAt(s, st, k) == own + run;
  }

  lemma RowSplits(s: Schema, base: State, level: map<string, nat>, rows: Rows, k: Spot, w: Predicate.World)
    ensures Reaching(s, base, level, rows, k)(w) <==> Union(rows.own(k), DoorRows(s, base, level, rows, k))(w)
  {}

  lemma CellDescribesUnion(s: Schema, base: State, st: State, me: string, level: map<string, nat>, rows: Rows, k: Spot)
    requires RowsMatch(s, base, me, rows, k.command) && Settled(s, base, st) && Layered(s, level)
    requires ParentsMean(s, base, st, me, level, rows, k) && k in base.cells
    ensures var cell := Fold(base.cells[k], DoorsAt(s, st, k), me);
            && WellFormed(cell) && FilterJudgeable(cell)
            && Describes(cell, me, Reaching(s, base, level, rows, k))
  {
    AllDoorsMean(s, base, st, me, level, rows, k);
    var more := DoorRows(s, base, level, rows, k);
    var cell := Fold(base.cells[k], DoorsAt(s, st, k), me);
    FoldMeans(base.cells[k], DoorsAt(s, st, k), me, rows.own(k), more);
    forall w: Predicate.World ensures Union(rows.own(k), more)(w) <==> Reaching(s, base, level, rows, k)(w) {
      RowSplits(s, base, level, rows, k, w);
    }
    DescribesExtensional(cell, me, Union(rows.own(k), more), Reaching(s, base, level, rows, k));
  }

  /**
    At the state the loop stops in, every verdict that commits says exactly which rows the role
    reaches: its own, those of every body that runs, every action that fires, and whatever is
    reached at an ancestor, all the way up the hierarchy.
   */
  lemma {:induction false} FinalCellsMeanRows(s: Schema, base: State, st: State, me: string, level: map<string, nat>,
                                              rows: Rows, k: Spot)
    requires RowsMatch(s, base, me, rows, k.command) && Settled(s, base, st) && Layered(s, level)
             && AncestorsHaveCells(s, base)
    requires Step(s, base, me, st) == st && k in base.cells
    ensures CellMeans(s, base, st, me, level, rows, k)
    decreases LevelOf(level, k)
  {
    forall a | IsParent(s, level, k, a) ensures CellMeans(s, base, st, me, level, rows, Spot(a.table, k.command)) {
      var t := FindTable(s.tables, k.rel).value;
      assert t in s.tables && t.name == k.rel && Spot(t.name, k.command) == k;
      FinalCellsMeanRows(s, base, st, me, level, rows, Spot(a.table, k.command));
    }
    CellDescribesUnion(s, base, st, me, level, rows, k);
    assert st.cells[k] == Fold(base.cells[k], DoorsAt(s, st, k), me);
  }
}
