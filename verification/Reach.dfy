/**
  One round of the fixed-point loop: from the cells and writes of the round before, the doors that
  parents, foreign keys, triggers and rules open, and the writes they issue in turn.
 */
module Reach {
  import opened Prelude
  import opened Cells
  import opened Merge

  datatype Placed = Placed(at: Spot, door: Door)

  /** What a body run as its owner reaches, and what it writes with the privilege to. */
  datatype Effect = Effect(doors: seq<Placed>, issued: set<Spot>)

  datatype Action = NoAction | Cascade | SetNull | SetDefault

  datatype ForeignKey = ForeignKey(name: string, parent: string, onDelete: Action, onUpdate: Action)

  datatype Timing = Before | After | InsteadOf

  /** `row` is None when the level was not captured; `bodies` are its SECURITY DEFINER functions. */
  datatype Trigger = Trigger(
    enabled: bool, row: Option<bool>, timing: Timing, events: seq<Command>, bodies: seq<Effect>)

  datatype Ancestor = Ancestor(table: string, declarative: bool)

  datatype Table = Table(name: string, ancestors: seq<Ancestor>, fks: seq<ForeignKey>, triggers: seq<Trigger>)

  datatype Rule = Rule(at: Spot, body: Effect)

  datatype Schema = Schema(tables: seq<Table>, rules: seq<Rule>)

  /** A round's cells, and the writes someone on the way, holding the privilege, has issued by then. */
  datatype State = State(cells: map<Spot, Cell>, reach: set<Spot>)

  function FindTable(ts: seq<Table>, name: string): (r: Option<Table>)
    ensures r.Some? ==> r.value in ts && r.value.name == name
  {
    if ts == [] then None else if ts[0].name == name then Some(ts[0]) else FindTable(ts[1..], name)
  }

  predicate Reached(cells: map<Spot, Cell>, k: Spot) {
    k in cells && cells[k].verdict != Denied
  }

  // --- parents ---

  /** Commands on an ancestor that touch the table's rows: all but an INSERT that nothing routes. */
  predicate Passes(a: Ancestor, c: Command) {
    c != Insert || a.declarative
  }

  function ParentDoors(ancestors: seq<Ancestor>, c: Command, cells: map<Spot, Cell>): seq<Door> {
    if ancestors == [] then []
    else
      var a := ancestors[0];
      (if Passes(a, c) && Reached(cells, Spot(a.table, c)) then
         [Door(Via("through parent " + a.table, cells[Spot(a.table, c)], None, None),
               AccessPath(ParentDoor, Some(a.table), []))]
       else [])
      + ParentDoors(ancestors[1..], c, cells)
  }

  // --- foreign-key actions ---

  /** The command a referential action amounts to on the referencing table, if it rewrites it. */
  function ActionCommand(trigger: Command, action: Action): Option<Command> {
    if action == NoAction then None
    else if trigger == Delete && action == Cascade then Some(Delete)
    else Some(Update)
  }

  predicate FkActs(fk: ForeignKey, c: Command, cells: map<Spot, Cell>, trigger: Command) {
    && (trigger == Delete || trigger == Update)
    && ActionCommand(trigger, if trigger == Delete then fk.onDelete else fk.onUpdate) == Some(c)
    && Reached(cells, Spot(fk.parent, trigger))
  }

  function FkDoor(fk: ForeignKey, trigger: string): Door {
    Door(Plain(Undecided, Some("rows referencing " + fk.parent + " rows the role can " + trigger
                               + " (foreign key " + fk.name + ")")),
         AccessPath(ForeignKeyDoor, Some(fk.name), []))
  }

  function FkDoors(fks: seq<ForeignKey>, c: Command, cells: map<Spot, Cell>): seq<Door> {
    if fks == [] then []
    else
      (if FkActs(fks[0], c, cells, Delete) then [FkDoor(fks[0], "delete")] else [])
      + (if FkActs(fks[0], c, cells, Update) then [FkDoor(fks[0], "update")] else [])
      + FkDoors(fks[1..], c, cells)
  }

  function FkIssued(s: Schema, cells: map<Spot, Cell>): set<Spot> {
    set t, fk, trigger, c |
      t in s.tables && fk in t.fks && trigger in {Delete, Update} && c in {Delete, Update}
      && FkActs(fk, c, cells, trigger) :: Spot(t.name, c)
  }

  // --- triggers ---

  /** One trigger function on one table for one event; `table` may be a partition of its holder. */
  datatype Firing = Firing(
    table: string, ancestors: seq<Ancestor>, command: Command, row: Option<bool>, timing: Timing, body: Effect)

  function BodyFirings(t: Table, tr: Trigger, c: Command, bodies: seq<Effect>): seq<Firing> {
    if bodies == [] then []
    else [Firing(t.name, t.ancestors, c, tr.row, tr.timing, bodies[0])] + BodyFirings(t, tr, c, bodies[1..])
  }

  function EventFirings(t: Table, tr: Trigger, events: seq<Command>): seq<Firing> {
    if events == [] then [] else BodyFirings(t, tr, events[0], tr.bodies) + EventFirings(t, tr, events[1..])
  }

  /** Only row triggers are cloned from a holder to its partitions. */
  function HolderFirings(t: Table, triggers: seq<Trigger>, own: bool): seq<Firing> {
    if triggers == [] then []
    else
      (if !triggers[0].enabled || (!own && triggers[0].row == Some(false)) then []
       else EventFirings(t, triggers[0], triggers[0].events))
      + HolderFirings(t, triggers[1..], own)
  }

  function ClonedFirings(s: Schema, t: Table, ancestors: seq<Ancestor>): seq<Firing> {
    if ancestors == [] then []
    else
      var h := FindTable(s.tables, ancestors[0].table);
      (if ancestors[0].declarative && h.Some? then HolderFirings(t, h.value.triggers, false) else [])
      + ClonedFirings(s, t, ancestors[1..])
  }

  function TableFirings(s: Schema, ts: seq<Table>): seq<Firing> {
    if ts == [] then []
    else HolderFirings(ts[0], ts[0].triggers, true) + ClonedFirings(s, ts[0], ts[0].ancestors)
         + TableFirings(s, ts[1..])
  }

  function Firings(s: Schema): seq<Firing> {
    TableFirings(s, s.tables)
  }

  /** Whether the trigger fires, given what the role reaches and what has been issued. */
  predicate Fires(f: Firing, st: State) {
    var key := Spot(f.table, f.command);
    if f.command == Truncate then
      key in st.reach || exists a :: a in f.ancestors && Spot(a.table, Truncate) in st.reach
    else if f.row != Some(true) && key in st.reach then true
    else if f.row == Some(false) then false
    else if f.timing == Before && f.command == Insert
            && (key in st.reach || exists a :: a in f.ancestors && a.declarative && Spot(a.table, Insert) in st.reach)
    then true
    else if Reached(st.cells, key) then true
    else if f.command == Insert || f.command == Delete then
      exists a :: a in f.ancestors && a.declarative && Reached(st.cells, Spot(a.table, Update))
    else false
  }

  function DoorsFor(doors: seq<Placed>, k: Spot): seq<Door> {
    if doors == [] then []
    else (if doors[0].at == k then [doors[0].door] else []) + DoorsFor(doors[1..], k)
  }

  function TriggerDoors(fs: seq<Firing>, k: Spot, st: State): seq<Door> {
    if fs == [] then []
    else (if Fires(fs[0], st) then DoorsFor(fs[0].body.doors, k) else []) + TriggerDoors(fs[1..], k, st)
  }

  function TriggerIssued(fs: seq<Firing>, st: State): set<Spot> {
    set f, k | f in fs && Fires(f, st) && k in f.body.issued :: k
  }

  // --- rules ---

  function RuleDoors(rs: seq<Rule>, k: Spot, reach: set<Spot>): seq<Door> {
    if rs == [] then []
    else (if rs[0].at in reach then DoorsFor(rs[0].body.doors, k) else []) + RuleDoors(rs[1..], k, reach)
  }

  function RuleIssued(rs: seq<Rule>, reach: set<Spot>): set<Spot> {
    set r, k | r in rs && r.at in reach && k in r.body.issued :: k
  }

  // --- one round ---

  function DoorsAt(s: Schema, st: State, k: Spot): seq<Door> {
    var t := FindTable(s.tables, k.rel);
    (if t.Some? then ParentDoors(t.value.ancestors, k.command, st.cells) + FkDoors(t.value.fks, k.command, st.cells)
     else [])
    + TriggerDoors(Firings(s), k, st)
    + RuleDoors(s.rules, k, st.reach)
  }

  function Issued(s: Schema, st: State): set<Spot> {
    FkIssued(s, st.cells) + TriggerIssued(Firings(s), st) + RuleIssued(s.rules, st.reach)
  }

  /** One round: every cell refolded from the base with this round's doors. */
  function Step(s: Schema, base: State, me: string, st: State): State {
    State(map k | k in base.cells :: Fold(base.cells[k], DoorsAt(s, st, k), me),
          base.reach + Issued(s, st))
  }

  function Round(s: Schema, base: State, me: string): State -> State {
    st => Step(s, base, me, st)
  }

  ghost function Rounds(s: Schema, base: State, me: string, n: nat): State {
    Iterate(Round(s, base, me), base, n)
  }

  // --- what the inputs are ---

  /** A traced body credits only doors that reach rows, and a filtered one carries its filter. */
  predicate EffectWellFormed(e: Effect) {
    forall i :: 0 <= i < |e.doors| ==> WellFormed(e.doors[i].door.cell) && e.doors[i].door.cell.verdict != Denied
  }

  predicate SchemaWellFormed(s: Schema) {
    && (forall i, j :: 0 <= i < j < |s.tables| ==> s.tables[i].name != s.tables[j].name)
    && (forall f :: f in Firings(s) ==> EffectWellFormed(f.body))
    && (forall r :: r in s.rules ==> EffectWellFormed(r.body))
  }

  predicate StateWellFormed(st: State) {
    forall k :: k in st.cells ==> WellFormed(st.cells[k])
  }

  /** Every ancestor sits on a strictly lower level: the combined hierarchy has no cycle. */
  predicate Layered(s: Schema, level: map<string, nat>) {
    forall t :: t in s.tables ==>
      t.name in level && forall a :: a in t.ancestors ==> a.table in level && level[a.table] < level[t.name]
  }

  lemma {:induction false} FindsByName(ts: seq<Table>, t: Table)
    requires t in ts && forall i, j :: 0 <= i < j < |ts| ==> ts[i].name != ts[j].name
    ensures FindTable(ts, t.name) == Some(t)
  {
    if ts[0] != t {
      var i :| 0 <= i < |ts| && ts[i] == t;
      assert ts[0].name != ts[i].name && ts[1..][i - 1] == t;
      FindsByName(ts[1..], t);
    }
  }

  // --- membership in the door lists ---

  lemma {:induction false} ParentDoorsMembers(ancestors: seq<Ancestor>, c: Command, cells: map<Spot, Cell>, d: Door)
    ensures d in ParentDoors(ancestors, c, cells) <==>
            exists a :: a in ancestors && Passes(a, c) && Reached(cells, Spot(a.table, c))
              && d == Door(Via("through parent " + a.table, cells[Spot(a.table, c)], None, None),
                           AccessPath(ParentDoor, Some(a.table), []))
  {
    if ancestors != [] {
      ParentDoorsMembers(ancestors[1..], c, cells, d);
      assert forall a :: a in ancestors <==> a == ancestors[0] || a in ancestors[1..];
    }
  }

  lemma {:induction false} FkDoorsMembers(fks: seq<ForeignKey>, c: Command, cells: map<Spot, Cell>, d: Door)
    ensures d in FkDoors(fks, c, cells) <==>
            exists fk :: fk in fks && ((FkActs(fk, c, cells, Delete) && d == FkDoor(fk, "delete"))
                                       || (FkActs(fk, c, cells, Update) && d == FkDoor(fk, "update")))
  {
    if fks != [] {
      FkDoorsMembers(fks[1..], c, cells, d);
      assert forall fk :: fk in fks <==> fk == fks[0] || fk in fks[1..];
    }
  }

  lemma {:induction false} DoorsForMembers(doors: seq<Placed>, k: Spot, d: Door)
    ensures d in DoorsFor(doors, k) <==> Placed(k, d) in doors
  {
    if doors != [] {
      DoorsForMembers(doors[1..], k, d);
      assert Placed(k, d) in doors <==> doors[0] == Placed(k, d) || Placed(k, d) in doors[1..];
    }
  }

  lemma {:induction false} TriggerDoorsMembers(fs: seq<Firing>, k: Spot, st: State, d: Door)
    ensures d in TriggerDoors(fs, k, st) <==>
            exists f :: f in fs && Fires(f, st) && Placed(k, d) in f.body.doors
  {
    if fs != [] {
      DoorsForMembers(fs[0].body.doors, k, d);
      TriggerDoorsMembers(fs[1..], k, st, d);
      assert forall f :: f in fs <==> f == fs[0] || f in fs[1..];
    }
  }

  lemma {:induction false} RuleDoorsMembers(rs: seq<Rule>, k: Spot, reach: set<Spot>, d: Door)
    ensures d in RuleDoors(rs, k, reach) <==> exists r :: r in rs && r.at in reach && Placed(k, d) in r.body.doors
  {
    if rs != [] {
      DoorsForMembers(rs[0].body.doors, k, d);
      RuleDoorsMembers(rs[1..], k, reach, d);
      assert forall r :: r in rs <==> r == rs[0] || r in rs[1..];
    }
  }
}
