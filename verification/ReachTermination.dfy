/**
  When the fixed-point loop ends: for every start exactly when no table is its own ancestor along
  the combined partition and inheritance lists.
 */
module ReachTermination {
  import opened Prelude
  import opened Cells
  import opened Merge
  import opened Reach
  import opened ReachFixpoint
  import opened ReachRounds
  import Predicate

  // --- cycles and levels ---

  /** `y` is in the ancestor list of the table `x`. */
  predicate IsAncestor(s: Schema, x: string, y: string) {
    var t := FindTable(s.tables, x);
    t.Some? && exists a :: a in t.value.ancestors && a.table == y
  }

  /** Each is a table that lists the next among its ancestors. */
  ghost predicate Climbs(s: Schema, p: seq<string>) {
    |p| > 0 && forall i :: 0 < i < |p| ==> IsAncestor(s, p[i - 1], p[i])
  }

  ghost predicate IsCycle(s: Schema, p: seq<string>) {
    Climbs(s, p) && |p| > 1 && p[0] == p[|p| - 1]
  }

  ghost predicate Cyclic(s: Schema) {
    exists p :: IsCycle(s, p)
  }

  function TableNames(s: Schema): set<string> {
    set t | t in s.tables :: t.name
  }

  function AncestorNames(s: Schema): set<string> {
    set t, a | t in s.tables && a in t.ancestors :: a.table
  }

  function Max(a: nat, b: nat): nat {
    if a < b then b else a
  }

  /** How far one can climb from `x`, up to `n` steps. */
  function Climbable(s: Schema, x: string, n: nat): nat
    decreases n, 0
  {
    var t := FindTable(s.tables, x);
    if n == 0 || t.None? then 0 else HighestOf(s, t.value.ancestors, n)
  }

  /** One step to some listed ancestor, and on from there; no step when the list is empty. */
  function HighestOf(s: Schema, ancestors: seq<Ancestor>, n: nat): nat
    requires n > 0
    decreases n - 1, |ancestors| + 1
  {
    if ancestors == [] then 0
    else Max(1 + Climbable(s, ancestors[0].table, n - 1), HighestOf(s, ancestors[1..], n))
  }

  lemma {:induction false} HighestBounds(s: Schema, ancestors: seq<Ancestor>, n: nat)
    requires n > 0
    ensures forall a :: a in ancestors ==> HighestOf(s, ancestors, n) >= 1 + Climbable(s, a.table, n - 1)
    ensures HighestOf(s, ancestors, n) == 0 <==> ancestors == []
    ensures ancestors != [] ==>
              exists a :: a in ancestors && HighestOf(s, ancestors, n) == 1 + Climbable(s, a.table, n - 1)
    decreases |ancestors|
  {
    if ancestors != [] {
      HighestBounds(s, ancestors[1..], n);
      assert forall a :: a in ancestors <==> a == ancestors[0] || a in ancestors[1..];
    }
  }

  /** Someone climbs that far. */
  lemma {:induction false} ClimbFound(s: Schema, x: string, n: nat) returns (p: seq<string>)
    ensures Climbs(s, p) && p[0] == x && |p| == Climbable(s, x, n) + 1
    decreases n
  {
    var t := FindTable(s.tables, x);
    p := [x];
    if n > 0 && t.Some? && t.value.ancestors != [] {
      HighestBounds(s, t.value.ancestors, n);
      var a :| a in t.value.ancestors && HighestOf(s, t.value.ancestors, n) == 1 + Climbable(s, a.table, n - 1);
      var q := ClimbFound(s, a.table, n - 1);
      p := [x] + q;
      forall i | 0 < i < |p| ensures IsAncestor(s, p[i - 1], p[i]) {
        if i > 1 { assert IsAncestor(s, q[i - 2], q[i - 1]); }
      }
    }
  }

  /** A list longer than the set it is drawn from repeats itself. */
  lemma {:induction false} Pigeonhole(xs: seq<string>, names: set<string>) returns (i: nat, j: nat)
    requires (forall x :: x in xs ==> x in names) && |xs| > |names|
    ensures i < j < |xs| && xs[i] == xs[j]
    decreases |xs|
  {
    var last, rest := xs[|xs| - 1], xs[..|xs| - 1];
    if last in rest {
      i :| 0 <= i < |rest| && rest[i] == last;
      j := |xs| - 1;
    } else {
      forall x | x in rest ensures x in names - {last} { assert x in xs; }
      i, j := Pigeonhole(rest, names - {last});
    }
  }

  lemma LoopFound(s: Schema, p: seq<string>, i: nat, j: nat)
    requires Climbs(s, p) && i < j < |p| && p[i] == p[j]
    ensures Cyclic(s)
  {
    var q := p[i..j + 1];
    forall k | 0 < k < |q| ensures IsAncestor(s, q[k - 1], q[k]) { assert IsAncestor(s, p[i + k - 1], p[i + k]); }
    assert IsCycle(s, q);
  }

  /** Without a cycle nobody climbs further than there are tables. */
  lemma ClimbsShort(s: Schema, p: seq<string>)
    requires Climbs(s, p) && !Cyclic(s)
    ensures |p| <= |TableNames(s)| + 1
  {
    if |p| > |TableNames(s)| + 1 {
      var xs := p[..|p| - 1];
      forall x | x in xs ensures x in TableNames(s) {
        var i :| 0 <= i < |xs| && xs[i] == x;
        assert IsAncestor(s, p[i], p[i + 1]);
      }
      var i, j := Pigeonhole(xs, TableNames(s));
      LoopFound(s, p, i, j);
    }
  }

  /** Climbing stops growing once it is not cut off. */
  lemma {:induction false} ClimbStable(s: Schema, x: string, n: nat)
    requires Climbable(s, x, n) < n
    ensures Climbable(s, x, n + 1) == Climbable(s, x, n)
    decreases n
  {
    var t := FindTable(s.tables, x);
    if t.Some? {
      HighestBounds(s, t.value.ancestors, n);
      HighestBounds(s, t.value.ancestors, n + 1);
      forall a | a in t.value.ancestors ensures Climbable(s, a.table, n) == Climbable(s, a.table, n - 1) {
        ClimbStable(s, a.table, n - 1);
      }
    }
  }

  lemma LevelDrops(s: Schema, t: Table, a: Ancestor, n: nat)
    requires !Cyclic(s) && FindTable(s.tables, t.name) == Some(t) && a in t.ancestors && n == |TableNames(s)| + 1
    ensures Climbable(s, a.table, n + 1) < Climbable(s, t.name, n + 1)
  {
    var p := ClimbFound(s, a.table, n);
    ClimbsShort(s, p);
    ClimbStable(s, a.table, n);
    HighestBounds(s, t.ancestors, n + 1);
  }

  /** Without a cycle, how far one can climb is a level for every table above its ancestors'. */
  lemma AcyclicIsLayered(s: Schema) returns (level: map<string, nat>)
    requires !Cyclic(s) && forall i, j :: 0 <= i < j < |s.tables| ==> s.tables[i].name != s.tables[j].name
    ensures Layered(s, level) && Deepest(level, |TableNames(s)|)
  {
    var n := |TableNames(s)| + 1;
    level := map x | x in TableNames(s) + AncestorNames(s) :: Climbable(s, x, n + 1);
    forall t, a | t in s.tables && a in t.ancestors ensures Climbable(s, a.table, n + 1) < Climbable(s, t.name, n + 1) {
      FindsByName(s.tables, t);
      LevelDrops(s, t, a, n);
    }
    forall x | x in level ensures level[x] <= |TableNames(s)| {
      var p := ClimbFound(s, x, n + 1);
      ClimbsShort(s, p);
    }
  }

  /** Without a cycle the loop stops from every start, by the number of facts there could be and of tables. */
  lemma AcyclicSettles(s: Schema, base: State, me: string)
    requires SchemaWellFormed(s) && StateWellFormed(base) && !Cyclic(s)
    ensures StopsBy(s, base, me, |Possible(s, base)| + |TableNames(s)| + 1)
  {
    var level := AcyclicIsLayered(s);
    LayeredSettles(s, base, me, level, |TableNames(s)|);
  }

  // --- a cycle, and the starts from which the loop never ends ---

  function Filtered(filter: Predicate.Expr, note: Option<string>): Cell {
    Cell(Conditional, Some(filter), note, None, None)
  }

  function Length(note: Option<string>): nat {
    if note.Some? then |note.value| else 0
  }

  /** Denied, or filtered by that filter, whatever the note. */
  predicate DeniedOr(filter: Predicate.Expr, cell: Cell) {
    cell.verdict == Denied || cell == Filtered(filter, cell.note)
  }

  /** Nothing is issued, only reads are reached, and all that are have one filter. */
  predicate ReadsAlike(filter: Predicate.Expr, st: State) {
    st.reach == {} && forall k :: k in st.cells ==>
        DeniedOr(filter, st.cells[k]) && (Reached(st.cells, k) ==> k.command == Select)
  }

  /** Each table of the list is read. */
  predicate ReadsAll(p: seq<string>, st: State) {
    forall x :: x in p ==> Reached(st.cells, Spot(x, Select))
  }

  /** No trigger fires on a read. */
  ghost predicate NoSelectTriggers(s: Schema) {
    forall f :: f in Firings(s) ==> f.command != Select
  }

  lemma {:induction false} NoTriggerFires(fs: seq<Firing>, k: Spot, st: State)
    requires forall f :: f in fs ==> !Fires(f, st)
    ensures TriggerDoors(fs, k, st) == []
  {
    if fs != [] {
      assert fs[0] in fs && forall f :: f in fs[1..] ==> f in fs;
      NoTriggerFires(fs[1..], k, st);
    }
  }

  lemma {:induction false} NoRuleRuns(rs: seq<Rule>, k: Spot)
    ensures RuleDoors(rs, k, {}) == []
  {
    if rs != [] { NoRuleRuns(rs[1..], k); }
  }

  lemma {:induction false} NoKeyActs(fks: seq<ForeignKey>, c: Command, cells: map<Spot, Cell>)
    requires forall k :: Reached(cells, k) ==> k.command == Select
    ensures FkDoors(fks, c, cells) == []
  {
    if fks != [] { NoKeyActs(fks[1..], c, cells); }
  }

  lemma {:induction false} NoParentOpens(ancestors: seq<Ancestor>, c: Command, cells: map<Spot, Cell>)
    requires forall k :: Reached(cells, k) ==> k.command != c
    ensures ParentDoors(ancestors, c, cells) == []
  {
    if ancestors != [] { NoParentOpens(ancestors[1..], c, cells); }
  }

  lemma NothingFires(s: Schema, filter: Predicate.Expr, st: State)
    requires NoSelectTriggers(s) && ReadsAlike(filter, st)
    ensures forall f :: f in Firings(s) ==> !Fires(f, st)
  {}

  lemma NothingIssued(s: Schema, filter: Predicate.Expr, st: State)
    requires NoSelectTriggers(s) && ReadsAlike(filter, st)
    ensures Issued(s, st) == {}
  {
    NothingFires(s, filter, st);
    assert FkIssued(s, st.cells) == {};
  }

  /** Then all doors are parents'. */
  lemma OnlyParents(s: Schema, filter: Predicate.Expr, st: State, k: Spot)
    requires NoSelectTriggers(s) && ReadsAlike(filter, st)
    ensures var t := FindTable(s.tables, k.rel);
            DoorsAt(s, st, k) == if t.Some? then ParentDoors(t.value.ancestors, k.command, st.cells) else []
  {
    NothingFires(s, filter, st);
    NoTriggerFires(Firings(s), k, st);
    NoRuleRuns(s.rules, k);
    var t := FindTable(s.tables, k.rel);
    if t.Some? { NoKeyActs(t.value.fks, k.command, st.cells); }
  }

  ghost predicate DoorsAlike(filter: Predicate.Expr, ds: seq<Door>) {
    forall d :: d in ds ==> Given(d.cell.note) && d.cell == Filtered(filter, d.cell.note)
  }

  /** A door merged into a cell of its filter leaves that filter and a note longer than the door's. */
  lemma NotesJoin(filter: Predicate.Expr, a: Option<string>, b: string, me: string)
    requires b != ""
    ensures var m := Merge.Merge(Filtered(filter, a), Filtered(filter, Some(b)), me);
            m == Filtered(filter, m.note) && Length(m.note) >= Length(a) && Length(m.note) > |b|
  {
    assert Merge.Merge(Filtered(filter, a), Filtered(filter, Some(b)), me) == Filtered(filter, JoinNotes(a, Some(b)));
  }

  lemma {:induction false} AllNotesJoin(filter: Predicate.Expr, note: Option<string>, ds: seq<Door>, me: string)
    requires DoorsAlike(filter, ds)
    ensures var m := MergeAll(Filtered(filter, note), ds, me);
            && m == Filtered(filter, m.note) && Length(m.note) >= Length(note)
            && forall d :: d in ds ==> Length(m.note) > Length(d.cell.note)
    decreases |ds|
  {
    if ds != [] {
      assert ds[0] in ds;
      NotesJoin(filter, note, ds[0].cell.note.value, me);
      var next := Merge.Merge(Filtered(filter, note), ds[0].cell, me);
      AllNotesJoin(filter, next.note, ds[1..], me);
      assert forall d :: d in ds <==> d == ds[0] || d in ds[1..];
    }
  }

  lemma MergeAlike(filter: Predicate.Expr, cell: Cell, ds: seq<Door>, me: string)
    requires DeniedOr(filter, cell) && DoorsAlike(filter, ds) && ds != []
    ensures DeniedOr(filter, MergeAll(cell, ds, me))
    ensures cell.verdict != Denied ==>
              var m := MergeAll(cell, ds, me);
              m.verdict != Denied && forall d :: d in ds ==> Length(m.note) > Length(d.cell.note)
  {
    if cell.verdict == Denied {
      assert ds[0] in ds && Merge.Merge(cell, ds[0].cell, me) == ds[0].cell;
      assert forall d :: d in ds[1..] ==> d in ds;
      AllNotesJoin(filter, ds[0].cell.note, ds[1..], me);
    } else {
      AllNotesJoin(filter, cell.note, ds, me);
    }
  }

  /** Doors of one filter leave a cell denied or with that filter, and a filtered one with a note longer than theirs. */
  lemma FoldAlike(filter: Predicate.Expr, cell: Cell, ds: seq<Door>, me: string)
    requires DeniedOr(filter, cell) && DoorsAlike(filter, ds)
    ensures var m := Fold(cell, ds, me);
            && DeniedOr(filter, m) && (ds == [] ==> m == cell)
            && (cell.verdict != Denied ==> m.verdict != Denied && forall d :: d in ds ==>
                Length(m.note) > Length(d.cell.note))
  {
    SortKeepsDoors(ds);
    if ds != [] {
      assert ds[0] in SortDoors(ds);
      MergeAlike(filter, cell, SortDoors(ds), me);
    }
  }

  function ParentDoor(st: State, a: Ancestor): Door
    requires Spot(a.table, Select) in st.cells
  {
    Door(Via("through parent " + a.table, st.cells[Spot(a.table, Select)], None, None),
        AccessPath(PathKind.ParentDoor, Some(a.table), []))
  }

  lemma ParentDoorsAlike(filter: Predicate.Expr, st: State, ancestors: seq<Ancestor>, c: Command)
    requires ReadsAlike(filter, st)
    ensures DoorsAlike(filter, ParentDoors(ancestors, c, st.cells))
    ensures c != Select ==> ParentDoors(ancestors, c, st.cells) == []
    ensures c == Select ==> forall a :: a in ancestors && Reached(st.cells, Spot(a.table, Select)) ==>
              ParentDoor(st, a) in ParentDoors(ancestors, c, st.cells)
  {
    var ds := ParentDoors(ancestors, c, st.cells);
    forall d | d in ds ensures Given(d.cell.note) && d.cell == Filtered(filter, d.cell.note) {
      ParentDoorsMembers(ancestors, c, st.cells, d);
    }
    if c != Select {
      NoParentOpens(ancestors, c, st.cells);
    } else {
      forall a | a in ancestors && Reached(st.cells, Spot(a.table, Select)) ensures ParentDoor(st, a) in ds {
        ParentDoorsMembers(ancestors, c, st.cells, ParentDoor(st, a));
      }
    }
  }

  /**
    The refolded cell has the filter or stays denied, and where it is read its note outgrows what its
    ancestors' were.
   */
  ghost predicate Outgrows(s: Schema, filter: Predicate.Expr, start: Cell, st: State, k: Spot, cell: Cell) {
    && DeniedOr(filter, cell) && (k.command != Select ==> cell == start)
    && (k.command == Select && start.verdict != Denied ==>
          && cell.verdict != Denied
          && forall y :: IsAncestor(s, k.rel, y) && Reached(st.cells, Spot(y, Select)) ==>
               Length(cell.note) > Length(st.cells[Spot(y, Select)].note))
  }

  lemma CellOutgrows(s: Schema, filter: Predicate.Expr, me: string, start: Cell, st: State, k: Spot)
    requires NoSelectTriggers(s) && ReadsAlike(filter, st) && DeniedOr(filter, start)
    ensures Outgrows(s, filter, start, st, k, Fold(start, DoorsAt(s, st, k), me))
  {
    var ds, t := DoorsAt(s, st, k), FindTable(s.tables, k.rel);
    OnlyParents(s, filter, st, k);
    if t.Some? { ParentDoorsAlike(filter, st, t.value.ancestors, k.command); }
    FoldAlike(filter, start, ds, me);
    if k.command == Select && start.verdict != Denied {
      forall y | IsAncestor(s, k.rel, y) && Reached(st.cells, Spot(y, Select))
        ensures Length(Fold(start, ds, me).note) > Length(st.cells[Spot(y, Select)].note)
      {
        var a :| a in t.value.ancestors && a.table == y;
        assert ParentDoor(st, a) in ds;
      }
    }
  }

  /** Every start whose reads are alike and that reads the cycle. */
  ghost predicate StartsOn(p: seq<string>, filter: Predicate.Expr, base: State) {
    ReadsAlike(filter, base) && ReadsAll(p, base)
  }

  /** A round leaves the shape, and each note outgrows what its ancestors' were. */
  lemma RoundOutgrows(s: Schema, p: seq<string>, filter: Predicate.Expr, base: State, me: string, st: State,
                      next: State)
    requires NoSelectTriggers(s) && StartsOn(p, filter, base) && StartsOn(p, filter, st)
    requires next == Step(s, base, me, st)
    ensures StartsOn(p, filter, next)
    ensures forall k :: k in base.cells ==> Outgrows(s, filter, base.cells[k], st, k, next.cells[k])
  {
    NothingIssued(s, filter, st);
    forall k | k in base.cells ensures Outgrows(s, filter, base.cells[k], st, k, next.cells[k]) {
      assert next.cells[k] == Fold(base.cells[k], DoorsAt(s, st, k), me);
      CellOutgrows(s, filter, me, base.cells[k], st, k);
    }
  }

  function NoteLength(st: State, x: string): nat {
    if Spot(x, Select) in st.cells then Length(st.cells[Spot(x, Select)].note) else 0
  }

  /** The table with the longest note. */
  lemma {:induction false} LongestNote(p: seq<string>, st: State) returns (j: nat)
    requires |p| > 0
    ensures j < |p| && forall i :: 0 <= i < |p| ==> NoteLength(st, p[i]) <= NoteLength(st, p[j])
  {
    j := 0;
    for n := 1 to |p|
      invariant j < |p| && forall i :: 0 <= i < n ==> NoteLength(st, p[i]) <= NoteLength(st, p[j])
    {
      if NoteLength(st, p[n]) > NoteLength(st, p[j]) { j := n; }
    }
  }

  /** On a cycle that is read the longest note always grows. */
  lemma CycleMoves(s: Schema, p: seq<string>, filter: Predicate.Expr, base: State, me: string, st: State, next: State)
    requires NoSelectTriggers(s) && IsCycle(s, p) && StartsOn(p, filter, base) && StartsOn(p, filter, st)
    requires next == Step(s, base, me, st)
    ensures next != st && StartsOn(p, filter, next)
  {
    RoundOutgrows(s, p, filter, base, me, st, next);
    var j := LongestNote(p, st);
    var i := if j == 0 then |p| - 1 else j;
    var k := Spot(p[i - 1], Select);
    assert p[i] == p[j] && IsAncestor(s, p[i - 1], p[i]) && p[i - 1] in p && p[j] in p;
    assert Outgrows(s, filter, base.cells[k], st, k, next.cells[k]);
    assert NoteLength(st, p[i - 1]) <= NoteLength(st, p[j]) < NoteLength(next, p[i - 1]);
  }

  /** So the loop never ends from there: every round changes some note. */
  lemma CycleNeverSettles(s: Schema, p: seq<string>, filter: Predicate.Expr, base: State, me: string)
    requires NoSelectTriggers(s) && IsCycle(s, p) && StartsOn(p, filter, base)
    ensures !Settles(s, base, me)
  {
    ghost var inv := (st: State) => StartsOn(p, filter, st);
    forall st {:trigger Step(s, base, me, st)} | inv(st) ensures inv(Step(s, base, me, st)) {
      CycleMoves(s, p, filter, base, me, st, Step(s, base, me, st));
    }
    forall n: nat ensures !StopsBy(s, base, me, n) {
      RoundsKeep(s, base, me, n, inv);
      CycleMoves(s, p, filter, base, me, Rounds(s, base, me, n), Step(s, base, me, Rounds(s, base, me, n)));
      assert Moves(s, base, me, n);
    }
  }

  // --- starts with a cell for every table and command, as the loop always has ---

  function Spots(s: Schema): set<Spot> {
    SpotsOn(TableNames(s))
  }

  /** A cell for every table and command, well formed. */
  predicate IsStart(s: Schema, base: State) {
    base.cells.Keys == Spots(s) && StateWellFormed(base)
  }

  /** The tables of the list are read under one filter; everything else is denied. */
  function StartOver(s: Schema, p: seq<string>, filter: Predicate.Expr): State {
    State(map k | k in Spots(s) :: if k.rel in p && k.command == Select then Filtered(filter, None)
        else Plain(Denied, None), {})
  }

  lemma StartsOver(s: Schema, p: seq<string>, filter: Predicate.Expr)
    requires IsCycle(s, p)
    ensures IsStart(s, StartOver(s, p, filter)) && StartsOn(p, filter, StartOver(s, p, filter))
  {
    forall x | x in p ensures x in TableNames(s) {
      var i :| 0 <= i < |p| && p[i] == x;
      var n := if i == |p| - 1 then 0 else i;
      assert IsAncestor(s, p[n], p[n + 1]) && p[n] == x;
    }
  }

  /**
    The loop ends from every start if and only if no table is its own ancestor. Growth of verdicts
    and writes alone is not what makes it end: on a cycle the notes grow for ever.
   */
  lemma SettlesIffAcyclic(s: Schema, filter: Predicate.Expr)
    requires SchemaWellFormed(s) && NoSelectTriggers(s)
    ensures (forall base, me :: IsStart(s, base) ==> Settles(s, base, me)) <==> !Cyclic(s)
  {
    if p :| IsCycle(s, p) {
      StartsOver(s, p, filter);
      CycleNeverSettles(s, p, filter, StartOver(s, p, filter), "");
    } else {
      forall base, me | IsStart(s, base) ensures Settles(s, base, me) { AcyclicSettles(s, base, me); }
    }
  }
}
