/**
  How the doors of one cell become one verdict, why neither their order nor their number matters,
  and which rows the result stands for.
 */
module Merge {
  import opened Prelude
  import opened Predicate
  import opened Dependence
  import opened Cells

  /** `me`'s own session is the caller's session. */
  function Norm(who: Option<string>, me: string): Option<string> {
    if who == Some(me) then None else who
  }

  predicate SameRows(cell: Cell, door: Cell, me: string)
    requires cell.filter.Some? && door.filter.Some?
  {
    && door.filter == cell.filter
    && (DependenceOf(door.filter.value).session ==> Norm(door.session, me) == Norm(cell.session, me))
    && (DependenceOf(door.filter.value).relations ==> Norm(door.privileges, me) == Norm(cell.privileges, me))
  }

  function JoinNotes(a: Option<string>, b: Option<string>): Option<string> {
    if Given(a) && Given(b) then Some(a.value + "; also " + b.value)
    else if Given(a) then a
    else if Given(b) then Some("also " + b.value)
    else None
  }

  function TwoFilters(cell: Cell, door: Cell): string {
    var first :=
      if cell.filter.Some? && !Given(cell.note) then "directly where " + Show(cell.filter.value)
      else if Given(cell.note) then cell.note.value else "";
    var second := if Given(door.note) then door.note.value
                  else if door.filter.Some? then Show(door.filter.value) else "";
    "two filtered paths - " + first + "; and " + second + " - whose union cannot be bounded"
  }

  /** One step of the fold. */
  function Merge(cell: Cell, door: Cell, me: string): Cell {
    if door.verdict == Denied then cell
    else if Rank(door.verdict) > Rank(cell.verdict) then door
    else if cell.verdict == Conditional && door.verdict == Conditional then
      if cell.filter.Some? && door.filter.Some? && SameRows(cell, door, me) then
        cell.(note := JoinNotes(cell.note, door.note))
      else Plain(Undecided, Some(TwoFilters(cell, door)))
    else cell
  }

  // --- the order in which doors are folded ---

  predicate LexLess(a: string, b: string) {
    if b == [] then false
    else if a == [] then true
    else a[0] < b[0] || (a[0] == b[0] && LexLess(a[1..], b[1..]))
  }

  function Text(s: Option<string>): string {
    if s.Some? then s.value else ""
  }

  /** Strictly before: wider verdict, then note, then what the path runs through. */
  predicate Before(a: Door, b: Door) {
    || Rank(a.cell.verdict) > Rank(b.cell.verdict)
    || (Rank(a.cell.verdict) == Rank(b.cell.verdict)
        && (|| LexLess(Text(a.cell.note), Text(b.cell.note))
            || (Text(a.cell.note) == Text(b.cell.note) && LexLess(Text(a.path.via), Text(b.path.via)))))
  }

  /** Insert after every door that is not strictly later, so the sort is stable. */
  function InsertDoor(d: Door, ds: seq<Door>): (r: seq<Door>)
    ensures multiset(r) == multiset(ds) + multiset{d}
  {
    if ds == [] then [d]
    else if Before(ds[0], d) then
      assert ds == [ds[0]] + ds[1..];
      [ds[0]] + InsertDoor(d, ds[1..])
    else [d] + ds
  }

  function SortDoors(ds: seq<Door>): (r: seq<Door>)
    ensures multiset(r) == multiset(ds)
  {
    if ds == [] then []
    else
      assert ds == [ds[0]] + ds[1..];
      InsertDoor(ds[0], SortDoors(ds[1..]))
  }

  function MergeAll(cell: Cell, ds: seq<Door>, me: string): Cell
    decreases |ds|
  {
    if ds == [] then cell else MergeAll(Merge(cell, ds[0].cell, me), ds[1..], me)
  }

  /** Every door folded into the cell, widest first. */
  function Fold(cell: Cell, ds: seq<Door>, me: string): Cell {
    MergeAll(cell, SortDoors(ds), me)
  }

  // --- the semilattice behind the fold ---

  function Resolve(who: Option<string>, me: string): string {
    if who.None? then me else who.value
  }

  /** A cell up to the sameness of filtered row sets: the filter and whatever it depends on. */
  datatype Grade =
    | Nothing
    | Filtered(filter: Expr, user: Option<string>, reader: Option<string>)
    | Anything
    | Everything

  function GradeOf(c: Cell, me: string): Grade
    requires WellFormed(c)
  {
    match c.verdict
    case Denied => Nothing
    case Undecided => Anything
    case Open => Everything
    case Conditional =>
      var d := DependenceOf(c.filter.value);
      Filtered(c.filter.value,
               if d.session then Some(Resolve(c.session, me)) else None,
               if d.relations then Some(Resolve(c.privileges, me)) else None)
  }

  function Height(g: Grade): nat {
    match g
    case Nothing => 0
    case Filtered(_, _, _) => 1
    case Anything => 2
    case Everything => 3
  }

  function Join(a: Grade, b: Grade): Grade {
    if Height(a) > Height(b) then a
    else if Height(b) > Height(a) then b
    else if a.Filtered? && a != b then Anything
    else a
  }

  ghost predicate Leq(a: Grade, b: Grade) {
    a == b || Height(a) < Height(b)
  }

  lemma JoinLaws(a: Grade, b: Grade, c: Grade)
    ensures Join(a, b) == Join(b, a)
    ensures Join(Join(a, b), c) == Join(a, Join(b, c))
    ensures Join(a, a) == a
    ensures Leq(a, b) ==> Leq(Join(a, c), Join(b, c))
    ensures Leq(a, b) <==> Join(a, b) == b
  {}

  /** Merging two cells joins their grades: the concrete merge is this semilattice's join. */
  lemma MergeJoins(cell: Cell, door: Cell, me: string)
    requires WellFormed(cell) && WellFormed(door)
    ensures WellFormed(Merge(cell, door, me))
    ensures GradeOf(Merge(cell, door, me), me) == Join(GradeOf(cell, me), GradeOf(door, me))
  {
  }

  predicate DoorsWellFormed(ds: seq<Door>) {
    forall i :: 0 <= i < |ds| ==> WellFormed(ds[i].cell)
  }

  /** `u` bounds the cell and every door. */
  ghost predicate Bounds(u: Grade, cell: Cell, ds: seq<Door>, me: string)
    requires WellFormed(cell) && DoorsWellFormed(ds)
  {
    Leq(GradeOf(cell, me), u) && forall d :: d in ds ==> Leq(GradeOf(d.cell, me), u)
  }

  lemma {:induction false} MergeAllIsLub(cell: Cell, ds: seq<Door>, me: string, u: Grade)
    requires WellFormed(cell) && DoorsWellFormed(ds)
    ensures WellFormed(MergeAll(cell, ds, me))
    ensures Bounds(GradeOf(MergeAll(cell, ds, me), me), cell, ds, me)
    ensures Bounds(u, cell, ds, me) ==> Leq(GradeOf(MergeAll(cell, ds, me), me), u)
    decreases |ds|
  {
    if ds != [] {
      var next := Merge(cell, ds[0].cell, me);
      MergeJoins(cell, ds[0].cell, me);
      MergeAllIsLub(next, ds[1..], me, u);
      assert forall d :: d in ds <==> d == ds[0] || d in ds[1..];
    }
  }

  lemma SortKeepsDoors(ds: seq<Door>)
    ensures forall d :: d in SortDoors(ds) <==> d in ds
    ensures DoorsWellFormed(ds) ==> DoorsWellFormed(SortDoors(ds))
  {
    forall d ensures d in SortDoors(ds) <==> d in ds {
      assert d in multiset(SortDoors(ds)) <==> d in multiset(ds);
    }
    if DoorsWellFormed(ds) {
      forall i | 0 <= i < |SortDoors(ds)| ensures WellFormed(SortDoors(ds)[i].cell) {
        assert SortDoors(ds)[i] in ds;
      }
    }
  }

  /** The folded cell's grade is the least grade above the cell and all of its doors. */
  lemma FoldIsLub(cell: Cell, ds: seq<Door>, me: string, u: Grade)
    requires WellFormed(cell) && DoorsWellFormed(ds)
    ensures WellFormed(Fold(cell, ds, me))
    ensures Bounds(GradeOf(Fold(cell, ds, me), me), cell, ds, me)
    ensures Bounds(u, cell, ds, me) ==> Leq(GradeOf(Fold(cell, ds, me), me), u)
  {
    SortKeepsDoors(ds);
    MergeAllIsLub(cell, SortDoors(ds), me, u);
  }

  /** Neither the order nor the repetition of doors changes what the fold concludes. */
  lemma FoldIgnoresOrder(cell: Cell, ds: seq<Door>, es: seq<Door>, me: string)
    requires WellFormed(cell) && DoorsWellFormed(ds) && DoorsWellFormed(es)
    requires forall d :: d in ds <==> d in es
    ensures WellFormed(Fold(cell, ds, me)) && WellFormed(Fold(cell, es, me))
    ensures GradeOf(Fold(cell, ds, me), me) == GradeOf(Fold(cell, es, me), me)
  {
    FoldIsLub(cell, es, me, Nothing);
    FoldIsLub(cell, ds, me, GradeOf(Fold(cell, es, me), me));
    FoldIsLub(cell, es, me, GradeOf(Fold(cell, ds, me), me));
  }

  /** A folded cell is denied exactly when the cell and every door is. */
  lemma FoldDenied(cell: Cell, ds: seq<Door>, me: string)
    requires WellFormed(cell) && DoorsWellFormed(ds)
    ensures Fold(cell, ds, me).verdict == Denied
            <==> cell.verdict == Denied && forall d :: d in ds ==> d.cell.verdict == Denied
  {
    FoldIsLub(cell, ds, me, Nothing);
    var g := GradeOf(Fold(cell, ds, me), me);
    if Fold(cell, ds, me).verdict == Denied {
      assert g == Nothing;
      forall d | d in ds ensures d.cell.verdict == Denied {
        assert Leq(GradeOf(d.cell, me), g);
      }
    } else if cell.verdict == Denied && forall d :: d in ds ==> d.cell.verdict == Denied {
      assert Bounds(Nothing, cell, ds, me);
    }
  }

  // --- what a cell says about rows ---

  type RowSet = World -> bool

  /** The rows a verdict stands for: an undecided cell commits to no particular set. */
  ghost predicate Describes(c: Cell, me: string, rows: RowSet)
    requires WellFormed(c)
  {
    forall w: World :: Lawful(w) ==>
      match c.verdict
      case Open => rows(w)
      case Denied => !rows(w)
      case Conditional => rows(w) <==> Passes(c.filter.value, w, Resolve(c.session, me), Resolve(c.privileges, me))
      case Undecided => true
  }

  predicate FilterJudgeable(c: Cell) {
    c.verdict == Conditional && c.filter.Some? ==> Judgeable(c.filter.value)
  }

  ghost function Union(a: RowSet, b: RowSet): RowSet {
    w => a(w) || b(w)
  }

  /** If two cells describe two row sets, their merge describes the union. */
  lemma MergeDescribesUnion(cell: Cell, door: Cell, me: string, rows: RowSet, more: RowSet)
    requires WellFormed(cell) && WellFormed(door) && FilterJudgeable(cell) && FilterJudgeable(door)
    requires Describes(cell, me, rows) && Describes(door, me, more)
    ensures WellFormed(Merge(cell, door, me)) && FilterJudgeable(Merge(cell, door, me))
    ensures Describes(Merge(cell, door, me), me, Union(rows, more))
  {
    MergeJoins(cell, door, me);
    var m := Merge(cell, door, me);
    if m.verdict == Conditional && cell.verdict == Conditional && door.verdict == Conditional {
      var p := cell.filter.value;
      forall w: World | Lawful(w)
        ensures Union(rows, more)(w) <==> Passes(p, w, Resolve(cell.session, me), Resolve(cell.privileges, me))
      {
        WalkSound(p, w, Resolve(cell.session, me), Resolve(cell.privileges, me),
                  Resolve(door.session, me), Resolve(door.privileges, me));
      }
    }
  }

  ghost function UnionAll(rows: RowSet, ds: seq<Door>, sets: Door -> RowSet): RowSet
    decreases |ds|
  {
    if ds == [] then rows else UnionAll(Union(rows, sets(ds[0])), ds[1..], sets)
  }

  lemma {:induction false} UnionAllMembers(rows: RowSet, ds: seq<Door>, sets: Door -> RowSet, w: World)
    ensures UnionAll(rows, ds, sets)(w) <==> rows(w) || exists d :: d in ds && sets(d)(w)
    decreases |ds|
  {
    if ds != [] {
      UnionAllMembers(Union(rows, sets(ds[0])), ds[1..], sets, w);
      assert forall d :: d in ds <==> d == ds[0] || d in ds[1..];
    }
  }

  lemma {:induction false} MergeAllDescribes(cell: Cell, ds: seq<Door>, me: string, rows: RowSet, sets: Door -> RowSet)
    requires WellFormed(cell) && DoorsWellFormed(ds) && FilterJudgeable(cell) && Describes(cell, me, rows)
    requires forall d :: d in ds ==> FilterJudgeable(d.cell)
    requires forall i :: 0 <= i < |ds| ==> Describes(ds[i].cell, me, sets(ds[i]))
    ensures WellFormed(MergeAll(cell, ds, me))
    ensures Describes(MergeAll(cell, ds, me), me, UnionAll(rows, ds, sets)) && FilterJudgeable(MergeAll(cell, ds, me))
    decreases |ds|
  {
    if ds != [] {
      MergeDescribesUnion(cell, ds[0].cell, me, rows, sets(ds[0]));
      MergeAllDescribes(Merge(cell, ds[0].cell, me), ds[1..], me, Union(rows, sets(ds[0])), sets);
    }
  }

  /**
    Whenever the fold commits to a verdict, that verdict is exactly the union of the rows of
    the cell and of every door, in whatever order the doors were found.
   */
  lemma FoldIsUnion(cell: Cell, ds: seq<Door>, me: string, rows: RowSet, sets: Door -> RowSet)
    requires WellFormed(cell) && DoorsWellFormed(ds) && FilterJudgeable(cell) && Describes(cell, me, rows)
    requires forall d :: d in ds ==> FilterJudgeable(d.cell)
    requires forall i :: 0 <= i < |ds| ==> Describes(ds[i].cell, me, sets(ds[i]))
    ensures WellFormed(Fold(cell, ds, me))
    ensures Describes(Fold(cell, ds, me), me, w => rows(w) || exists d :: d in ds && sets(d)(w))
    ensures FilterJudgeable(Fold(cell, ds, me))
  {
    var sorted := SortDoors(ds);
    SortKeepsDoors(ds);
    forall i | 0 <= i < |sorted| ensures Describes(sorted[i].cell, me, sets(sorted[i])) {
      assert sorted[i] in ds;
    }
    MergeAllDescribes(cell, sorted, me, rows, sets);
    forall w: World
      ensures UnionAll(rows, sorted, sets)(w) <==> rows(w) || exists d :: d in ds && sets(d)(w)
    {
      UnionAllMembers(rows, sorted, sets, w);
    }
  }

  /** The value a committed verdict takes at a row. */
  ghost predicate Shows(c: Cell, me: string, w: World)
    requires WellFormed(c)
  {
    match c.verdict
    case Open => true
    case Conditional => Passes(c.filter.value, w, Resolve(c.session, me), Resolve(c.privileges, me))
    case _ => false
  }

  /** Some door shows the row, or is undecided about every row. */
  ghost predicate MayShow(ds: seq<Door>, me: string, w: World)
    requires DoorsWellFormed(ds)
  {
    exists d :: d in ds && (d.cell.verdict == Undecided || Shows(d.cell, me, w))
  }

  /** The doors stand for these rows: a row that a door shows is one of them, and some door may show each. */
  ghost predicate DoorsMean(ds: seq<Door>, me: string, rows: RowSet)
    requires DoorsWellFormed(ds)
  {
    forall w: World :: Lawful(w) ==>
      && (forall d :: d in ds && Shows(d.cell, me, w) ==> rows(w))
      && (rows(w) ==> MayShow(ds, me, w))
  }

  /** Doors that can be folded, and what they stand for. */
  ghost predicate StandFor(ds: seq<Door>, me: string, rows: RowSet) {
    DoorsWellFormed(ds) && (forall d :: d in ds ==> FilterJudgeable(d.cell)) && DoorsMean(ds, me, rows)
  }

  lemma DoorsMeanBoth(a: seq<Door>, b: seq<Door>, me: string, rows: RowSet, more: RowSet)
    requires StandFor(a, me, rows) && StandFor(b, me, more)
    ensures StandFor(a + b, me, Union(rows, more))
  {
    forall w: World | Lawful(w)
      ensures forall d :: d in a + b && Shows(d.cell, me, w) ==> Union(rows, more)(w)
      ensures Union(rows, more)(w) ==> MayShow(a + b, me, w)
    {
      if rows(w) {
        var d :| d in a && (d.cell.verdict == Undecided || Shows(d.cell, me, w));
        assert d in a + b;
      } else if more(w) {
        var d :| d in b && (d.cell.verdict == Undecided || Shows(d.cell, me, w));
        assert d in a + b;
      }
    }
  }

  /** Doors gathered from several sources stand for what the sources' doors stand for. */
  lemma DoorsMeanUnion<S(!new)>(ds: seq<Door>, chosen: S -> bool, parts: S -> seq<Door>, rows: S -> RowSet, me: string)
    requires forall d :: d in ds <==> exists s :: chosen(s) && d in parts(s)
    requires forall s :: chosen(s) ==> StandFor(parts(s), me, rows(s))
    ensures StandFor(ds, me, w => exists s :: chosen(s) && rows(s)(w))
  {
    forall d | d in ds ensures WellFormed(d.cell) && FilterJudgeable(d.cell) {
      var s :| chosen(s) && d in parts(s);
      var i :| 0 <= i < |parts(s)| && parts(s)[i] == d;
    }
    forall w: World | Lawful(w)
      ensures forall d :: d in ds && Shows(d.cell, me, w) ==> exists s :: chosen(s) && rows(s)(w)
      ensures (exists s :: chosen(s) && rows(s)(w)) ==> MayShow(ds, me, w)
    {
      forall d | d in ds && Shows(d.cell, me, w) ensures exists s :: chosen(s) && rows(s)(w) {
        var s :| chosen(s) && d in parts(s);
        assert rows(s)(w);
      }
      if s :| chosen(s) && rows(s)(w) {
        var d :| d in parts(s) && (d.cell.verdict == Undecided || Shows(d.cell, me, w));
        assert d in ds;
      }
    }
  }

  /** Doors that stand for some rows stand for any set with the same lawful rows. */
  lemma DoorsMeanExtensional(ds: seq<Door>, me: string, a: RowSet, b: RowSet)
    requires StandFor(ds, me, a) && forall w: World :: Lawful(w) ==> (a(w) <==> b(w))
    ensures StandFor(ds, me, b)
  {}

  /** Whether a cell stands for a set depends on nothing but the set's lawful rows. */
  lemma DescribesExtensional(c: Cell, me: string, a: RowSet, b: RowSet)
    requires WellFormed(c) && Describes(c, me, a)
    requires c.verdict != Undecided ==> forall w: World :: Lawful(w) ==> (a(w) <==> b(w))
    ensures Describes(c, me, b)
  {}

  /** Folding doors that stand for some rows into a cell that stands for others gives one that stands for both. */
  lemma FoldMeans(cell: Cell, ds: seq<Door>, me: string, own: RowSet, more: RowSet)
    requires WellFormed(cell) && FilterJudgeable(cell) && Describes(cell, me, own) && StandFor(ds, me, more)
    ensures WellFormed(Fold(cell, ds, me)) && FilterJudgeable(Fold(cell, ds, me))
    ensures Describes(Fold(cell, ds, me), me, Union(own, more))
  {
    var sets := (d: Door) => (w: World) =>
      if !WellFormed(d.cell) || d.cell.verdict == Undecided then more(w) else Shows(d.cell, me, w);
    FoldIsUnion(cell, ds, me, own, sets);
    forall w: World | Lawful(w)
      ensures (own(w) || exists d :: d in ds && sets(d)(w)) <==> Union(own, more)(w)
    {
      if more(w) {
        var d :| d in ds && (d.cell.verdict == Undecided || Shows(d.cell, me, w));
        assert sets(d)(w);
      }
    }
    DescribesExtensional(Fold(cell, ds, me), me, w => own(w) || exists d :: d in ds && sets(d)(w), Union(own, more));
  }
}
