/** Where the fixed-point loop ends is the least state its own rules allow. */
module ReachFixpoint {
  import opened Prelude
  import opened Cells
  import opened Merge
  import opened Reach

  /** `a` claims no more than `b`: every cell's grade is below, every issued write is included. */
  ghost predicate Below(a: State, b: State, me: string) {
    && a.cells.Keys == b.cells.Keys
    && StateWellFormed(a) && StateWellFormed(b)
    && (forall k :: k in a.cells ==> Leq(GradeOf(a.cells[k], me), GradeOf(b.cells[k], me)))
    && a.reach <= b.reach
  }

  lemma DoorsAreWellFormed(s: Schema, st: State, k: Spot)
    requires SchemaWellFormed(s) && StateWellFormed(st)
    ensures DoorsWellFormed(DoorsAt(s, st, k))
    ensures forall d :: d in DoorsAt(s, st, k) ==> d.cell.verdict != Denied
  {
    forall d | d in DoorsAt(s, st, k) ensures WellFormed(d.cell) && d.cell.verdict != Denied {
      var t := FindTable(s.tables, k.rel);
      if t.Some? {
        ParentDoorsMembers(t.value.ancestors, k.command, st.cells, d);
        FkDoorsMembers(t.value.fks, k.command, st.cells, d);
      }
      TriggerDoorsMembers(Firings(s), k, st, d);
      RuleDoorsMembers(s.rules, k, st.reach, d);
    }
  }

  lemma StepWellFormed(s: Schema, base: State, me: string, st: State)
    requires SchemaWellFormed(s) && StateWellFormed(base) && StateWellFormed(st)
    ensures StateWellFormed(Step(s, base, me, st))
    ensures Step(s, base, me, st).cells.Keys == base.cells.Keys
  {
    forall k | k in base.cells ensures WellFormed(Fold(base.cells[k], DoorsAt(s, st, k), me)) {
      DoorsAreWellFormed(s, st, k);
      FoldIsLub(base.cells[k], DoorsAt(s, st, k), me, Nothing);
    }
  }

  lemma ParentDoorMonotone(s: Schema, a: State, b: State, me: string, k: Spot, t: Table, d: Door) returns (e: Door)
    requires Below(a, b, me) && d in ParentDoors(t.ancestors, k.command, a.cells)
    ensures e in ParentDoors(t.ancestors, k.command, b.cells)
    ensures WellFormed(d.cell) && WellFormed(e.cell) && Leq(GradeOf(d.cell, me), GradeOf(e.cell, me))
  {
    ParentDoorsMembers(t.ancestors, k.command, a.cells, d);
    var p :| p in t.ancestors && Reach.Passes(p, k.command) && Reached(a.cells, Spot(p.table, k.command))
             && d == Door(Via("through parent " + p.table, a.cells[Spot(p.table, k.command)], None, None),
                          AccessPath(ParentDoor, Some(p.table), []));
    var at := Spot(p.table, k.command);
    e := Door(Via("through parent " + p.table, b.cells[at], None, None), AccessPath(ParentDoor, Some(p.table), []));
    ParentDoorsMembers(t.ancestors, k.command, b.cells, e);
    assert Leq(GradeOf(a.cells[at], me), GradeOf(b.cells[at], me));
  }

  lemma FkDoorMonotone(fks: seq<ForeignKey>, a: State, b: State, me: string, k: Spot, d: Door)
    requires Below(a, b, me) && d in FkDoors(fks, k.command, a.cells)
    ensures d in FkDoors(fks, k.command, b.cells)
  {
    forall x | Reached(a.cells, x) ensures Reached(b.cells, x) {}
    FkDoorsMembers(fks, k.command, a.cells, d);
    FkDoorsMembers(fks, k.command, b.cells, d);
  }

  lemma BodyDoorMonotone(s: Schema, a: State, b: State, me: string, k: Spot, d: Door)
    requires Below(a, b, me)
    ensures d in TriggerDoors(Firings(s), k, a) ==> d in TriggerDoors(Firings(s), k, b)
    ensures d in RuleDoors(s.rules, k, a.reach) ==> d in RuleDoors(s.rules, k, b.reach)
  {
    TriggerDoorsMembers(Firings(s), k, a, d);
    TriggerDoorsMembers(Firings(s), k, b, d);
    forall f | f in Firings(s) && Fires(f, a) ensures Fires(f, b) {}
    RuleDoorsMembers(s.rules, k, a.reach, d);
    RuleDoorsMembers(s.rules, k, b.reach, d);
  }

  /** A door found from less is matched by one at least as wide found from more. */
  lemma DoorMonotone(s: Schema, a: State, b: State, me: string, k: Spot, d: Door) returns (e: Door)
    requires SchemaWellFormed(s) && Below(a, b, me) && d in DoorsAt(s, a, k)
    ensures WellFormed(d.cell) && e in DoorsAt(s, b, k) && WellFormed(e.cell)
    ensures Leq(GradeOf(d.cell, me), GradeOf(e.cell, me))
  {
    DoorsAreWellFormed(s, a, k);
    var t := FindTable(s.tables, k.rel);
    e := d;
    if t.Some? && d in ParentDoors(t.value.ancestors, k.command, a.cells) {
      e := ParentDoorMonotone(s, a, b, me, k, t.value, d);
    } else if t.Some? && d in FkDoors(t.value.fks, k.command, a.cells) {
      FkDoorMonotone(t.value.fks, a, b, me, k, d);
    } else {
      BodyDoorMonotone(s, a, b, me, k, d);
    }
  }

  lemma FkIssuedFollowsReach(s: Schema, a: map<Spot, Cell>, b: map<Spot, Cell>)
    requires forall x :: Reached(a, x) ==> Reached(b, x)
    ensures FkIssued(s, a) <= FkIssued(s, b)
  {
    forall x | x in FkIssued(s, a) ensures x in FkIssued(s, b) {
      var t, fk, trigger, c :| t in s.tables && fk in t.fks && trigger in {Delete, Update} && c in {Delete, Update}
        && FkActs(fk, c, a, trigger) && x == Spot(t.name, c);
      assert FkActs(fk, c, b, trigger);
    }
  }

  lemma IssuedMonotone(s: Schema, a: State, b: State, me: string)
    requires Below(a, b, me)
    ensures Issued(s, a) <= Issued(s, b)
  {
    forall x | Reached(a.cells, x) ensures Reached(b.cells, x) {}
    forall f | f in Firings(s) && Fires(f, a) ensures Fires(f, b) {}
    FkIssuedFollowsReach(s, a.cells, b.cells);
    assert TriggerIssued(Firings(s), a) <= TriggerIssued(Firings(s), b);
    assert RuleIssued(s.rules, a.reach) <= RuleIssued(s.rules, b.reach);
  }

  lemma CellMonotone(s: Schema, base: State, me: string, a: State, b: State, k: Spot)
    requires SchemaWellFormed(s) && StateWellFormed(base) && Below(a, b, me) && k in base.cells
    requires WellFormed(Fold(base.cells[k], DoorsAt(s, a, k), me))
             && WellFormed(Fold(base.cells[k], DoorsAt(s, b, k), me))
    ensures Leq(GradeOf(Fold(base.cells[k], DoorsAt(s, a, k), me), me),
            GradeOf(Fold(base.cells[k], DoorsAt(s, b, k), me), me))
  {
    DoorsAreWellFormed(s, a, k);
    DoorsAreWellFormed(s, b, k);
    var u := GradeOf(Fold(base.cells[k], DoorsAt(s, b, k), me), me);
    FoldIsLub(base.cells[k], DoorsAt(s, b, k), me, u);
    forall d | d in DoorsAt(s, a, k) ensures Leq(GradeOf(d.cell, me), u) {
      var e := DoorMonotone(s, a, b, me, k, d);
    }
    FoldIsLub(base.cells[k], DoorsAt(s, a, k), me, u);
  }

  /** A round computed from more claims more. */
  lemma StepMonotone(s: Schema, base: State, me: string, a: State, b: State)
    requires SchemaWellFormed(s) && StateWellFormed(base) && Below(a, b, me)
    ensures Below(Step(s, base, me, a), Step(s, base, me, b), me)
  {
    StepWellFormed(s, base, me, a);
    StepWellFormed(s, base, me, b);
    IssuedMonotone(s, a, b, me);
    forall k | k in base.cells
      ensures Leq(GradeOf(Step(s, base, me, a).cells[k], me), GradeOf(Step(s, base, me, b).cells[k], me))
    {
      CellMonotone(s, base, me, a, b, k);
    }
  }

  lemma StepExtendsBase(s: Schema, base: State, me: string, st: State)
    requires SchemaWellFormed(s) && StateWellFormed(base) && StateWellFormed(st)
    ensures Below(base, Step(s, base, me, st), me)
  {
    StepWellFormed(s, base, me, st);
    forall k | k in base.cells
      ensures Leq(GradeOf(base.cells[k], me), GradeOf(Step(s, base, me, st).cells[k], me))
    {
      DoorsAreWellFormed(s, st, k);
      FoldIsLub(base.cells[k], DoorsAt(s, st, k), me, Nothing);
    }
  }

  /** A property of the base that every round keeps holds of every round. */
  lemma RoundsKeep(s: Schema, base: State, me: string, n: nat, inv: State -> bool)
    requires inv(base)
    requires forall st {:trigger Step(s, base, me, st)} :: inv(st) ==> inv(Step(s, base, me, st))
    ensures inv(Rounds(s, base, me, n))
  {
    IterateKeeps(Round(s, base, me), base, n, inv);
  }

  lemma RoundsAscend(s: Schema, base: State, me: string, n: nat)
    requires SchemaWellFormed(s) && StateWellFormed(base)
    ensures Below(Rounds(s, base, me, n), Step(s, base, me, Rounds(s, base, me, n)), me)
  {
    ghost var inv := (st: State) => Below(st, Step(s, base, me, st), me);
    StepExtendsBase(s, base, me, base);
    forall st {:trigger Step(s, base, me, st)} | inv(st) ensures inv(Step(s, base, me, st)) {
      StepMonotone(s, base, me, st, Step(s, base, me, st));
    }
    RoundsKeep(s, base, me, n, inv);
  }

  lemma StaysBelow(s: Schema, base: State, me: string, st: State, fixed: State)
    requires SchemaWellFormed(s) && StateWellFormed(base) && StateWellFormed(fixed)
    requires Below(Step(s, base, me, fixed), fixed, me) && Below(st, fixed, me)
    ensures Below(Step(s, base, me, st), fixed, me)
  {
    StepMonotone(s, base, me, st, fixed);
  }

  /** No round claims more than any state the rules cannot enlarge. */
  lemma RoundsStayBelow(s: Schema, base: State, me: string, n: nat, fixed: State)
    requires SchemaWellFormed(s) && StateWellFormed(base)
    requires StateWellFormed(fixed) && Below(Step(s, base, me, fixed), fixed, me)
    ensures Below(Rounds(s, base, me, n), fixed, me)
  {
    ghost var inv := (st: State) => Below(st, fixed, me);
    StepExtendsBase(s, base, me, fixed);
    forall st {:trigger Step(s, base, me, st)} | inv(st) ensures inv(Step(s, base, me, st)) {
      StaysBelow(s, base, me, st, fixed);
    }
    RoundsKeep(s, base, me, n, inv);
  }

  // --- termination: grades and reach settle first, notes then settle level by level ---

  function LevelOf(level: map<string, nat>, k: Spot): nat {
    if k.rel in level then level[k.rel] else 0
  }

  /** Two states no door rule can tell apart, except through a parent's whole cell. */
  ghost predicate SameReach(a: State, b: State) {
    a.reach == b.reach && forall k :: Reached(a.cells, k) <==> Reached(b.cells, k)
  }

  lemma {:induction false} ParentDoorsAgree(ancestors: seq<Ancestor>, c: Command, a: map<Spot, Cell>,
                                            b: map<Spot, Cell>)
    requires forall k :: Reached(a, k) <==> Reached(b, k)
    requires forall p :: p in ancestors && Reached(a, Spot(p.table, c)) && Reached(b, Spot(p.table, c)) ==>
               a[Spot(p.table, c)] == b[Spot(p.table, c)]
    ensures ParentDoors(ancestors, c, a) == ParentDoors(ancestors, c, b)
  {
    if ancestors != [] {
      assert ancestors[0] in ancestors;
      ParentDoorsAgree(ancestors[1..], c, a, b);
    }
  }

  lemma {:induction false} FkDoorsAgree(fks: seq<ForeignKey>, c: Command, a: map<Spot, Cell>, b: map<Spot, Cell>)
    requires forall k :: Reached(a, k) <==> Reached(b, k)
    ensures FkDoors(fks, c, a) == FkDoors(fks, c, b)
  {
    if fks != [] { FkDoorsAgree(fks[1..], c, a, b); }
  }

  lemma {:induction false} TriggerDoorsAgree(fs: seq<Firing>, k: Spot, a: State, b: State)
    requires SameReach(a, b)
    ensures TriggerDoors(fs, k, a) == TriggerDoors(fs, k, b)
  {
    if fs != [] {
      TriggerDoorsAgree(fs[1..], k, a, b);
    }
  }

  lemma IssuedAgrees(s: Schema, a: State, b: State)
    requires SameReach(a, b)
    ensures Issued(s, a) == Issued(s, b)
  {
    forall f ensures Fires(f, a) == Fires(f, b) {}
    FkIssuedFollowsReach(s, a.cells, b.cells);
    FkIssuedFollowsReach(s, b.cells, a.cells);
    assert TriggerIssued(Firings(s), a) == TriggerIssued(Firings(s), b);
  }

  /** Cells that agree on every level below `n` agree one level higher a round later. */
  lemma SettlesOneLevel(s: Schema, base: State, me: string, a: State, b: State, level: map<string, nat>, n: nat)
    requires Layered(s, level) && SameReach(a, b)
    requires a.cells.Keys == b.cells.Keys
    requires forall k :: k in a.cells && LevelOf(level, k) < n ==> a.cells[k] == b.cells[k]
    ensures forall k :: k in base.cells && LevelOf(level, k) < n + 1 ==>
              Step(s, base, me, a).cells[k] == Step(s, base, me, b).cells[k]
    ensures Step(s, base, me, a).reach == Step(s, base, me, b).reach
  {
    IssuedAgrees(s, a, b);
    forall k | k in base.cells && LevelOf(level, k) < n + 1
      ensures DoorsAt(s, a, k) == DoorsAt(s, b, k)
    {
      var t := FindTable(s.tables, k.rel);
      if t.Some? {
        forall p | p in t.value.ancestors && Reached(a.cells, Spot(p.table, k.command))
          ensures a.cells[Spot(p.table, k.command)] == b.cells[Spot(p.table, k.command)]
        {
          assert LevelOf(level, Spot(p.table, k.command)) < n;
        }
        ParentDoorsAgree(t.value.ancestors, k.command, a.cells, b.cells);
        FkDoorsAgree(t.value.fks, k.command, a.cells, b.cells);
      }
      TriggerDoorsAgree(Firings(s), k, a, b);
    }
  }

  /** Every write any body could ever issue. */
  ghost function ReachBound(s: Schema, base: State): set<Spot> {
    base.reach
    + (set t, c | t in s.tables && c in {Delete, Update} :: Spot(t.name, c))
    + (set f, k | f in Firings(s) && k in f.body.issued :: k)
    + (set r, k | r in s.rules && k in r.body.issued :: k)
  }

  lemma StepReachBounded(s: Schema, base: State, me: string, st: State)
    ensures Step(s, base, me, st).reach <= ReachBound(s, base)
  {}

  /** What the loop's answer is: fixed by a round, and below every state a round cannot enlarge. */
  ghost predicate IsLeastFixpoint(s: Schema, base: State, me: string, out: State) {
    && out.cells.Keys == base.cells.Keys && StateWellFormed(out)
    && Step(s, base, me, out) == out
    && (forall other: State :: StateWellFormed(other) && Below(Step(s, base, me, other), other, me) ==>
          Below(out, other, me))
  }

  /** The round after the `n`th changes something, be it only a note. */
  ghost predicate Moves(s: Schema, base: State, me: string, n: nat) {
    Rounds(s, base, me, n + 1) != Rounds(s, base, me, n)
  }

  ghost predicate StopsBy(s: Schema, base: State, me: string, n: nat) {
    forall m: nat :: Moves(s, base, me, m) ==> m < n
  }

  /** The loop, which compares whole cells, ever stops. */
  ghost predicate Settles(s: Schema, base: State, me: string) {
    exists n: nat :: StopsBy(s, base, me, n)
  }

  /** The loop's two states are two successive rounds. */
  ghost predicate AtRound(s: Schema, base: State, me: string, n: nat, out: State, next: State) {
    out == Rounds(s, base, me, n) && next == Rounds(s, base, me, n + 1)
  }

  lemma FirstRound(s: Schema, base: State, me: string)
    ensures AtRound(s, base, me, 0, base, Step(s, base, me, base))
  {}

  lemma NextRound(s: Schema, base: State, me: string, n: nat, out: State, next: State)
    requires AtRound(s, base, me, n, out, next)
    ensures AtRound(s, base, me, n + 1, next, Step(s, base, me, next))
  {}

  lemma MovesOrNot(s: Schema, base: State, me: string, n: nat, out: State, next: State)
    requires AtRound(s, base, me, n, out, next)
    ensures Moves(s, base, me, n) <==> next != out
  {}

  lemma StoppedBy(s: Schema, base: State, me: string, n: nat)
    requires !Moves(s, base, me, n)
    ensures StopsBy(s, base, me, n)
  {
    forall m: nat | n <= m ensures !Moves(s, base, me, m) { IterateStays(Round(s, base, me), base, n, m); }
  }

  /** The loop. It ends as soon as a round changes nothing, and then has the least fixed point. */
  method RoleReach(s: Schema, base: State, me: string) returns (out: State, ghost rounds: nat)
    requires SchemaWellFormed(s) && StateWellFormed(base) && Settles(s, base, me)
    ensures IsLeastFixpoint(s, base, me, out)
    ensures out == Rounds(s, base, me, rounds) && !Moves(s, base, me, rounds)
  {
    ghost var n: nat :| StopsBy(s, base, me, n);
    out := base;
    var next := Step(s, base, me, base);
    rounds := 0;
    FirstRound(s, base, me);
    while next != out
      invariant rounds <= n && AtRound(s, base, me, rounds, out, next)
      decreases n - rounds
    {
      MovesOrNot(s, base, me, rounds, out, next);
      NextRound(s, base, me, rounds, out, next);
      out, next := next, Step(s, base, me, next);
      rounds := rounds + 1;
    }
    MovesOrNot(s, base, me, rounds, out, next);
    FixedIsLeast(s, base, me, rounds);
  }

  /** A state the rounds stop at is below every state a round cannot enlarge. */
  lemma FixedIsLeast(s: Schema, base: State, me: string, n: nat)
    requires SchemaWellFormed(s) && StateWellFormed(base) && !Moves(s, base, me, n)
    ensures IsLeastFixpoint(s, base, me, Rounds(s, base, me, n))
  {
    var out := Rounds(s, base, me, n);
    RoundsAscend(s, base, me, n);
    forall other: State | StateWellFormed(other) && Below(Step(s, base, me, other), other, me)
      ensures Below(out, other, me)
    {
      RoundsStayBelow(s, base, me, n, other);
    }
  }
}
