/** A cell is reached exactly when a finite chain of door rules leads to it from the role's own cells. */
module ReachDerivation {
  import opened Prelude
  import opened Cells
  import opened Merge
  import opened Reach
  import opened ReachFixpoint

  // --- derivations: every rule has one premise, so a derivation is a path of facts ---

  datatype Fact = RowsReached(at: Spot) | WriteIssued(at: Spot)

  ghost predicate Holds(f: Fact, st: State) {
    match f
    case RowsReached(k) => Reached(st.cells, k)
    case WriteIssued(k) => k in st.reach
  }

  /** The single facts that each make a trigger fire. */
  ghost predicate FiresOn(fi: Firing, f: Fact) {
    match f
    case WriteIssued(k) =>
      || (k == Spot(fi.table, fi.command)
          && (|| fi.command == Truncate || fi.row != Some(true) || (fi.timing == Before && fi.command == Insert)))
      || (exists a :: a in fi.ancestors && k == Spot(a.table, fi.command)
            && (|| fi.command == Truncate
                || (fi.command == Insert && a.declarative && fi.timing == Before && fi.row != Some(false))))
    case RowsReached(k) =>
      && fi.command != Truncate && fi.row != Some(false)
      && (|| k == Spot(fi.table, fi.command)
          || ((fi.command == Insert || fi.command == Delete)
              && exists a :: a in fi.ancestors && a.declarative && k == Spot(a.table, Update)))
  }

  ghost predicate Yields(body: Effect, g: Fact) {
    match g
    case RowsReached(k) => exists d :: Placed(k, d) in body.doors
    case WriteIssued(k) => k in body.issued
  }

  ghost predicate FkEdge(t: Table, fk: ForeignKey, from: Spot, to: Spot) {
    && to.rel == t.name && from.rel == fk.parent && (from.command == Delete || from.command == Update)
    && ActionCommand(from.command, if from.command == Delete then fk.onDelete else fk.onUpdate) == Some(to.command)
  }

  /** One application of a door rule: from fact `f` to fact `g`. */
  ghost predicate Edge(s: Schema, f: Fact, g: Fact) {
    || (f.RowsReached? && g.RowsReached? && f.at.command == g.at.command
        && var t := FindTable(s.tables, g.at.rel);
           t.Some? && exists a :: a in t.value.ancestors && Reach.Passes(a, g.at.command) && f.at.rel == a.table)
    || (f.RowsReached? && exists t, fk :: t in s.tables && fk in t.fks && FkEdge(t, fk, f.at, g.at))
    || (exists fi :: fi in Firings(s) && FiresOn(fi, f) && Yields(fi.body, g))
    || (f.WriteIssued? && exists r :: r in s.rules && r.at == f.at && Yields(r.body, g))
  }

  lemma FiresOnSomeFact(fi: Firing, st: State)
    ensures Fires(fi, st) <==> exists f :: FiresOn(fi, f) && Holds(f, st)
  {
    var own := Spot(fi.table, fi.command);
    if Fires(fi, st) {
      if Holds(WriteIssued(own), st) && FiresOn(fi, WriteIssued(own)) {
      } else if Holds(RowsReached(own), st) && FiresOn(fi, RowsReached(own)) {
      } else if a :| a in fi.ancestors && FiresOn(fi, WriteIssued(Spot(a.table, fi.command)))
                     && Spot(a.table, fi.command) in st.reach {
        assert Holds(WriteIssued(Spot(a.table, fi.command)), st);
      } else {
        var a :| a in fi.ancestors && a.declarative && Reached(st.cells, Spot(a.table, Update));
        assert FiresOn(fi, RowsReached(Spot(a.table, Update))) && Holds(RowsReached(Spot(a.table, Update)), st);
      }
    }
  }

  lemma RowsFollowEdges(s: Schema, st: State, k: Spot)
    requires SchemaWellFormed(s)
    ensures (exists d :: d in DoorsAt(s, st, k)) <==> exists f :: Holds(f, st) && Edge(s, f, RowsReached(k))
  {
    if d :| d in DoorsAt(s, st, k) {
      var f := PremiseOfDoor(s, st, k, d);
    }
    if f :| Holds(f, st) && Edge(s, f, RowsReached(k)) {
      var d := DoorOfPremise(s, st, k, f);
    }
  }

  lemma PremiseOfDoor(s: Schema, st: State, k: Spot, d: Door) returns (f: Fact)
    requires d in DoorsAt(s, st, k)
    ensures Holds(f, st) && Edge(s, f, RowsReached(k))
  {
    var t := FindTable(s.tables, k.rel);
    if t.Some? && d in ParentDoors(t.value.ancestors, k.command, st.cells) {
      ParentDoorsMembers(t.value.ancestors, k.command, st.cells, d);
      var a :| a in t.value.ancestors && Reach.Passes(a, k.command) && Reached(st.cells, Spot(a.table, k.command));
      f := RowsReached(Spot(a.table, k.command));
    } else if t.Some? && d in FkDoors(t.value.fks, k.command, st.cells) {
      FkDoorsMembers(t.value.fks, k.command, st.cells, d);
      var fk :| fk in t.value.fks && (FkActs(fk, k.command, st.cells, Delete)
          || FkActs(fk, k.command, st.cells, Update));
      f := RowsReached(Spot(fk.parent, if FkActs(fk, k.command, st.cells, Delete) then Delete else Update));
      assert FkEdge(t.value, fk, f.at, k);
    } else if d in TriggerDoors(Firings(s), k, st) {
      TriggerDoorsMembers(Firings(s), k, st, d);
      var fi :| fi in Firings(s) && Fires(fi, st) && Placed(k, d) in fi.body.doors;
      FiresOnSomeFact(fi, st);
      f :| FiresOn(fi, f) && Holds(f, st);
    } else {
      RuleDoorsMembers(s.rules, k, st.reach, d);
      var r :| r in s.rules && r.at in st.reach && Placed(k, d) in r.body.doors;
      f := WriteIssued(r.at);
    }
  }

  lemma DoorOfPremise(s: Schema, st: State, k: Spot, f: Fact) returns (d: Door)
    requires SchemaWellFormed(s) && Holds(f, st) && Edge(s, f, RowsReached(k))
    ensures d in DoorsAt(s, st, k)
  {
    var t := FindTable(s.tables, k.rel);
    if fi :| fi in Firings(s) && FiresOn(fi, f) && Yields(fi.body, RowsReached(k)) {
      FiresOnSomeFact(fi, st);
      d :| Placed(k, d) in fi.body.doors;
      TriggerDoorsMembers(Firings(s), k, st, d);
    } else if r :| f.WriteIssued? && r in s.rules && r.at == f.at && Yields(r.body, RowsReached(k)) {
      d :| Placed(k, d) in r.body.doors;
      RuleDoorsMembers(s.rules, k, st.reach, d);
    } else if u, fk :| f.RowsReached? && u in s.tables && fk in u.fks && FkEdge(u, fk, f.at, k) {
      FindsByName(s.tables, u);
      d := FkDoor(fk, if f.at.command == Delete then "delete" else "update");
      FkDoorsMembers(u.fks, k.command, st.cells, d);
    } else {
      var a :| a in t.value.ancestors && Reach.Passes(a, k.command) && f.at.rel == a.table;
      d := Door(Via("through parent " + a.table, st.cells[f.at], None, None),
          AccessPath(ParentDoor, Some(a.table), []));
      assert f.at == Spot(a.table, k.command);
      ParentDoorsMembers(t.value.ancestors, k.command, st.cells, d);
    }
  }

  lemma WritesFollowEdges(s: Schema, st: State, k: Spot)
    ensures k in Issued(s, st) <==> exists f :: Holds(f, st) && Edge(s, f, WriteIssued(k))
  {
    if k in FkIssued(s, st.cells) {
      var t, fk, trigger, c :| t in s.tables && fk in t.fks && trigger in {Delete, Update} && c in {Delete, Update}
        && FkActs(fk, c, st.cells, trigger) && k == Spot(t.name, c);
      assert FkEdge(t, fk, Spot(fk.parent, trigger), k);
      assert Holds(RowsReached(Spot(fk.parent, trigger)), st);
    }
    if k in TriggerIssued(Firings(s), st) {
      var fi :| fi in Firings(s) && Fires(fi, st) && k in fi.body.issued;
      FiresOnSomeFact(fi, st);
      var f :| FiresOn(fi, f) && Holds(f, st);
      assert Edge(s, f, WriteIssued(k));
    }
    if k in RuleIssued(s.rules, st.reach) {
      var r :| r in s.rules && r.at in st.reach && k in r.body.issued;
      assert Holds(WriteIssued(r.at), st) && Edge(s, WriteIssued(r.at), WriteIssued(k));
    }
    if f :| Holds(f, st) && Edge(s, f, WriteIssued(k)) {
      IssuedByPremise(s, st, k, f);
    }
  }

  lemma IssuedByPremise(s: Schema, st: State, k: Spot, f: Fact)
    requires Holds(f, st) && Edge(s, f, WriteIssued(k))
    ensures k in Issued(s, st)
  {
    if fi :| fi in Firings(s) && FiresOn(fi, f) && Yields(fi.body, WriteIssued(k)) {
      FiresOnSomeFact(fi, st);
      assert k in TriggerIssued(Firings(s), st);
    } else if r :| f.WriteIssued? && r in s.rules && r.at == f.at && Yields(r.body, WriteIssued(k)) {
      assert k in RuleIssued(s.rules, st.reach);
    } else {
      var t, fk :| t in s.tables && fk in t.fks && FkEdge(t, fk, f.at, k);
      assert FkActs(fk, k.command, st.cells, f.at.command);
      assert k in FkIssued(s, st.cells);
    }
  }

  /** Facts about tables the map has no cell for are outside the question. */
  ghost predicate InScope(f: Fact, base: State) {
    f.RowsReached? ==> f.at in base.cells
  }

  /** What holds after a round: what the base says, and what one door rule derives from the round before. */
  lemma RoundFacts(s: Schema, base: State, me: string, st: State, g: Fact)
    requires SchemaWellFormed(s) && StateWellFormed(base) && StateWellFormed(st) && InScope(g, base)
    ensures Holds(g, Step(s, base, me, st)) <==> Holds(g, base) || exists f :: Holds(f, st) && Edge(s, f, g)
  {
    match g
    case RowsReached(k) =>
      DoorsAreWellFormed(s, st, k);
      FoldDenied(base.cells[k], DoorsAt(s, st, k), me);
      RowsFollowEdges(s, st, k);
    case WriteIssued(k) =>
      WritesFollowEdges(s, st, k);
  }

  /** A finite derivation: it starts from the role's own cells or writes and each step is a door rule. */
  ghost predicate IsDerivation(s: Schema, base: State, p: seq<Fact>) {
    && |p| > 0 && Holds(p[0], base)
    && (forall i :: 0 <= i < |p| ==> InScope(p[i], base))
    && (forall i :: 0 < i < |p| ==> Edge(s, p[i - 1], p[i]))
  }

  ghost predicate Derivable(s: Schema, base: State, g: Fact) {
    exists p :: IsDerivation(s, base, p) && p[|p| - 1] == g
  }

  lemma ExtendDerivation(s: Schema, base: State, f: Fact, g: Fact)
    requires Derivable(s, base, f) && Edge(s, f, g) && InScope(g, base)
    ensures Derivable(s, base, g)
  {
    var p :| IsDerivation(s, base, p) && p[|p| - 1] == f;
    var q := p + [g];
    forall i | 0 < i < |q| ensures Edge(s, q[i - 1], q[i]) {
      if i < |p| { assert q[i - 1] == p[i - 1] && q[i] == p[i]; }
    }
    assert IsDerivation(s, base, q) && q[|q| - 1] == g;
  }

  lemma StartDerivation(s: Schema, base: State, g: Fact)
    requires Holds(g, base)
    ensures Derivable(s, base, g)
  {
    assert IsDerivation(s, base, [g]) && [g][|[g]| - 1] == g;
  }

  ghost predicate AllDerivable(s: Schema, base: State, st: State) {
    forall f :: Holds(f, st) ==> Derivable(s, base, f)
  }

  lemma RoundDerives(s: Schema, base: State, me: string, st: State, g: Fact)
    requires SchemaWellFormed(s) && StateWellFormed(base) && StateWellFormed(st)
    requires AllDerivable(s, base, st) && InScope(g, base) && Holds(g, Step(s, base, me, st))
    ensures Derivable(s, base, g)
  {
    RoundFacts(s, base, me, st, g);
    if Holds(g, base) {
      StartDerivation(s, base, g);
    } else {
      var f :| Holds(f, st) && Edge(s, f, g);
      ExtendDerivation(s, base, f, g);
    }
  }

  lemma RoundAllDerivable(s: Schema, base: State, me: string, st: State)
    requires SchemaWellFormed(s) && StateWellFormed(base) && StateWellFormed(st)
    requires AllDerivable(s, base, st)
    ensures AllDerivable(s, base, Step(s, base, me, st))
  {
    forall g | Holds(g, Step(s, base, me, st)) ensures Derivable(s, base, g) {
      RoundDerives(s, base, me, st, g);
    }
  }

  lemma RoundsDerive(s: Schema, base: State, me: string, n: nat)
    requires SchemaWellFormed(s) && StateWellFormed(base)
    ensures StateWellFormed(Rounds(s, base, me, n))
    ensures AllDerivable(s, base, Rounds(s, base, me, n))
  {
    ghost var inv := (st: State) => StateWellFormed(st) && AllDerivable(s, base, st);
    forall g | Holds(g, base) ensures Derivable(s, base, g) { StartDerivation(s, base, g); }
    forall st {:trigger Step(s, base, me, st)} | inv(st) ensures inv(Step(s, base, me, st)) {
      StepWellFormed(s, base, me, st);
      RoundAllDerivable(s, base, me, st);
    }
    RoundsKeep(s, base, me, n, inv);
  }

  lemma {:induction false} DerivationHolds(s: Schema, base: State, me: string, out: State, p: seq<Fact>)
    requires SchemaWellFormed(s) && StateWellFormed(base) && StateWellFormed(out)
    requires Step(s, base, me, out) == out && IsDerivation(s, base, p)
    ensures Holds(p[|p| - 1], out)
  {
    var g := p[|p| - 1];
    if |p| > 1 {
      var q := p[..|p| - 1];
      assert IsDerivation(s, base, q);
      DerivationHolds(s, base, me, out, q);
      assert Edge(s, q[|q| - 1], g);
    }
    RoundFacts(s, base, me, out, g);
  }

  /**
    At the state the loop stops in, a cell is not denied exactly when a finite derivation of it
    exists, and the issued writes are exactly the derivable ones.
   */
  lemma ReachedIffDerivable(s: Schema, base: State, me: string, n: nat, g: Fact)
    requires SchemaWellFormed(s) && StateWellFormed(base)
    requires !Moves(s, base, me, n)
    ensures Holds(g, Rounds(s, base, me, n)) <==> Derivable(s, base, g)
  {
    var out := Rounds(s, base, me, n);
    RoundsAscend(s, base, me, n);
    if Holds(g, out) {
      RoundsDerive(s, base, me, n);
    }
    if p :| IsDerivation(s, base, p) && p[|p| - 1] == g {
      DerivationHolds(s, base, me, out, p);
    }
  }
}
