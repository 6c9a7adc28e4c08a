/**
  Bodies that run as their owner, be it a function, a trigger's function or a rule's action: the
  doors their statements open and the writes they issue.
 */
module OwnerDoors {
  import opened Prelude
  import opened Cells
  import opened Privileges
  import opened CellFor
  import C = Context
  import Hierarchy
  import Reach
  import ViewDoors

  /** What a statement does to a relation. */
  datatype Touch = Run(rel: string, command: Command) | TruncateCascade(rel: string)

  /**
    Who a body runs as, how its doors are named, whose session and rights its filters see, and
    whether it sets its own parameters.
   */
  datatype Body = Body(
    cat: ViewDoors.Catalog, owner: Session, prefix: string, kind: PathKind, via: string,
    session: Option<string>, privileges: Option<string>, context: bool)

  /** The owner's verdict on a table. */
  function OwnersDirect(b: Body, s: Spot): Direct
    requires s.rel in b.cat.tables
  {
    ViewDoors.DirectOf(b.cat, b.owner, b.cat.tables[s.rel], s.command)
  }

  /** The owner's walk through views, on which its own access is a door. */
  function OwnersWalk(b: Body, c: Command): ViewDoors.Walk {
    ViewDoors.WalkOf(b.cat, b.owner, c, true, b.session)
  }

  /** The spots a touch stands for: a truncation reaches past the table it names. */
  function Expand(b: Body, t: Touch): seq<Spot> {
    match t
    case Run(rel, c) =>
      if c == Truncate && rel in b.cat.tables then
        [Spot(rel, Truncate)] + Truncated(Hierarchy.DescendantsOf(b.cat.graph.children, rel))
      else [Spot(rel, c)]
    case TruncateCascade(rel) =>
      if rel in b.cat.tables then
        [Spot(rel, Truncate)] + Truncated(C.Without(Hierarchy.CascadeOf(b.cat.graph, rel), rel))
      else [Spot(rel, Truncate)]
  }

  function Truncated(names: seq<string>): (r: seq<Spot>)
    ensures forall s :: s in r <==> s.command == Truncate && s.rel in names
  {
    if names == [] then [] else [Spot(names[0], Truncate)] + Truncated(names[1..])
  }

  function ExpandAll(b: Body, touches: seq<Touch>): seq<Spot> {
    if touches == [] then [] else Expand(b, touches[0]) + ExpandAll(b, touches[1..])
  }

  /** First occurrences, in order. */
  function Dedup(xs: seq<Spot>, seen: seq<Spot>): (r: seq<Spot>)
    ensures forall x :: x in r <==> x in xs || x in seen
    decreases |xs|
  {
    if xs == [] then seen else Dedup(xs[1..], if xs[0] in seen then seen else seen + [xs[0]])
  }

  /** A filter that runs on parameters the body chose bounds nothing. */
  function InContext(b: Body, c: Cell): Cell {
    if b.context && c.verdict == Conditional then
      Cell(Undecided, None, Some("its body sets configuration parameters"), b.session, None)
    else c
  }

  function TableCell(b: Body, s: Spot): Cell
    requires s.rel in b.cat.tables
  {
    InContext(b, Via(b.prefix, OwnersDirect(b, s).cell, b.session,
                     if b.privileges.Some? then b.privileges else Some(b.owner.role.name)))
  }

  function EventCell(b: Body, door: Door): Cell {
    InContext(b, Via(b.prefix + ", then " + (if door.path.via.Some? then door.path.via.value else ""),
                     door.cell, b.session, b.privileges))
  }

  /** A body's door at a table for one of its view walk's records. */
  function EventDoor(b: Body, door: Door): Door {
    Door(EventCell(b, door), AccessPath(b.kind, Some(b.via), door.path.hops))
  }

  function EventDoors(b: Body, c: Command, events: seq<ViewDoors.Event>): seq<Reach.Placed> {
    if events == [] then []
    else
      (match events[0]
       case Record(table, door) =>
         [Reach.Placed(Spot(table, c), EventDoor(b, door))]
       case Issue(_) => [])
      + EventDoors(b, c, events[1..])
  }

  function EventWrites(c: Command, events: seq<ViewDoors.Event>): set<Spot> {
    set e | e in events && e.Issue? :: Spot(e.rel, c)
  }

  function OneEffect(b: Body, s: Spot): Reach.Effect {
    if s.rel in b.cat.tables then
      var d := OwnersDirect(b, s);
      Reach.Effect(
        if d.cell.verdict == Denied then []
        else [Reach.Placed(s, Door(TableCell(b, s), AccessPath(b.kind, Some(b.via), [])))],
        if d.paths != {} && s.command != Command.Select then {s} else {})
    else if s.rel in b.cat.views then
      var k := OwnersWalk(b, s.command);
      var v := b.cat.views[s.rel];
      var events := ViewDoors.StartEvents(k, v);
      Reach.Effect(EventDoors(b, s.command, events),
        EventWrites(s.command, events)
        + if s.command != Command.Select && k.opens(v) == Some(true) then {s} else {})
    else Reach.Effect([], {})
  }

  function EffectOf(b: Body, spots: seq<Spot>): Reach.Effect {
    if spots == [] then Reach.Effect([], {})
    else
      var first, rest := OneEffect(b, spots[0]), EffectOf(b, spots[1..]);
      Reach.Effect(first.doors + rest.doors, first.issued + rest.issued)
  }

  function RunAsOwner(b: Body, touches: seq<Touch>): Reach.Effect {
    EffectOf(b, Dedup(ExpandAll(b, touches), []))
  }

  // --- what it credits ---

  lemma {:induction false} EffectMembers(b: Body, spots: seq<Spot>, p: Reach.Placed)
    ensures p in EffectOf(b, spots).doors <==> exists s :: s in spots && p in OneEffect(b, s).doors
  {
    if spots != [] {
      EffectMembers(b, spots[1..], p);
      assert forall s :: s in spots <==> s == spots[0] || s in spots[1..];
    }
  }

  lemma {:induction false} IssuedMembers(b: Body, spots: seq<Spot>, k: Spot)
    ensures k in EffectOf(b, spots).issued <==> exists s :: s in spots && k in OneEffect(b, s).issued
  {
    if spots != [] {
      IssuedMembers(b, spots[1..], k);
      assert forall s :: s in spots <==> s == spots[0] || s in spots[1..];
    }
  }

  lemma {:induction false} ExpandMembers(b: Body, touches: seq<Touch>, s: Spot)
    ensures s in ExpandAll(b, touches) <==> exists t :: t in touches && s in Expand(b, t)
  {
    if touches != [] {
      ExpandMembers(b, touches[1..], s);
      assert forall t :: t in touches <==> t == touches[0] || t in touches[1..];
    }
  }

  /**
    The TRUNCATE a body runs touches exactly the tables Postgres empties: the subtree, or with CASCADE
    the least closed set.
   */
  lemma TruncateReachExact(b: Body, rel: string, x: string)
    requires rel in b.cat.tables
    ensures Spot(x, Truncate) in Expand(b, Run(rel, Truncate)) <==> Hierarchy.Beneath(b.cat.graph.children, rel, x)
    ensures Spot(x, Truncate) in Expand(b, TruncateCascade(rel)) <==>
            forall s :: rel in s && b.cat.graph.CascadeClosed(s) ==> x in s
  {
    Hierarchy.DescendantsExact(b.cat.graph.children, rel);
    Hierarchy.BeneathSelf(b.cat.graph.children, rel);
    Hierarchy.CascadeIsLeastClosed(b.cat.graph, rel);
    var all := Elements(Hierarchy.CascadeOf(b.cat.graph, rel));
    assert rel in all && b.cat.graph.CascadeClosed(all);
    if Spot(x, Truncate) in Expand(b, TruncateCascade(rel)) {
      assert x in all;
    }
  }

  lemma {:induction false} EventDoorsMembers(b: Body, c: Command, events: seq<ViewDoors.Event>, p: Reach.Placed)
    ensures p in EventDoors(b, c, events) <==>
            exists e :: e in events && e.Record? && p == Reach.Placed(Spot(e.table, c), EventDoor(b, e.door))
  {
    if events != [] {
      EventDoorsMembers(b, c, events[1..], p);
      assert forall e :: e in events <==> e == events[0] || e in events[1..];
    }
  }

  /** What a body's touch of `s` credits at a table: itself, or what its owner's walk from a view records there. */
  ghost predicate CreditsAt(b: Body, s: Spot, k: Spot)
    requires k.rel in b.cat.tables
  {
    || (s == k && OwnersDirect(b, k).cell.verdict != Denied)
    || (IsViewSpot(b, s) && s.command == k.command
        && exists door :: ViewDoors.Record(k.rel, door) in ViewDoors.StartEvents(OwnersWalk(b, s.command),
            b.cat.views[s.rel]))
  }

  /** What it issues there: a write the owner holds the privilege for, or one on the way through a view. */
  ghost predicate IssuesAt(b: Body, s: Spot, k: Spot)
    requires k.rel in b.cat.tables
  {
    || (s == k && k.command != Command.Select && OwnersDirect(b, k).paths != {})
    || (IsViewSpot(b, s) && s.command == k.command
        && ViewDoors.Issue(k.rel) in ViewDoors.StartEvents(OwnersWalk(b, s.command), b.cat.views[s.rel]))
  }

  predicate IsViewSpot(b: Body, s: Spot) {
    s.rel !in b.cat.tables && s.rel in b.cat.views
  }

  lemma SpotCredits(b: Body, s: Spot, k: Spot)
    requires k.rel in b.cat.tables
    ensures (exists d :: Reach.Placed(k, d) in OneEffect(b, s).doors) <==> CreditsAt(b, s, k)
  {
    if s.rel in b.cat.tables {
      if OwnersDirect(b, s).cell.verdict != Denied {
        assert OneEffect(b, s).doors[0] == Reach.Placed(s, Door(TableCell(b, s), AccessPath(b.kind, Some(b.via), [])));
      }
    } else if s.rel in b.cat.views {
      var events := ViewDoors.StartEvents(OwnersWalk(b, s.command), b.cat.views[s.rel]);
      assert OneEffect(b, s).doors == EventDoors(b, s.command, events);
      if d :| Reach.Placed(k, d) in EventDoors(b, s.command, events) {
        EventDoorsMembers(b, s.command, events, Reach.Placed(k, d));
        var e :| e in events && e.Record? && Reach.Placed(k, d) ==
            Reach.Placed(Spot(e.table, s.command), EventDoor(b, e.door));
        assert e == ViewDoors.Record(k.rel, e.door);
      }
      if door :| s.command == k.command && ViewDoors.Record(k.rel, door) in events {
        EventDoorsMembers(b, s.command, events, Reach.Placed(k, EventDoor(b, door)));
      }
    }
  }

  lemma SpotIssues(b: Body, s: Spot, k: Spot)
    requires k.rel in b.cat.tables
    ensures k in OneEffect(b, s).issued <==> IssuesAt(b, s, k)
  {
    if IsViewSpot(b, s) {
      var events := ViewDoors.StartEvents(OwnersWalk(b, s.command), b.cat.views[s.rel]);
      assert k in EventWrites(s.command, events) <==> s.command == k.command && ViewDoors.Issue(k.rel) in events;
    }
  }

  /**
    A body credits a table exactly when it touches it and its owner's own verdict there is not a
    denial, or touches a view from which its owner's walk records the table; and it issues a write
    exactly when it touches the table with the owner holding the privilege, or writes it through a view.
   */
  lemma CreditsOwnersReach(b: Body, touches: seq<Touch>, k: Spot)
    requires k.rel in b.cat.tables
    ensures var e := RunAsOwner(b, touches);
            && ((exists d :: Reach.Placed(k, d) in e.doors) <==>
                exists t, s :: t in touches && s in Expand(b, t) && CreditsAt(b, s, k))
            && (k in e.issued <==> exists t, s :: t in touches && s in Expand(b, t) && IssuesAt(b, s, k))
  {
    var spots := Dedup(ExpandAll(b, touches), []);
    var e := EffectOf(b, spots);
    forall s ensures s in spots <==> exists t :: t in touches && s in Expand(b, t) { ExpandMembers(b, touches, s); }
    forall s
      ensures (exists d :: Reach.Placed(k, d) in OneEffect(b, s).doors) <==> CreditsAt(b, s, k)
      ensures k in OneEffect(b, s).issued <==> IssuesAt(b, s, k)
    {
      SpotCredits(b, s, k);
      SpotIssues(b, s, k);
    }
    forall d
      ensures Reach.Placed(k, d) in e.doors <==> exists s :: s in spots && Reach.Placed(k, d) in OneEffect(b, s).doors
    {
      EffectMembers(b, spots, Reach.Placed(k, d));
    }
    IssuedMembers(b, spots, k);
  }

  lemma {:induction false} WalkRecords(k: ViewDoors.Walk, v: ViewDoors.View, refs: seq<string>, hops: seq<string>,
                                       entry: ViewDoors.View, seen: set<string>, e: ViewDoors.Event)
    requires forall u, t :: WellFormed(k.reach(u, t).cell)
    requires e in ViewDoors.WalkRefs(k, v, refs, hops, entry, seen) && e.Record?
    ensures WellFormed(e.door.cell) && e.door.cell.verdict != Denied
    decreases k.cat.views.Keys - seen, |refs|
  {
    if e in ViewDoors.WalkRefs(k, v, refs[1..], hops, entry, seen) {
      WalkRecords(k, v, refs[1..], hops, entry, seen, e);
    } else if refs[0] in k.cat.views {
      var child := k.cat.views[refs[0]];
      var on := hops + [child.name];
      if child.materialized {
        ViewDoors.BeneathRecords(k, child.references, entry, on, child.name + " is a materialized view",
                                 seen + {refs[0]}, e);
      } else if k.readable(v, child) == None {
        ViewDoors.BeneathRecords(k, child.references, entry, on, "role-membership graph not captured",
                                 seen + {refs[0]}, e);
      } else {
        WalkRecords(k, child, child.references, on, entry, seen + {refs[0]}, e);
      }
    }
  }

  lemma StartRecords(k: ViewDoors.Walk, v: ViewDoors.View, e: ViewDoors.Event)
    requires forall u, t :: WellFormed(k.reach(u, t).cell)
    requires e in ViewDoors.StartEvents(k, v) && e.Record?
    ensures WellFormed(e.door.cell) && e.door.cell.verdict != Denied
  {
    if v.materialized {
      ViewDoors.BeneathRecords(k, v.references, v, [v.name], v.name + " is a materialized view", {v.name}, e);
    } else if k.opens(v) == None {
      ViewDoors.BeneathRecords(k, v.references, v, [v.name], "role-membership graph not captured", {v.name}, e);
    } else if k.command != Command.Select && v.updatable.None? {
      ViewDoors.BeneathRecords(k, v.references, v, [v.name], "whether the view accepts the command was not captured",
          {v.name}, e);
    } else {
      WalkRecords(k, v, v.references, [v.name], v, {v.name}, e);
    }
  }

  lemma PlacedWellFormed(b: Body, s: Spot, p: Reach.Placed)
    requires p in OneEffect(b, s).doors
    ensures WellFormed(p.door.cell) && p.door.cell.verdict != Denied
  {
    if s.rel in b.cat.tables {
      var t := b.cat.tables[s.rel];
      CellWellFormed(t, s.command, b.owner, ViewDoors.WalkFor(b.cat, b.owner, t, s.command));
    } else {
      var k := OwnersWalk(b, s.command);
      var events := ViewDoors.StartEvents(k, b.cat.views[s.rel]);
      EventDoorsMembers(b, s.command, events, p);
      var ev :| ev in events && ev.Record? && p == Reach.Placed(Spot(ev.table, s.command), EventDoor(b, ev.door));
      forall u, t ensures WellFormed(k.reach(u, t).cell) {
        var eff := ViewDoors.Eff(b.cat, b.owner, u);
        CellWellFormed(t, s.command, eff, ViewDoors.WalkFor(b.cat, eff, t, s.command));
      }
      StartRecords(k, b.cat.views[s.rel], ev);
    }
  }

  /** What the fixed point asks of every body: its doors reach rows, and a filtered one carries its filter. */
  lemma RunAsOwnerWellFormed(b: Body, touches: seq<Touch>)
    ensures Reach.EffectWellFormed(RunAsOwner(b, touches))
  {
    var spots := Dedup(ExpandAll(b, touches), []);
    var e := EffectOf(b, spots);
    forall i | 0 <= i < |e.doors|
      ensures WellFormed(e.doors[i].door.cell) && e.doors[i].door.cell.verdict != Denied
    {
      EffectMembers(b, spots, e.doors[i]);
      var s :| s in spots && e.doors[i] in OneEffect(b, s).doors;
      PlacedWellFormed(b, s, e.doors[i]);
    }
  }
}
