/**
  What a principal reaches through views. The user a relation is read or written as depends on the
  view it is named in: the view's owner, or the principal again for an invoker view. The search
  follows simple paths of views only; the walks it is compared with may be of any length.
 */
module ViewDoors {
  import opened Prelude
  import opened Cells
  import opened Privileges
  import opened CellFor
  import Hierarchy
  import TruncateBlocker

  /** `updatable` is None when it was not captured; `replaced` are the commands an INSTEAD rule takes over. */
  datatype View = View(
    name: string, owner: string, invoker: bool, materialized: bool, updatable: Option<set<Command>>,
    replaced: set<Command>, acl: Acl, references: seq<string>)

  /**
    The relations of the schema, the session each owner runs as, and the table hierarchy with each
    table's ancestors, nearest first.
   */
  datatype Catalog = Catalog(
    views: map<string, View>, tables: map<string, Table>, owners: map<string, Session>,
    graph: Hierarchy.Graph, ancestors: Hierarchy.Links)

  /** The blocker search, which only a TRUNCATE runs. */
  function WalkFor(cat: Catalog, s: Session, t: Table, c: Command): Option<TruncateBlocker.Outcome> {
    if c == Truncate then
      Some(TruncateBlocker.Blocker(cat.graph, cat.ancestors, CanTruncate(cat.tables, s), t.name))
    else None
  }

  /** What a session reaches of a table directly. */
  function DirectOf(cat: Catalog, s: Session, t: Table, c: Command): Direct {
    CellFor.CellFor(t, c, s, WalkFor(cat, s, t, c))
  }

  /**
    One walk for one command: whether the principal may open a view, whether the view just left
    may read the next one, and what that view's effective user reaches of a table.
   */
  datatype Walk = Walk(
    cat: Catalog, command: Command, principal: string, direct: bool, session: Option<string>,
    opens: View -> Option<bool>, readable: (View, View) -> Option<bool>, reach: (View, Table) -> Direct)

  /** A definer view runs as its owner, an invoker view as the principal. */
  function Eff(cat: Catalog, me: Session, v: View): Session {
    if v.invoker || v.owner !in cat.owners then me else cat.owners[v.owner]
  }

  /** The walk a principal makes; `direct` when its own access counts as a door. */
  function WalkOf(cat: Catalog, me: Session, c: Command, direct: bool, session: Option<string>): Walk {
    Walk(cat, c, me.role.name, direct, session,
         (v: View) => Holds(me, v.acl, c),
         (v: View, child: View) => Holds(Eff(cat, me, v), child.acl, c),
         (v: View, t: Table) => DirectOf(cat, Eff(cat, me, v), t, c))
  }

  /** What the walk does, in order: record a door at a table, or note a write issued on a relation. */
  datatype Event = Record(table: string, door: Door) | Issue(rel: string)

  function RecordIf(table: string, cell: Cell, path: AccessPath): seq<Event> {
    if cell.verdict == Denied then [] else [Record(table, Door(cell, path))]
  }

  function ViewPath(entry: View, hops: seq<string>): AccessPath {
    AccessPath(ViewDoor, Some(entry.name), hops)
  }

  /** Every table beneath a view that cannot be decided is undecided. */
  function Beneath(k: Walk, refs: seq<string>, entry: View, hops: seq<string>, why: string,
                   seen: set<string>): seq<Event>
    decreases k.cat.views.Keys - seen, |refs|
  {
    if refs == [] then []
    else
      var ref := refs[0];
      (if ref in seen then []
       else if ref in k.cat.tables then
         RecordIf(ref, Cell(Undecided, None, Some(why), k.session, None), ViewPath(entry, hops + [ref]))
       else if ref in k.cat.views then
         Beneath(k, k.cat.views[ref].references, entry, hops, why, seen + {ref})
       else [])
      + Beneath(k, refs[1..], entry, hops, why, seen)
  }

  function Label(entry: View, definer: View): string {
    if definer == entry then "through definer view " + entry.name + ", as its owner " + definer.owner
    else "through view " + entry.name + ", then definer view " + definer.name + ", as its owner " + definer.owner
  }

  /**
    The cell of a view's table for the view's effective user; through invoker views, only on a walk
    whose principal is a door.
   */
  function DoorCell(k: Walk, entry: View, v: View, t: Table): Cell {
    var own := k.reach(v, t).cell;
    if v.invoker then
      if k.direct then Cell(own.verdict, own.filter, own.note, k.session, Some(k.principal)) else Plain(Denied, None)
    else Via(Label(entry, v), own, k.session, Some(v.owner))
  }

  function TableEvents(k: Walk, entry: View, v: View, hops: seq<string>, t: Table, name: string): seq<Event> {
    (if k.command != Command.Select && (v.invoker ==> k.direct) && k.reach(v, t).paths != {} then [Issue(name)] else [])
    + RecordIf(name, DoorCell(k, entry, v, t), ViewPath(entry, hops + [name]))
  }

  /** The walk over the relations a view names; `seen` holds the views on the path to here. */
  function WalkRefs(k: Walk, v: View, refs: seq<string>, hops: seq<string>, entry: View, seen: set<string>): seq<Event>
    decreases k.cat.views.Keys - seen, |refs|
  {
    if refs == [] then []
    else
      RefEvents(k, v, refs[0], hops, entry, seen) + WalkRefs(k, v, refs[1..], hops, entry, seen)
  }

  function RefEvents(k: Walk, v: View, ref: string, hops: seq<string>, entry: View, seen: set<string>): seq<Event>
    decreases k.cat.views.Keys - seen, 0
  {
    if ref in k.cat.views then
      var child := k.cat.views[ref];
      var on := hops + [child.name];
      if ref in seen then []
      else if child.materialized then
        if k.command == Command.Select then
          Beneath(k, child.references, entry, on, child.name + " is a materialized view", seen + {ref})
        else []
      else match k.readable(v, child)
        case Some(false) => []
        case None => Beneath(k, child.references, entry, on, "role-membership graph not captured", seen + {ref})
        case Some(true) =>
          (if k.command != Command.Select then [Issue(child.name)] else [])
          + WalkRefs(k, child, child.references, on, entry, seen + {ref})
    else if ref in k.cat.tables then TableEvents(k, entry, v, hops, k.cat.tables[ref], ref)
    else []
  }

  /**
    Whether the command can be aimed at the view: any view can be read, a write must be one the view
    passes on itself.
   */
  predicate Accepts(k: Walk, v: View) {
    k.command == Command.Select
    || (!v.materialized && k.command !in v.replaced && (v.updatable.Some? ==> k.command in v.updatable.value))
  }

  function StartEvents(k: Walk, v: View): seq<Event> {
    var opens := k.opens(v);
    if !Accepts(k, v) || opens == Some(false) then []
    else if v.materialized then Beneath(k, v.references, v, [v.name], v.name + " is a materialized view", {v.name})
    else if opens == None then Beneath(k, v.references, v, [v.name], "role-membership graph not captured", {v.name})
    else if k.command != Command.Select && v.updatable.None? then
      Beneath(k, v.references, v, [v.name], "whether the view accepts the command was not captured", {v.name})
    else WalkRefs(k, v, v.references, [v.name], v, {v.name})
  }

  function AllEvents(k: Walk, starts: seq<View>): seq<Event> {
    if starts == [] then [] else StartEvents(k, starts[0]) + AllEvents(k, starts[1..])
  }

  // --- view walks of any length ---

  predicate Hop(k: Walk, a: string, b: string) {
    && a in k.cat.views && b in k.cat.views && b in k.cat.views[a].references
    && !k.cat.views[b].materialized && k.readable(k.cat.views[a], k.cat.views[b]) == Some(true)
  }

  /** A chain of views, possibly revisiting some, in which every hop is permitted. */
  predicate IsWalk(k: Walk, p: seq<string>) {
    |p| > 0 && p[0] in k.cat.views && forall i :: 0 < i < |p| ==> Hop(k, p[i - 1], p[i])
  }

  predicate Simple(p: seq<string>) {
    forall i, j :: 0 <= i < j < |p| ==> p[i] != p[j]
  }

  /** Views are catalogued under their names, every owner has a session, and no name is both a view and a table. */
  predicate CatalogWellFormed(cat: Catalog) {
    && (forall n :: n in cat.views ==> cat.views[n].name == n && cat.views[n].owner in cat.owners)
    && cat.views.Keys !! cat.tables.Keys
  }

  /** No materialized view to be read, and every privilege question has an answer. */
  ghost predicate Decided(k: Walk) {
    && (k.command == Command.Select ==> forall n :: n in k.cat.views ==> !k.cat.views[n].materialized)
    && (forall n, m :: n in k.cat.views && m in k.cat.views ==> k.readable(k.cat.views[n], k.cat.views[m]).Some?)
  }

  /** Cutting a loop out of a walk leaves a walk with the same ends. */
  lemma {:induction false} EraseLoops(k: Walk, p: seq<string>) returns (q: seq<string>)
    requires IsWalk(k, p)
    ensures IsWalk(k, q) && Simple(q) && q[0] == p[0] && q[|q| - 1] == p[|p| - 1]
    decreases |p|
  {
    if i, j :| 0 <= i < j < |p| && p[i] == p[j] {
      var cut := p[..i + 1] + p[j + 1..];
      forall n | 0 < n < |cut| ensures Hop(k, cut[n - 1], cut[n]) {
        if n <= i { assert cut[n - 1] == p[n - 1] && cut[n] == p[n]; }
        else if n == i + 1 { assert cut[n - 1] == p[j] && cut[n] == p[j + 1]; }
        else { assert cut[n - 1] == p[n - 1 + j - i] && cut[n] == p[n + j - i]; }
      }
      q := EraseLoops(k, cut);
    } else {
      q := p;
    }
  }

  /** A door recorded at `table` for the walk `path` of views: the hops are the walk, then the table. */
  predicate RecordedAlong(k: Walk, entry: View, e: Event, path: seq<string>, table: string)
    requires IsWalk(k, path) && path[|path| - 1] in k.cat.views
  {
    var last := k.cat.views[path[|path| - 1]];
    && table in last.references && table in k.cat.tables && table !in k.cat.views
    && DoorCell(k, entry, last, k.cat.tables[table]).verdict != Denied
    && e == Record(table, Door(DoorCell(k, entry, last, k.cat.tables[table]), ViewPath(entry, path + [table])))
  }

  lemma WalkEndsInView(k: Walk, p: seq<string>)
    requires IsWalk(k, p)
    ensures p[|p| - 1] in k.cat.views
  {
    if |p| > 1 { assert Hop(k, p[|p| - 2], p[|p| - 1]); }
  }

  lemma {:induction false} RefsContain(k: Walk, v: View, refs: seq<string>, hops: seq<string>, entry: View,
                                       seen: set<string>, e: Event)
    ensures e in WalkRefs(k, v, refs, hops, entry, seen) <==>
            exists ref :: ref in refs && e in RefEvents(k, v, ref, hops, entry, seen)
  {
    if refs != [] {
      RefsContain(k, v, refs[1..], hops, entry, seen, e);
      if ref :| ref in refs && e in RefEvents(k, v, ref, hops, entry, seen) {
        assert ref == refs[0] || ref in refs[1..];
      }
      if ref :| ref in refs[1..] && e in RefEvents(k, v, ref, hops, entry, seen) {
        assert ref in refs;
      }
    }
  }

  lemma ExtendWalk(k: Walk, path: seq<string>, ref: string)
    requires IsWalk(k, path) && Hop(k, path[|path| - 1], ref)
    ensures IsWalk(k, path + [ref]) && (path + [ref])[0] == path[0] && (path + [ref])[|path + [ref]| - 1] == ref
  {
    var longer := path + [ref];
    forall i | 0 < i < |longer| ensures Hop(k, longer[i - 1], longer[i]) {
      if i < |path| { assert longer[i - 1] == path[i - 1] && longer[i] == path[i]; }
    }
  }

  lemma SnocInjective(a: seq<string>, x: string, b: seq<string>, y: string)
    requires a + [x] == b + [y]
    ensures a == b && x == y
  {
    assert |a| == |b| && (a + [x])[|a|] == (b + [y])[|b|];
    assert a == (a + [x])[..|a|] && b == (b + [y])[..|b|];
  }

  lemma {:induction false} BeneathRecords(k: Walk, refs: seq<string>, entry: View, hops: seq<string>, why: string,
                                          seen: set<string>, e: Event)
    requires e in Beneath(k, refs, entry, hops, why, seen) && e.Record?
    ensures e.door.cell.verdict == Undecided
    decreases k.cat.views.Keys - seen, |refs|
  {
    if e in Beneath(k, refs[1..], entry, hops, why, seen) {
      BeneathRecords(k, refs[1..], entry, hops, why, seen, e);
    } else if refs[0] !in seen && refs[0] !in k.cat.tables && refs[0] in k.cat.views {
      BeneathRecords(k, k.cat.views[refs[0]].references, entry, hops, why, seen + {refs[0]}, e);
    }
  }

  /** Nothing spurious: every recorded door lies at the end of a permitted walk, unless it is undecided. */
  lemma {:induction false} RecordsFollowWalks(k: Walk, entry: View, path: seq<string>, seen: set<string>, e: Event)
    returns (full: seq<string>, table: string)
    requires CatalogWellFormed(k.cat) && IsWalk(k, path) && path[|path| - 1] in k.cat.views
    requires var v := k.cat.views[path[|path| - 1]]; e in WalkRefs(k, v, v.references, path, entry, seen)
    requires e.Record? && (Decided(k) || e.door.cell.verdict != Undecided)
    ensures IsWalk(k, full) && full[0] == path[0] && full[|full| - 1] in k.cat.views
            && RecordedAlong(k, entry, e, full, table)
    decreases k.cat.views.Keys - seen
  {
    var v := k.cat.views[path[|path| - 1]];
    RefsContain(k, v, v.references, path, entry, seen, e);
    var ref :| ref in v.references && e in RefEvents(k, v, ref, path, entry, seen);
    if ref in k.cat.views {
      HopTaken(k, entry, v, ref, path, seen, e);
      ExtendWalk(k, path, ref);
      full, table := RecordsFollowWalks(k, entry, path + [ref], seen + {ref}, e);
    } else {
      full, table := path, ref;
      TableRecorded(k, entry, path, ref, seen, e);
    }
  }

  lemma TableRecorded(k: Walk, entry: View, path: seq<string>, ref: string, seen: set<string>, e: Event)
    requires IsWalk(k, path) && path[|path| - 1] in k.cat.views && ref !in k.cat.views
    requires var v := k.cat.views[path[|path| - 1]]; ref in v.references && e in RefEvents(k, v, ref, path, entry, seen)
    requires e.Record?
    ensures RecordedAlong(k, entry, e, path, ref)
  {}

  /** A view from which a door that is not undecided was recorded was entered by a permitted hop. */
  lemma HopTaken(k: Walk, entry: View, v: View, ref: string, path: seq<string>, seen: set<string>, e: Event)
    requires CatalogWellFormed(k.cat) && v.name in k.cat.views && k.cat.views[v.name] == v
    requires ref in v.references && ref in k.cat.views && e in RefEvents(k, v, ref, path, entry, seen)
    requires e.Record? && (Decided(k) || e.door.cell.verdict != Undecided)
    ensures Hop(k, v.name, ref) && ref !in seen
    ensures var child := k.cat.views[ref]; e in WalkRefs(k, child, child.references, path + [ref], entry, seen + {ref})
  {
    var child := k.cat.views[ref];
    assert child.name == ref;
    var on := path + [child.name];
    if child.materialized && k.command == Command.Select {
      BeneathRecords(k, child.references, entry, on, child.name + " is a materialized view", seen + {ref}, e);
    } else if k.readable(v, child) == None {
      BeneathRecords(k, child.references, entry, on, "role-membership graph not captured", seen + {ref}, e);
    }
  }

  lemma HopKeeps(k: Walk, entry: View, v: View, next: string, path: seq<string>, seen: set<string>, e: Event)
    requires CatalogWellFormed(k.cat) && v.name in k.cat.views && k.cat.views[v.name] == v
    requires Hop(k, v.name, next) && next !in seen
    requires var child := k.cat.views[next];
             e in WalkRefs(k, child, child.references, path + [next], entry, seen + {next})
    ensures e in WalkRefs(k, v, v.references, path, entry, seen)
  {
    var child := k.cat.views[next];
    assert child.name == next;
    assert e in RefEvents(k, v, next, path, entry, seen);
    RefsContain(k, v, v.references, path, entry, seen, e);
  }

  lemma WalkPrefix(k: Walk, p: seq<string>, n: nat)
    requires IsWalk(k, p) && 0 < n <= |p|
    ensures IsWalk(k, p[..n]) && p[n - 1] in k.cat.views
  {
    forall i | 0 < i < n ensures Hop(k, p[..n][i - 1], p[..n][i]) { assert Hop(k, p[i - 1], p[i]); }
    WalkEndsInView(k, p[..n]);
  }

  /** The event is found once the search stands at the `n`th view of `p` with the views before it seen. */
  ghost predicate FoundFrom(k: Walk, entry: View, p: seq<string>, n: nat, e: Event)
    requires 0 < n <= |p| && p[n - 1] in k.cat.views
  {
    var v := k.cat.views[p[n - 1]];
    e in WalkRefs(k, v, v.references, p[..n], entry, Elements(p[..n]))
  }

  lemma FoundAtEnd(k: Walk, entry: View, p: seq<string>, table: string, e: Event)
    requires IsWalk(k, p) && p[|p| - 1] in k.cat.views && RecordedAlong(k, entry, e, p, table)
    ensures FoundFrom(k, entry, p, |p|, e)
  {
    var v := k.cat.views[p[|p| - 1]];
    assert p[..|p|] == p;
    assert e in RefEvents(k, v, table, p, entry, Elements(p));
    RefsContain(k, v, v.references, p, entry, Elements(p), e);
  }

  lemma FoundOneEarlier(k: Walk, entry: View, p: seq<string>, n: nat, e: Event)
    requires CatalogWellFormed(k.cat) && IsWalk(k, p) && Simple(p) && 0 < n < |p|
    requires p[n] in k.cat.views && FoundFrom(k, entry, p, n + 1, e)
    ensures p[n - 1] in k.cat.views && FoundFrom(k, entry, p, n, e)
  {
    WalkPrefix(k, p, n);
    assert Hop(k, p[n - 1], p[n]);
    assert p[..n + 1] == p[..n] + [p[n]];
    assert Elements(p[..n + 1]) == Elements(p[..n]) + {p[n]};
    assert p[n] !in Elements(p[..n]);
    HopKeeps(k, entry, k.cat.views[p[n - 1]], p[n], p[..n], Elements(p[..n]), e);
  }

  /** Nothing missed on a simple walk. */
  lemma {:induction false} FoundFromStart(k: Walk, entry: View, p: seq<string>, n: nat, e: Event)
    requires CatalogWellFormed(k.cat) && IsWalk(k, p) && Simple(p) && 0 < n <= |p|
    requires p[n - 1] in k.cat.views && FoundFrom(k, entry, p, n, e)
    ensures p[0] in k.cat.views && FoundFrom(k, entry, p, 1, e)
    decreases n
  {
    if n > 1 {
      FoundOneEarlier(k, entry, p, n - 1, e);
      FoundFromStart(k, entry, p, n - 1, e);
    }
  }

  /** A view whose walk is actually taken from the start. */
  predicate Opens(k: Walk, v: View) {
    && Accepts(k, v) && k.opens(v) == Some(true) && !v.materialized
    && (k.command != Command.Select ==> v.updatable.Some?)
  }

  /** Whether some walk of permitted hops, of any length, leads from `v` through `last` to a door at `table`. */
  ghost predicate ReachableDoor(k: Walk, v: View, last: string, table: string) {
    exists p :: IsWalk(k, p) && p[0] == v.name && p[|p| - 1] == last && last in k.cat.views
      && table in k.cat.views[last].references && table in k.cat.tables
      && DoorCell(k, v, k.cat.views[last], k.cat.tables[table]).verdict != Denied
  }

  /** Whether the search recorded a door at `table` whose last view is `last`, with the cell that view gives. */
  ghost predicate RecordedDoor(k: Walk, v: View, last: string, table: string) {
    exists hops :: |hops| > 0 && hops[|hops| - 1] == last && last in k.cat.views && table in k.cat.tables
      && DoorEvent(k, v, last, table, hops) in StartEvents(k, v)
  }

  function DoorEvent(k: Walk, v: View, last: string, table: string, hops: seq<string>): Event
    requires last in k.cat.views && table in k.cat.tables
  {
    Record(table, Door(DoorCell(k, v, k.cat.views[last], k.cat.tables[table]), ViewPath(v, hops + [table])))
  }

  lemma RecordedIsReachable(k: Walk, v: View, last: string, table: string, hops: seq<string>)
    requires CatalogWellFormed(k.cat) && Decided(k) && v.name in k.cat.views && k.cat.views[v.name] == v
    requires |hops| > 0 && hops[|hops| - 1] == last && last in k.cat.views && table in k.cat.tables
    requires DoorEvent(k, v, last, table, hops) in WalkRefs(k, v, v.references, [v.name], v, {v.name})
    ensures ReachableDoor(k, v, last, table)
  {
    assert IsWalk(k, [v.name]);
    var full, t := RecordsFollowWalks(k, v, [v.name], {v.name}, DoorEvent(k, v, last, table, hops));
    SnocInjective(full, t, hops, table);
  }

  lemma ReachableIsRecorded(k: Walk, v: View, last: string, table: string, p: seq<string>)
    requires CatalogWellFormed(k.cat) && v.name in k.cat.views && k.cat.views[v.name] == v
    requires IsWalk(k, p) && p[0] == v.name && p[|p| - 1] == last && last in k.cat.views
    requires table in k.cat.views[last].references && table in k.cat.tables
    requires DoorCell(k, v, k.cat.views[last], k.cat.tables[table]).verdict != Denied
    ensures exists hops :: |hops| > 0 && hops[|hops| - 1] == last
              && DoorEvent(k, v, last, table, hops) in WalkRefs(k, v, v.references, [v.name], v, {v.name})
  {
    var q := EraseLoops(k, p);
    var e := DoorEvent(k, v, last, table, q);
    FoundAtEnd(k, v, q, table, e);
    FoundFromStart(k, v, q, |q|, e);
    assert q[..1] == [v.name] && Elements([v.name]) == {v.name};
  }

  /**
    The search follows only simple view paths, on cyclic view graphs too, and misses nothing: a
    door is recorded exactly when some permitted walk of any length leads to it.
   */
  lemma SimplePathsSuffice(k: Walk, v: View, last: string, table: string)
    requires CatalogWellFormed(k.cat) && Decided(k) && v.name in k.cat.views && k.cat.views[v.name] == v && Opens(k, v)
    ensures RecordedDoor(k, v, last, table) <==> ReachableDoor(k, v, last, table)
  {
    if RecordedDoor(k, v, last, table) {
      var hops :| |hops| > 0 && hops[|hops| - 1] == last && last in k.cat.views && table in k.cat.tables
        && DoorEvent(k, v, last, table, hops) in StartEvents(k, v);
      RecordedIsReachable(k, v, last, table, hops);
    }
    if ReachableDoor(k, v, last, table) {
      var p :| IsWalk(k, p) && p[0] == v.name && p[|p| - 1] == last && last in k.cat.views
        && table in k.cat.views[last].references && table in k.cat.tables
        && DoorCell(k, v, k.cat.views[last], k.cat.tables[table]).verdict != Denied;
      ReachableIsRecorded(k, v, last, table, p);
    }
  }

  /** With the graph captured and no materialized views to be read, every principal's walk is decided. */
  lemma KnownGraphDecides(cat: Catalog, me: Session, c: Command, direct: bool, session: Option<string>)
    requires c == Command.Select ==> forall n :: n in cat.views ==> !cat.views[n].materialized
    requires me.closure.Some? && forall o :: o in cat.owners ==> cat.owners[o].closure.Some?
    ensures Decided(WalkOf(cat, me, c, direct, session))
  {}

  // --- the walk run in place ---

  function Collect(found: map<string, seq<Door>>, events: seq<Event>): map<string, seq<Door>>
    decreases |events|
  {
    if events == [] then found
    else
      var e := events[0];
      Collect(if e.Record? then found[e.table := (if e.table in found then found[e.table] else []) + [e.door]]
          else found,
              events[1..])
  }

  function Issued(events: seq<Event>, c: Command): set<Spot> {
    set e | e in events && e.Issue? :: Spot(e.rel, c)
  }

  lemma {:induction false} CollectConcat(found: map<string, seq<Door>>, a: seq<Event>, b: seq<Event>)
    ensures Collect(found, a + b) == Collect(Collect(found, a), b)
    decreases |a|
  {
    if a == [] {
      assert a + b == b;
    } else {
      var e := a[0];
      assert (a + b)[1..] == a[1..] + b;
      CollectConcat(if e.Record? then found[e.table := (if e.table in found then found[e.table] else []) + [e.door]]
          else found,
                    a[1..], b);
    }
  }

  class Search {
    const k: Walk
    var found: map<string, seq<Door>>
    var issued: set<Spot>

    constructor (k: Walk)
      ensures this.k == k && found == map[] && issued == {}
    {
      this.k := k;
      found := map[];
      issued := {};
    }

    /** Keep a door that is not denied. */
    method Keep(table: string, cell: Cell, path: AccessPath)
      modifies this
      ensures found == Collect(old(found), RecordIf(table, cell, path)) && issued == old(issued)
    {
      if cell.verdict != Denied {
        found := found[table := (if table in found then found[table] else []) + [Door(cell, path)]];
        assert [Record(table, Door(cell, path))][1..] == [];
      }
    }

    method MarkBeneath(refs: seq<string>, entry: View, hops: seq<string>, why: string, seen: set<string>)
      modifies this
      ensures found == Collect(old(found), Beneath(k, refs, entry, hops, why, seen)) && issued == old(issued)
      decreases k.cat.views.Keys - seen, |refs|
    {
      if refs != [] {
        var ref := refs[0];
        ghost var head: seq<Event> := [];
        if ref in seen {
        } else if ref in k.cat.tables {
          head := RecordIf(ref, Cell(Undecided, None, Some(why), k.session, None), ViewPath(entry, hops + [ref]));
          Keep(ref, Cell(Undecided, None, Some(why), k.session, None), ViewPath(entry, hops + [ref]));
        } else if ref in k.cat.views {
          head := Beneath(k, k.cat.views[ref].references, entry, hops, why, seen + {ref});
          MarkBeneath(k.cat.views[ref].references, entry, hops, why, seen + {ref});
        }
        CollectConcat(old(found), head, Beneath(k, refs[1..], entry, hops, why, seen));
        MarkBeneath(refs[1..], entry, hops, why, seen);
      }
    }

    method VisitTable(v: View, name: string, t: Table, hops: seq<string>, entry: View)
      modifies this
      ensures found == Collect(old(found), TableEvents(k, entry, v, hops, t, name))
      ensures issued == old(issued) + Issued(TableEvents(k, entry, v, hops, t, name), k.command)
    {
      var path := ViewPath(entry, hops + [name]);
      ghost var head: seq<Event> := [];
      if v.invoker && !k.direct {
        // nothing new: the principal could do this without the view
      } else {
        var reached := k.reach(v, t);
        if reached.paths != {} && k.command != Command.Select {
          head := [Issue(name)];
          assert head[1..] == [];
          issued := issued + {Spot(name, k.command)};
        }
        Keep(name, DoorCell(k, entry, v, t), path);
      }
      CollectConcat(old(found), head, RecordIf(name, DoorCell(k, entry, v, t), path));
    }

    method Visit(v: View, refs: seq<string>, hops: seq<string>, entry: View, seen: set<string>)
      modifies this
      ensures found == Collect(old(found), WalkRefs(k, v, refs, hops, entry, seen))
      ensures issued == old(issued) + Issued(WalkRefs(k, v, refs, hops, entry, seen), k.command)
      decreases k.cat.views.Keys - seen, |refs|
    {
      if refs != [] {
        VisitRef(v, refs[0], hops, entry, seen);
        Visit(v, refs[1..], hops, entry, seen);
        CollectConcat(old(found), RefEvents(k, v, refs[0], hops, entry, seen),
            WalkRefs(k, v, refs[1..], hops, entry, seen));
      }
    }

    method VisitRef(v: View, ref: string, hops: seq<string>, entry: View, seen: set<string>)
      modifies this
      ensures found == Collect(old(found), RefEvents(k, v, ref, hops, entry, seen))
      ensures issued == old(issued) + Issued(RefEvents(k, v, ref, hops, entry, seen), k.command)
      decreases k.cat.views.Keys - seen, 0
    {
      if ref in k.cat.views {
        var child := k.cat.views[ref];
        var on := hops + [child.name];
        if ref in seen {
          return;
        }
        if child.materialized {
          if k.command == Command.Select {
            BeneathOnlyRecords(k, child.references, entry, on, child.name + " is a materialized view", seen + {ref});
            MarkBeneath(child.references, entry, on, child.name + " is a materialized view", seen + {ref});
          }
          return;
        }
        var readable := k.readable(v, child);
        if readable == Some(false) {
          return;
        }
        if readable == None {
          BeneathOnlyRecords(k, child.references, entry, on, "role-membership graph not captured", seen + {ref});
          MarkBeneath(child.references, entry, on, "role-membership graph not captured", seen + {ref});
          return;
        }
        ghost var head: seq<Event> := [];
        if k.command != Command.Select {
          head := [Issue(child.name)];
          assert head[1..] == [];
          issued := issued + {Spot(child.name, k.command)};
        }
        Visit(child, child.references, on, entry, seen + {ref});
        CollectConcat(old(found), head, WalkRefs(k, child, child.references, on, entry, seen + {ref}));
      } else if ref in k.cat.tables {
        VisitTable(v, ref, k.cat.tables[ref], hops, entry);
      }
    }

    /** Walk from one view, unless the principal cannot start there or the outcome is unknown from the start. */
    method Start(v: View)
      modifies this
      ensures found == Collect(old(found), StartEvents(k, v))
      ensures issued == old(issued) + Issued(StartEvents(k, v), k.command)
    {
      if k.command != Command.Select {
        if v.materialized || k.command in v.replaced {
          return;
        }
        if v.updatable.Some? && k.command !in v.updatable.value {
          return;
        }
      }
      var opens := k.opens(v);
      if opens == Some(false) {
        return;
      }
      var why := if v.materialized then v.name + " is a materialized view"
                 else if opens == None then "role-membership graph not captured"
                 else "whether the view accepts the command was not captured";
      BeneathOnlyRecords(k, v.references, v, [v.name], why, {v.name});
      if v.materialized || opens == None || (k.command != Command.Select && v.updatable.None?) {
        MarkBeneath(v.references, v, [v.name], why, {v.name});
      } else {
        Visit(v, v.references, [v.name], v, {v.name});
      }
    }

    /** Every door found from the views the walk may start at, in order. */
    method Run(starts: seq<View>)
      modifies this
      ensures found == Collect(old(found), AllEvents(k, starts))
      ensures issued == old(issued) + Issued(AllEvents(k, starts), k.command)
    {
      for i := 0 to |starts|
        invariant found == Collect(old(found), AllEvents(k, starts[..i]))
        invariant issued == old(issued) + Issued(AllEvents(k, starts[..i]), k.command)
      {
        OneMoreStart(k, starts, i, old(found));
        Start(starts[i]);
      }
      assert starts[..|starts|] == starts;
    }
  }

  lemma {:induction false} AllEventsSnoc(k: Walk, starts: seq<View>, v: View)
    ensures AllEvents(k, starts + [v]) == AllEvents(k, starts) + StartEvents(k, v)
  {
    if starts == [] {
      assert starts + [v] == [v] && [v][1..] == [];
    } else {
      assert (starts + [v])[1..] == starts[1..] + [v];
      AllEventsSnoc(k, starts[1..], v);
    }
  }

  lemma OneMoreStart(k: Walk, starts: seq<View>, i: nat, found: map<string, seq<Door>>)
    requires i < |starts|
    ensures var done, more := AllEvents(k, starts[..i]), StartEvents(k, starts[i]);
            && Collect(found, AllEvents(k, starts[..i + 1])) == Collect(Collect(found, done), more)
            && Issued(AllEvents(k, starts[..i + 1]), k.command) == Issued(done, k.command) + Issued(more, k.command)
  {
    assert starts[..i + 1] == starts[..i] + [starts[i]];
    AllEventsSnoc(k, starts[..i], starts[i]);
    CollectConcat(found, AllEvents(k, starts[..i]), StartEvents(k, starts[i]));
  }

  lemma {:induction false} BeneathOnlyRecords(k: Walk, refs: seq<string>, entry: View, hops: seq<string>,
                                              why: string, seen: set<string>)
    ensures Issued(Beneath(k, refs, entry, hops, why, seen), k.command) == {}
    decreases k.cat.views.Keys - seen, |refs|
  {
    if refs != [] {
      if refs[0] !in seen && refs[0] !in k.cat.tables && refs[0] in k.cat.views {
        BeneathOnlyRecords(k, k.cat.views[refs[0]].references, entry, hops, why, seen + {refs[0]});
      }
      BeneathOnlyRecords(k, refs[1..], entry, hops, why, seen);
    }
  }

  // --- what the search returns ---

  lemma {:induction false} CollectMembers(found: map<string, seq<Door>>, events: seq<Event>, table: string, d: Door)
    ensures var after := Collect(found, events);
            (table in after && d in after[table]) <==>
                (table in found && d in found[table]) || Record(table, d) in events
    decreases |events|
  {
    if events != [] {
      var e := events[0];
      assert Record(table, d) in events <==> e == Record(table, d) || Record(table, d) in events[1..];
      CollectMembers(if e.Record? then found[e.table := (if e.table in found then found[e.table] else []) + [e.door]]
          else found,
                     events[1..], table, d);
    }
  }

  lemma {:induction false} AllEventsMembers(k: Walk, starts: seq<View>, e: Event)
    ensures e in AllEvents(k, starts) <==> exists v :: v in starts && e in StartEvents(k, v)
  {
    if starts != [] {
      AllEventsMembers(k, starts[1..], e);
      assert forall v :: v in starts <==> v == starts[0] || v in starts[1..];
    }
  }

  /** Views the principal may or may not start from, but never an unknown. */
  predicate StartsDecided(k: Walk, starts: seq<View>) {
    forall v :: v in starts ==>
      && v.name in k.cat.views && k.cat.views[v.name] == v
      && k.opens(v).Some? && (k.command != Command.Select ==> v.updatable.Some?)
  }

  lemma OpensOrNothing(k: Walk, v: View)
    requires Decided(k) && StartsDecided(k, [v])
    ensures Opens(k, v) <==> Accepts(k, v) && k.opens(v) == Some(true)
    ensures !Opens(k, v) ==> StartEvents(k, v) == []
  {
    assert v in [v];
    var answer := k.opens(v).value;
    assert k.opens(v) == Some(answer);
  }

  lemma RecordNamesItsStart(k: Walk, v: View, entry: View, last: string, table: string, hops: seq<string>)
    requires CatalogWellFormed(k.cat) && Decided(k) && StartsDecided(k, [v, entry])
    requires last in k.cat.views && table in k.cat.tables && DoorEvent(k, entry, last, table, hops) in StartEvents(k, v)
    ensures v == entry && Opens(k, v)
  {
    assert v in [v, entry] && entry in [v, entry];
    OpensOrNothing(k, v);
    assert IsWalk(k, [v.name]);
    var full, t := RecordsFollowWalks(k, v, [v.name], {v.name}, DoorEvent(k, entry, last, table, hops));
  }

  /**
    With every question decided, the doors returned for a table are exactly those some permitted
    walk of views reaches it by, from a view that takes the command and that the principal may open.
   */
  lemma SearchExact(k: Walk, starts: seq<View>, entry: View, last: string, table: string)
    requires CatalogWellFormed(k.cat) && Decided(k)
    requires StartsDecided(k, starts + [entry]) && last in k.cat.views && table in k.cat.tables
    ensures var found := Collect(map[], AllEvents(k, starts));
            (exists hops :: |hops| > 0 && hops[|hops| - 1] == last && table in found
               && DoorEvent(k, entry, last, table, hops).door in found[table])
            <==>
            entry in starts && Accepts(k, entry) && k.opens(entry) == Some(true) && ReachableDoor(k, entry, last, table)
  {
    var found := Collect(map[], AllEvents(k, starts));
    assert entry in starts + [entry] && forall v :: v in starts ==> v in starts + [entry];
    forall hops
      ensures (table in found && DoorEvent(k, entry, last, table, hops).door in found[table])
              <==> entry in starts && DoorEvent(k, entry, last, table, hops) in StartEvents(k, entry)
    {
      var e := DoorEvent(k, entry, last, table, hops);
      CollectMembers(map[], AllEvents(k, starts), table, e.door);
      AllEventsMembers(k, starts, e);
      if v :| v in starts && e in StartEvents(k, v) {
        RecordNamesItsStart(k, v, entry, last, table, hops);
      }
    }
    OpensOrNothing(k, entry);
    if Opens(k, entry) {
      SimplePathsSuffice(k, entry, last, table);
    }
  }

  /** The views the principal starts from are catalogued ones. */
  predicate StartsCatalogued(cat: Catalog, starts: seq<View>) {
    forall v :: v in starts ==> v.name in cat.views && cat.views[v.name] == v
  }

  /** Some permitted walk from a view the principal may start at ends in `last`, which names the table. */
  ghost predicate Leads(k: Walk, starts: seq<View>, entry: View, last: string, table: string) {
    && entry in starts && Opens(k, entry)
    && exists p :: IsWalk(k, p) && p[0] == entry.name && p[|p| - 1] == last && last in k.cat.views
         && table in k.cat.views[last].references && table in k.cat.tables
  }

  /** Whatever is recorded and not undecided is the cell some permitted walk leads to. */
  lemma RecordLeads(k: Walk, starts: seq<View>, table: string, door: Door) returns (entry: View, last: string)
    requires CatalogWellFormed(k.cat) && StartsCatalogued(k.cat, starts)
    requires Record(table, door) in AllEvents(k, starts) && door.cell.verdict != Undecided
    ensures Leads(k, starts, entry, last, table) && last in k.cat.views && table in k.cat.tables
    ensures door.cell == DoorCell(k, entry, k.cat.views[last], k.cat.tables[table])
  {
    var e := Record(table, door);
    AllEventsMembers(k, starts, e);
    entry :| entry in starts && e in StartEvents(k, entry);
    StartTaken(k, entry, e);
    assert IsWalk(k, [entry.name]);
    var full, at := RecordsFollowWalks(k, entry, [entry.name], {entry.name}, e);
    last := full[|full| - 1];
    assert at == table;
  }

  lemma StartTaken(k: Walk, v: View, e: Event)
    requires e in StartEvents(k, v) && e.Record? && e.door.cell.verdict != Undecided
    ensures Opens(k, v) && e in WalkRefs(k, v, v.references, [v.name], v, {v.name})
  {
    if v.materialized {
      BeneathRecords(k, v.references, v, [v.name], v.name + " is a materialized view", {v.name}, e);
    } else if k.opens(v) == None {
      BeneathRecords(k, v.references, v, [v.name], "role-membership graph not captured", {v.name}, e);
    } else if k.command != Command.Select && v.updatable.None? {
      BeneathRecords(k, v.references, v, [v.name], "whether the view accepts the command was not captured", {v.name},
          e);
    } else {
      var answer := k.opens(v).value;
      assert k.opens(v) == Some(answer);
    }
  }

  /** And every cell a permitted walk leads to is recorded, unless it is a denial. */
  lemma LeadsIsRecorded(k: Walk, starts: seq<View>, entry: View, last: string, table: string) returns (door: Door)
    requires CatalogWellFormed(k.cat) && StartsCatalogued(k.cat, starts) && Leads(k, starts, entry, last, table)
    requires last in k.cat.views && table in k.cat.tables
    requires DoorCell(k, entry, k.cat.views[last], k.cat.tables[table]).verdict != Denied
    ensures Record(table, door) in AllEvents(k, starts)
    ensures door.cell == DoorCell(k, entry, k.cat.views[last], k.cat.tables[table])
  {
    var p :| IsWalk(k, p) && p[0] == entry.name && p[|p| - 1] == last && table in k.cat.views[last].references;
    ReachableIsRecorded(k, entry, last, table, p);
    var hops :| |hops| > 0 && DoorEvent(k, entry, last, table, hops) in WalkRefs(k, entry, entry.references,
        [entry.name], entry, {entry.name});
    door := DoorEvent(k, entry, last, table, hops).door;
    AllEventsMembers(k, starts, DoorEvent(k, entry, last, table, hops));
  }

  // --- what cannot be decided ---

  /** The walk for which every question that has no answer is answered with yes. */
  function Lenient(k: Walk): Walk {
    k.(opens := (v: View) => Some(k.opens(v) != Some(false)),
       readable := (v: View, child: View) => Some(k.readable(v, child) != Some(false)))
  }

  function BeneathRef(k: Walk, ref: string, entry: View, hops: seq<string>, why: string,
                      seen: set<string>): seq<Event> {
    if ref in seen then []
    else if ref in k.cat.tables then RecordIf(ref, Cell(Undecided, None, Some(why), k.session, None),
        ViewPath(entry, hops + [ref]))
    else if ref in k.cat.views then Beneath(k, k.cat.views[ref].references, entry, hops, why, seen + {ref})
    else []
  }

  lemma {:induction false} BeneathContains(k: Walk, refs: seq<string>, entry: View, hops: seq<string>, why: string,
                                           seen: set<string>, ref: string, e: Event)
    requires ref in refs && e in BeneathRef(k, ref, entry, hops, why, seen)
    ensures e in Beneath(k, refs, entry, hops, why, seen)
  {
    if ref != refs[0] { BeneathContains(k, refs[1..], entry, hops, why, seen, ref, e); }
  }

  function Mark(k: Walk, entry: View, table: string, hops: seq<string>, why: string): Event {
    Record(table, Door(Cell(Undecided, None, Some(why), k.session, None), ViewPath(entry, hops + [table])))
  }

  /** Each is a view that names the next. */
  predicate Names(k: Walk, p: seq<string>) {
    |p| > 0 && (forall x :: x in p ==> x in k.cat.views) && forall i :: 0 < i < |p| ==>
        p[i] in k.cat.views[p[i - 1]].references
  }

  /** A table at the end of a chain of views is marked from the start of it. */
  lemma {:induction false} ChainIsMarked(k: Walk, p: seq<string>, table: string, entry: View, hops: seq<string>,
                                         why: string, seen: set<string>)
    requires CatalogWellFormed(k.cat) && Names(k, p) && Simple(p) && seen <= k.cat.views.Keys
    requires (forall i :: 0 < i < |p| ==> p[i] !in seen) && table in k.cat.tables
             && table in k.cat.views[p[|p| - 1]].references
    ensures Mark(k, entry, table, hops, why) in Beneath(k, k.cat.views[p[0]].references, entry, hops, why, seen)
    decreases |p|
  {
    var e := Mark(k, entry, table, hops, why);
    if |p| == 1 {
      BeneathContains(k, k.cat.views[p[0]].references, entry, hops, why, seen, table, e);
    } else {
      var q := p[1..];
      assert forall i :: 0 <= i < |q| ==> q[i] == p[i + 1];
      ChainIsMarked(k, q, table, entry, hops, why, seen + {p[1]});
      BeneathContains(k, k.cat.views[p[0]].references, entry, hops, why, seen, p[1], e);
    }
  }

  /** The event records the table, undecided or with the cell the last view gives. */
  predicate Covers(k: Walk, entry: View, last: View, table: string, e: Event)
    requires table in k.cat.tables
  {
    e.Record? && e.table == table && (e.door.cell.verdict == Undecided
        || e.door.cell == DoorCell(k, entry, last, k.cat.tables[table]))
  }

  /** One more hop back: whether it is decided or not, what covers the table further on is found from here. */
  lemma CoveredOneEarlier(k: Walk, entry: View, p: seq<string>, table: string, n: nat, e: Event) returns (f: Event)
    requires CatalogWellFormed(k.cat) && IsWalk(Lenient(k), p) && Simple(p) && Names(k, p) && 0 < n < |p|
    requires table in k.cat.tables && table in k.cat.views[p[|p| - 1]].references
    requires FoundFrom(k, entry, p, n + 1, e) && Covers(k, entry, k.cat.views[p[|p| - 1]], table, e)
    ensures FoundFrom(k, entry, p, n, f) && Covers(k, entry, k.cat.views[p[|p| - 1]], table, f)
  {
    var v, child, seen := k.cat.views[p[n - 1]], k.cat.views[p[n]], Elements(p[..n]);
    assert Hop(Lenient(k), p[n - 1], p[n]);
    assert v.name == p[n - 1] && child.name == p[n];
    f := e;
    if k.readable(v, child).Some? {
      var answer := k.readable(v, child).value;
      assert k.readable(v, child) == Some(answer);
      assert p[..n + 1] == p[..n] + [p[n]] && Elements(p[..n + 1]) == seen + {p[n]};
      HopKeeps(k, entry, v, p[n], p[..n], seen, e);
    } else {
      var q, on, why := p[n..], p[..n] + [child.name], "role-membership graph not captured";
      assert forall i :: 0 <= i < |q| ==> q[i] == p[n + i];
      f := Mark(k, entry, table, on, why);
      ChainIsMarked(k, q, table, entry, on, why, seen + {p[n]});
      assert f in RefEvents(k, v, p[n], p[..n], entry, seen);
      RefsContain(k, v, v.references, p[..n], entry, seen, f);
    }
  }

  lemma {:induction false} CoveredFromStart(k: Walk, entry: View, p: seq<string>, table: string, n: nat, e: Event)
      returns (f: Event)
    requires CatalogWellFormed(k.cat) && IsWalk(Lenient(k), p) && Simple(p) && Names(k, p) && 0 < n <= |p|
    requires table in k.cat.tables && table in k.cat.views[p[|p| - 1]].references
    requires FoundFrom(k, entry, p, n, e) && Covers(k, entry, k.cat.views[p[|p| - 1]], table, e)
    ensures FoundFrom(k, entry, p, 1, f) && Covers(k, entry, k.cat.views[p[|p| - 1]], table, f)
    decreases n
  {
    f := e;
    if n > 1 {
      f := CoveredOneEarlier(k, entry, p, table, n - 1, e);
      f := CoveredFromStart(k, entry, p, table, n - 1, f);
    }
  }

  lemma LenientNames(k: Walk, p: seq<string>)
    requires IsWalk(Lenient(k), p)
    ensures Names(k, p)
  {
    forall x | x in p ensures x in k.cat.views {
      var i :| 0 <= i < |p| && p[i] == x;
      if i > 0 { assert Hop(Lenient(k), p[i - 1], p[i]); }
    }
    assert forall i :: 0 < i < |p| ==> Hop(Lenient(k), p[i - 1], p[i]);
  }

  /**
    With questions open, no table is missed that some way of answering them leads to: it is
    recorded, undecided or with the cell of the view that names it, unless that is a denial.
   */
  lemma LeadsIsCovered(k: Walk, starts: seq<View>, entry: View, last: string, table: string) returns (door: Door)
    requires CatalogWellFormed(k.cat) && StartsCatalogued(k.cat, starts)
             && Leads(Lenient(k), starts, entry, last, table)
    requires last in k.cat.views && table in k.cat.tables
    requires DoorCell(k, entry, k.cat.views[last], k.cat.tables[table]).verdict != Denied
    ensures Record(table, door) in AllEvents(k, starts)
    ensures door.cell.verdict == Undecided || door.cell == DoorCell(k, entry, k.cat.views[last], k.cat.tables[table])
  {
    var p :| IsWalk(Lenient(k), p) && p[0] == entry.name && p[|p| - 1] == last && table in k.cat.views[last].references;
    var q := EraseLoops(Lenient(k), p);
    LenientNames(k, q);
    var f := CoveredStart(k, entry, q, table);
    AllEventsMembers(k, starts, f);
    door := f.door;
  }

  lemma CoveredStart(k: Walk, entry: View, p: seq<string>, table: string) returns (f: Event)
    requires CatalogWellFormed(k.cat) && entry.name in k.cat.views && k.cat.views[entry.name] == entry
             && Opens(Lenient(k), entry)
    requires IsWalk(Lenient(k), p) && Simple(p) && Names(k, p) && p[0] == entry.name
    requires table in k.cat.tables && table in k.cat.views[p[|p| - 1]].references
    requires DoorCell(k, entry, k.cat.views[p[|p| - 1]], k.cat.tables[table]).verdict != Denied
    ensures f in StartEvents(k, entry) && Covers(k, entry, k.cat.views[p[|p| - 1]], table, f)
  {
    if k.opens(entry).Some? {
      var answer := k.opens(entry).value;
      assert k.opens(entry) == Some(answer);
      var last := k.cat.views[p[|p| - 1]];
      f := DoorEvent(k, entry, p[|p| - 1], table, p);
      assert p[..|p|] == p && f in RefEvents(k, last, table, p, entry, Elements(p));
      RefsContain(k, last, last.references, p, entry, Elements(p), f);
      f := CoveredFromStart(k, entry, p, table, |p|, f);
      assert p[..1] == [entry.name] && Elements([entry.name]) == {entry.name};
    } else {
      var why := "role-membership graph not captured";
      f := Mark(k, entry, table, [entry.name], why);
      ChainIsMarked(k, p, table, entry, [entry.name], why, {entry.name});
    }
  }
}
