/**
  The search for a foreign key that keeps a role from truncating a table: the statement has to
  take every referencing table along, by naming it or something above it. The search is greedy;
  it is compared with the statements the role may run at all.
 */
module TruncateBlocker {
  import opened Prelude
  import opened Hierarchy
  import C = Context

  /** Whether the role may truncate a table; None when that turns on a missing membership graph. */
  type Can = string -> Option<bool>

  /** `Clear` keeps what the statement would empty. */
  datatype Outcome = Clear(emptied: seq<string>) | Blocked(table: string, unknown: bool)

  function Above(ancestors: Links, t: string): seq<string> {
    [t] + At(ancestors, t)
  }

  /** The first candidate the role may truncate. */
  function Choose(candidates: seq<string>, can: Can): Option<string> {
    if candidates == [] then None
    else if can(candidates[0]) == Some(true) then Some(candidates[0])
    else Choose(candidates[1..], can)
  }

  predicate AnyUnknown(candidates: seq<string>, can: Can) {
    exists c :: c in candidates && can(c) == None
  }

  function World(g: Graph, ancestors: Links): set<string> {
    g.Names() + Named(ancestors)
  }

  /** The worklist: `emptied` so far, `todo` with references still unread, `refs` of the table popped last. */
  function Walk(g: Graph, ancestors: Links, can: Can, emptied: seq<string>, todo: seq<string>,
                refs: seq<string>): Outcome
    requires Elements(refs) <= g.Names()
    decreases World(g, ancestors) - Elements(emptied), |todo|, |refs|
  {
    if refs != [] then
      if refs[0] in emptied then Walk(g, ancestors, can, emptied, todo, refs[1..])
      else
        var candidates := Above(ancestors, refs[0]);
        var chosen := Choose(candidates, can);
        if chosen.None? then Blocked(refs[0], AnyUnknown(candidates, can))
        else
          var next := AddNew(g.Subtree(chosen.value), emptied);
          AddNewElements(g.Subtree(chosen.value), emptied);
          ChosenNamed(g, ancestors, can, refs[0], chosen.value);
          Walk(g, ancestors, can, next, todo + next[|emptied|..], refs[1..])
    else if todo != [] then
      Walk(g, ancestors, can, emptied, todo[..|todo| - 1], At(g.referencing, todo[|todo| - 1]))
    else Clear(emptied)
  }

  lemma {:induction false} ChooseFinds(candidates: seq<string>, can: Can)
    ensures var r := Choose(candidates, can);
            && (r.Some? ==> can(r.value) == Some(true) && r.value in candidates)
            && (r.Some? ==> exists i :: 0 <= i < |candidates| && candidates[i] == r.value
                              && forall j :: 0 <= j < i ==> can(candidates[j]) != Some(true))
            && (r.None? ==> forall c :: c in candidates ==> can(c) != Some(true))
  {
    if candidates != [] {
      ChooseFinds(candidates[1..], can);
      var r := Choose(candidates, can);
      if r.Some? && can(candidates[0]) != Some(true) {
        var i :| 0 <= i < |candidates[1..]| && candidates[1..][i] == r.value
                 && forall j :: 0 <= j < i ==> can(candidates[1..][j]) != Some(true);
        forall j | 0 <= j < i + 1 ensures can(candidates[j]) != Some(true) {
          if j > 0 { assert candidates[j] == candidates[1..][j - 1]; }
        }
        assert candidates[i + 1] == r.value;
      }
    }
  }

  lemma ChosenNamed(g: Graph, ancestors: Links, can: Can, ref: string, chosen: string)
    requires ref in g.Names() && Choose(Above(ancestors, ref), can) == Some(chosen)
    ensures chosen in World(g, ancestors) && Elements(g.Subtree(chosen)) <= World(g, ancestors)
  {
    ChooseFinds(Above(ancestors, ref), can);
    SubtreeNamed(g, chosen);
  }

  function Blocker(g: Graph, ancestors: Links, can: Can, table: string): Outcome {
    Walk(g, ancestors, can, g.Subtree(table), g.Subtree(table), [])
  }

  // --- what Postgres requires ---

  /** What a statement naming these tables empties. */
  ghost function Emptied(g: Graph, named: set<string>): set<string> {
    set n, x | n in named && x in g.Subtree(n) :: x
  }

  /** A TRUNCATE statement the role may run that empties `table`. */
  ghost predicate ValidStatement(g: Graph, can: Can, table: string, named: set<string>) {
    && (forall n :: n in named ==> can(n) == Some(true))
    && table in Emptied(g, named)
    && ClosedUnder(g.referencing, Emptied(g, named))
  }

  /** What is listed above a table does have the table beneath it. */
  ghost predicate AncestorsSound(children: Links, ancestors: Links) {
    forall t, a :: a in At(ancestors, t) ==> t in DescendantsOf(children, a)
  }

  ghost predicate WalkInvariant(g: Graph, can: Can, table: string, named: set<string>, emptied: seq<string>,
                                todo: seq<string>, refs: seq<string>) {
    && table in named && (forall n :: n in named ==> can(n) == Some(true))
    && Elements(emptied) == Emptied(g, named)
    && Elements(refs) <= g.Names()
    && (forall x :: x in todo ==> x in emptied)
    && (forall x, r :: x in emptied && r in At(g.referencing, x) ==> r in emptied || x in todo || r in refs)
  }

  lemma EmptiedAdds(g: Graph, named: set<string>, n: string)
    ensures Emptied(g, named + {n}) == Emptied(g, named) + Elements(g.Subtree(n))
  {}

  lemma WalkEmpties(g: Graph, ancestors: Links, can: Can, table: string, named: set<string>, emptied: seq<string>,
                    todo: seq<string>, refs: seq<string>, chosen: string)
    requires AncestorsSound(g.children, ancestors) && WalkInvariant(g, can, table, named, emptied, todo, refs)
             && refs != []
    requires Choose(Above(ancestors, refs[0]), can) == Some(chosen)
    ensures var next := AddNew(g.Subtree(chosen), emptied);
            |emptied| <= |next|
            && WalkInvariant(g, can, table, named + {chosen}, next, todo + next[|emptied|..], refs[1..])
  {
    var next := AddNew(g.Subtree(chosen), emptied);
    AddNewElements(g.Subtree(chosen), emptied);
    ChooseFinds(Above(ancestors, refs[0]), can);
    EmptiedAdds(g, named, chosen);
    assert Elements(next) == Elements(emptied) + Elements(g.Subtree(chosen));
    assert refs[0] in g.Subtree(chosen);
    assert next == emptied + next[|emptied|..];
    forall x, r | x in next && r in At(g.referencing, x)
      ensures r in next || x in todo + next[|emptied|..] || r in refs[1..]
    {
      if x in emptied {
        assert r in emptied || x in todo || r in refs;
        if r in refs { assert r == refs[0] || r in refs[1..]; }
        assert refs[0] in Elements(next);
        if r in emptied { assert r in Elements(next); }
      }
    }
    assert Elements(refs[1..]) <= Elements(refs);
  }

  lemma {:induction false} WalkSound(g: Graph, ancestors: Links, can: Can, table: string, named: set<string>,
                                     emptied: seq<string>, todo: seq<string>, refs: seq<string>)
                                         returns (all: set<string>)
    requires AncestorsSound(g.children, ancestors) && WalkInvariant(g, can, table, named, emptied, todo, refs)
    ensures var r := Walk(g, ancestors, can, emptied, todo, refs);
            r.Clear? ==> WalkInvariant(g, can, table, all, r.emptied, [], [])
    decreases World(g, ancestors) - Elements(emptied), |todo|, |refs|
  {
    all := named;
    if refs != [] {
      assert refs[0] in Elements(refs) && Elements(refs[1..]) <= Elements(refs);
      if refs[0] in emptied {
        WalkInvariantSkips(g, can, table, named, emptied, todo, refs);
        all := WalkSound(g, ancestors, can, table, named, emptied, todo, refs[1..]);
      } else {
        var chosen := Choose(Above(ancestors, refs[0]), can);
        if chosen.Some? {
          WalkEmpties(g, ancestors, can, table, named, emptied, todo, refs, chosen.value);
          AddNewElements(g.Subtree(chosen.value), emptied);
          ChosenNamed(g, ancestors, can, refs[0], chosen.value);
          var next := AddNew(g.Subtree(chosen.value), emptied);
          all := WalkSound(g, ancestors, can, table, named + {chosen.value}, next, todo + next[|emptied|..], refs[1..]);
        }
      }
    } else if todo != [] {
      WalkInvariantPops(g, can, table, named, emptied, todo);
      all := WalkSound(g, ancestors, can, table, named, emptied, todo[..|todo| - 1],
          At(g.referencing, todo[|todo| - 1]));
    }
  }

  lemma WalkInvariantSkips(g: Graph, can: Can, table: string, named: set<string>, emptied: seq<string>,
                           todo: seq<string>, refs: seq<string>)
    requires WalkInvariant(g, can, table, named, emptied, todo, refs) && refs != [] && refs[0] in emptied
    ensures WalkInvariant(g, can, table, named, emptied, todo, refs[1..])
  {
    assert refs == [refs[0]] + refs[1..];
    assert Elements(refs[1..]) <= Elements(refs);
  }

  lemma WalkInvariantPops(g: Graph, can: Can, table: string, named: set<string>, emptied: seq<string>,
                          todo: seq<string>)
    requires WalkInvariant(g, can, table, named, emptied, todo, []) && todo != []
    ensures WalkInvariant(g, can, table, named, emptied, todo[..|todo| - 1], At(g.referencing, todo[|todo| - 1]))
  {
    assert todo == todo[..|todo| - 1] + [todo[|todo| - 1]];
  }

  lemma WalkStarts(g: Graph, can: Can, table: string)
    requires can(table) == Some(true)
    ensures WalkInvariant(g, can, table, {table}, g.Subtree(table), g.Subtree(table), [])
  {
    assert Emptied(g, {table}) == Elements(g.Subtree(table));
  }

  /** If nothing blocks, there is a statement the role may run, and it empties exactly what the walk emptied. */
  lemma ClearMeansValid(g: Graph, ancestors: Links, can: Can, table: string)
    requires AncestorsSound(g.children, ancestors) && can(table) == Some(true)
    ensures var r := Blocker(g, ancestors, can, table);
            r.Clear? ==>
              exists named :: ValidStatement(g, can, table, named) && Elements(r.emptied) == Emptied(g, named)
  {
    WalkStarts(g, can, table);
    var all := WalkSound(g, ancestors, can, table, {table}, g.Subtree(table), g.Subtree(table), []);
    var r := Blocker(g, ancestors, can, table);
    if r.Clear? {
      assert table in g.Subtree(table);
      assert forall x :: x in r.emptied <==> x in Emptied(g, all);
      assert ValidStatement(g, can, table, all);
    }
  }

  // --- exactly when the first candidate is the right one ---

  /**
    Whichever table is referenced from below, the candidate the walk takes for it empties no more
    than any other it could have taken.
   */
  ghost predicate FirstIsLeast(children: Links, ancestors: Links, can: Can) {
    forall ref, n :: can(n) == Some(true) && Beneath(children, n, ref) ==> TakesLeast(children, ancestors, can, ref, n)
  }

  ghost predicate TakesLeast(children: Links, ancestors: Links, can: Can, ref: string, n: string) {
    var r := Choose(Above(ancestors, ref), can);
    r.Some? && Beneath(children, n, r.value)
  }

  lemma SubtreeIsBeneath(g: Graph, a: string, x: string)
    ensures x in g.Subtree(a) <==> Beneath(g.children, a, x)
  {
    DescendantsExact(g.children, a);
    BeneathSelf(g.children, a);
  }

  lemma SubtreeInside(g: Graph, outer: string, inner: string)
    requires Beneath(g.children, outer, inner)
    ensures Elements(g.Subtree(inner)) <= Elements(g.Subtree(outer))
  {
    forall x | x in g.Subtree(inner) ensures x in g.Subtree(outer) {
      SubtreeIsBeneath(g, inner, x);
      SubtreeIsBeneath(g, outer, x);
      BeneathTransitive(g.children, outer, inner, x);
    }
  }

  lemma {:induction false} WalkStaysInside(g: Graph, ancestors: Links, can: Can, table: string, named: set<string>,
                                           emptied: seq<string>, todo: seq<string>, refs: seq<string>)
    requires FirstIsLeast(g.children, ancestors, can) && ValidStatement(g, can, table, named)
    requires Elements(emptied) <= Emptied(g, named) && Elements(refs) <= Emptied(g, named)
    requires Elements(refs) <= g.Names() && Elements(todo) <= Emptied(g, named)
    ensures var r := Walk(g, ancestors, can, emptied, todo, refs);
            r.Clear? && Elements(r.emptied) <= Emptied(g, named)
    decreases World(g, ancestors) - Elements(emptied), |todo|, |refs|
  {
    if refs != [] {
      assert refs[0] in Elements(refs) && Elements(refs[1..]) <= Elements(refs);
      if refs[0] in emptied {
        WalkStaysInside(g, ancestors, can, table, named, emptied, todo, refs[1..]);
      } else {
        ChosenInside(g, ancestors, can, refs[0], named);
        var chosen := Choose(Above(ancestors, refs[0]), can).value;
        var next := AddNew(g.Subtree(chosen), emptied);
        AddNewElements(g.Subtree(chosen), emptied);
        ChosenNamed(g, ancestors, can, refs[0], chosen);
        forall x | x in todo + next[|emptied|..] ensures x in Emptied(g, named) {
          assert x in Elements(todo) || x in Elements(next);
        }
        WalkStaysInside(g, ancestors, can, table, named, next, todo + next[|emptied|..], refs[1..]);
      }
    } else if todo != [] {
      var last := todo[|todo| - 1];
      assert last in Elements(todo);
      forall x | x in todo[..|todo| - 1] ensures x in Emptied(g, named) { assert x in Elements(todo); }
      forall r | r in At(g.referencing, last) ensures r in Emptied(g, named) && r in g.Names() {}
      WalkStaysInside(g, ancestors, can, table, named, emptied, todo[..|todo| - 1], At(g.referencing, last));
    }
  }

  lemma ChosenInside(g: Graph, ancestors: Links, can: Can, ref: string, named: set<string>)
    requires FirstIsLeast(g.children, ancestors, can) && ref in Emptied(g, named)
    requires forall n :: n in named ==> can(n) == Some(true)
    ensures var r := Choose(Above(ancestors, ref), can);
            r.Some? && Elements(g.Subtree(r.value)) <= Emptied(g, named)
  {
    var n :| n in named && ref in g.Subtree(n);
    SubtreeIsBeneath(g, n, ref);
    assert TakesLeast(g.children, ancestors, can, ref, n);
    SubtreeInside(g, n, Choose(Above(ancestors, ref), can).value);
  }

  /** Nothing blocks exactly when some statement the role may run empties the table. */
  ghost predicate Right(g: Graph, ancestors: Links, can: Can, table: string) {
    Blocker(g, ancestors, can, table).Clear? <==> exists named :: ValidStatement(g, can, table, named)
  }

  /** There the walk is right whatever the foreign keys, and what it empties is the least possible. */
  lemma LeastIsRight(g: Graph, ancestors: Links, can: Can, table: string)
    requires AncestorsSound(g.children, ancestors) && FirstIsLeast(g.children, ancestors, can)
             && can(table) == Some(true)
    ensures Right(g, ancestors, can, table)
    ensures var r := Blocker(g, ancestors, can, table);
            r.Clear? ==> forall named :: ValidStatement(g, can, table, named) ==>
                Elements(r.emptied) <= Emptied(g, named)
  {
    ClearMeansValid(g, ancestors, can, table);
    forall named | ValidStatement(g, can, table, named)
      ensures var r := Blocker(g, ancestors, can, table); r.Clear? && Elements(r.emptied) <= Emptied(g, named)
    {
      var n :| n in named && table in g.Subtree(n);
      SubtreeIsBeneath(g, n, table);
      SubtreeInside(g, n, table);
      WalkStaysInside(g, ancestors, can, table, named, g.Subtree(table), g.Subtree(table), []);
    }
  }

  // --- and otherwise some foreign keys make it wrong ---

  /** A table with nothing above or beneath it. */
  predicate Outside(children: Links, ancestors: Links, t: string) {
    At(children, t) == [] && t !in Named(children) && At(ancestors, t) == []
  }

  lemma OutsideAlone(children: Links, ancestors: Links, t: string, other: string)
    requires Outside(children, ancestors, t)
    ensures Beneath(children, t, other) ==> other == t
    ensures Beneath(children, other, t) ==> other == t
  {
    if Beneath(children, t, other) { BeneathStaysInside(children, {t}, t, other); }
    if Beneath(children, other, t) && other != t { BeneathNamed(children, other, t); }
  }

  lemma {:induction false} WalkGrows(g: Graph, ancestors: Links, can: Can, emptied: seq<string>, todo: seq<string>,
                                     refs: seq<string>)
    requires Elements(refs) <= g.Names()
    ensures var r := Walk(g, ancestors, can, emptied, todo, refs); r.Clear? ==> Elements(emptied) <= Elements(r.emptied)
    decreases World(g, ancestors) - Elements(emptied), |todo|, |refs|
  {
    if refs != [] {
      assert refs[0] in Elements(refs) && Elements(refs[1..]) <= Elements(refs);
      var chosen := Choose(Above(ancestors, refs[0]), can);
      if refs[0] in emptied {
        WalkGrows(g, ancestors, can, emptied, todo, refs[1..]);
      } else if chosen.Some? {
        var next := AddNew(g.Subtree(chosen.value), emptied);
        AddNewElements(g.Subtree(chosen.value), emptied);
        ChosenNamed(g, ancestors, can, refs[0], chosen.value);
        WalkGrows(g, ancestors, can, next, todo + next[|emptied|..], refs[1..]);
      }
    } else if todo != [] {
      WalkGrows(g, ancestors, can, emptied, todo[..|todo| - 1], At(g.referencing, todo[|todo| - 1]));
    }
  }

  /** The walk from a lone table whose one reference comes from `ref` takes the first candidate above `ref`. */
  lemma FirstStep(g: Graph, ancestors: Links, can: Can, p: string, ref: string)
    requires g.Subtree(p) == [p] && At(g.referencing, p) == [ref] && ref != p
    ensures var chosen := Choose(Above(ancestors, ref), can);
            var r := Blocker(g, ancestors, can, p);
            r.Clear? ==> chosen.Some? && Elements(g.Subtree(chosen.value)) <= Elements(r.emptied)
  {
    var chosen := Choose(Above(ancestors, ref), can);
    assert ref in At(g.referencing, p) && Elements([ref]) == {ref} && [ref][1..] == [];
    assert [p][..|[p]| - 1] == [] && ref in g.Names();
    assert Blocker(g, ancestors, can, p) == Walk(g, ancestors, can, [p], [], [ref]);
    if chosen.Some? {
      var next := AddNew(g.Subtree(chosen.value), [p]);
      AddNewElements(g.Subtree(chosen.value), [p]);
      WalkGrows(g, ancestors, can, next, [] + next[1..], []);
    }
  }

  /**
    The foreign keys that mislead: `p` is referenced from `ref`, and `y`, which only the first choice
    empties, from `x`.
   */
  function Misleading(p: string, ref: string, y: string, x: string): Links {
    map[y := [x]][p := [ref]]
  }

  lemma Misled(children: Links, ancestors: Links, can: Can, p: string, x: string, ref: string, n: string)
    returns (referencing: Links)
    requires AncestorsSound(children, ancestors)
    requires Outside(children, ancestors, p) && can(p) == Some(true)
    requires Outside(children, ancestors, x) && can(x) != Some(true)
    requires can(n) == Some(true) && Beneath(children, n, ref) && !TakesLeast(children, ancestors, can, ref, n)
    ensures !Right(Graph(children, referencing), ancestors, can, p)
  {
    var chosen := Choose(Above(ancestors, ref), can);
    var y := if chosen.Some? then chosen.value else x;
    referencing := Misleading(p, ref, y, x);
    var g := Graph(children, referencing);
    MisledApart(children, ancestors, can, p, ref, n);
    OutsideAlone(children, ancestors, x, n);
    LoneSubtree(g, ancestors, p);
    MisledBlocks(g, ancestors, can, p, x, ref, y);
    SubtreeIsBeneath(g, n, ref);
    SubtreeIsBeneath(g, n, y);
    MisledHasStatement(g, can, p, x, ref, n, y);
  }

  lemma LoneSubtree(g: Graph, ancestors: Links, p: string)
    requires Outside(g.children, ancestors, p)
    ensures g.Subtree(p) == [p]
  {}

  lemma MisledApart(children: Links, ancestors: Links, can: Can, p: string, ref: string, n: string)
    requires Outside(children, ancestors, p) && can(p) == Some(true) && AncestorsSound(children, ancestors)
    requires Beneath(children, n, ref) && !TakesLeast(children, ancestors, can, ref, n)
    ensures ref != p && n != p && Choose(Above(ancestors, ref), can) != Some(p)
  {
    OutsideAlone(children, ancestors, p, n);
    OutsideAlone(children, ancestors, p, ref);
    ChooseFinds(Above(ancestors, ref), can);
    DescendantsExact(children, p);
  }

  lemma MisledBlocks(g: Graph, ancestors: Links, can: Can, p: string, x: string, ref: string, y: string)
    requires AncestorsSound(g.children, ancestors) && g.Subtree(p) == [p] && can(p) == Some(true)
    requires Outside(g.children, ancestors, x) && can(x) != Some(true)
    requires ref != p && y != p && g.referencing == Misleading(p, ref, y, x)
    requires var chosen := Choose(Above(ancestors, ref), can); chosen.Some? ==> chosen.value == y
    ensures !Blocker(g, ancestors, can, p).Clear?
  {
    FirstStep(g, ancestors, can, p, ref);
    ClearMeansValid(g, ancestors, can, p);
    var r := Blocker(g, ancestors, can, p);
    if r.Clear? {
      var named :| ValidStatement(g, can, p, named) && Elements(r.emptied) == Emptied(g, named);
      assert y in Elements(g.Subtree(y)) && x in At(g.referencing, y);
      assert y in Emptied(g, named) && x in Emptied(g, named);
      var n :| n in named && x in g.Subtree(n);
      SubtreeIsBeneath(g, n, x);
      OutsideAlone(g.children, ancestors, x, n);
    }
  }

  lemma EmptiedByTwo(g: Graph, a: string, b: string)
    ensures Emptied(g, {a, b}) == Elements(g.Subtree(a)) + Elements(g.Subtree(b))
  {}

  lemma MisleadingClosed(p: string, ref: string, y: string, x: string, e: set<string>)
    requires ref in e && y !in e
    ensures ClosedUnder(Misleading(p, ref, y, x), e)
  {
    var m := Misleading(p, ref, y, x);
    forall q, r | q in e && r in At(m, q) ensures r in e { assert q in m; }
  }

  lemma MisledHasStatement(g: Graph, can: Can, p: string, x: string, ref: string, n: string, y: string)
    requires g.Subtree(p) == [p] && can(p) == can(n) == Some(true) && ref in g.Subtree(n)
    requires g.referencing == Misleading(p, ref, y, x) && y != p && y !in g.Subtree(n)
    ensures ValidStatement(g, can, p, {p, n})
  {
    EmptiedByTwo(g, p, n);
    var e := {p} + Elements(g.Subtree(n));
    MisleadingClosed(p, ref, y, x, e);
  }

  /**
    For a hierarchy with the role's rights on it, and two tables outside of it of which the role
    may truncate one, the walk is right for every set of foreign keys and every table the role may
    name, if and only if the first candidate is always the least.
   */
  lemma BlockerExact(children: Links, ancestors: Links, can: Can, p: string, x: string)
    requires AncestorsSound(children, ancestors)
    requires Outside(children, ancestors, p) && can(p) == Some(true)
    requires Outside(children, ancestors, x) && can(x) != Some(true)
    ensures FirstIsLeast(children, ancestors, can) <==>
            forall referencing, table :: can(table) == Some(true) ==>
                Right(Graph(children, referencing), ancestors, can, table)
  {
    if FirstIsLeast(children, ancestors, can) {
      forall referencing, table | can(table) == Some(true)
          ensures Right(Graph(children, referencing), ancestors, can, table) {
        LeastIsRight(Graph(children, referencing), ancestors, can, table);
      }
    } else {
      var ref, n :| can(n) == Some(true) && Beneath(children, n, ref) && !TakesLeast(children, ancestors, can, ref, n);
      var referencing := Misled(children, ancestors, can, p, x, ref, n);
    }
  }

  // --- one parent each is enough, and two can be too many ---

  /** Each table has at most one parent, and its ancestors are listed nearest first. */
  ghost predicate IsForest(children: Links, ancestors: Links, parent: map<string, string>) {
    && (forall p, c :: c in At(children, p) <==> c in parent && parent[c] == p)
    && (forall t :: At(ancestors, t) == if t in parent then [parent[t]] + At(ancestors, parent[t]) else [])
  }

  lemma {:induction false} ForestPath(children: Links, ancestors: Links, parent: map<string, string>, p: seq<string>)
    requires IsForest(children, ancestors, parent) && IsPath(children, p)
    ensures p[0] in Above(ancestors, p[|p| - 1])
  {
    if |p| > 1 {
      var c, q := p[|p| - 1], p[..|p| - 1];
      ForestPath(children, ancestors, parent, q);
      assert c in At(children, p[|p| - 2]);
      assert At(ancestors, c) == [parent[c]] + At(ancestors, parent[c]);
    }
  }

  /** A position in the list of ancestors above: each entry's own list is the rest of the list. */
  lemma {:induction false} ForestChain(children: Links, ancestors: Links, parent: map<string, string>, t: string,
                                       i: nat)
    requires IsForest(children, ancestors, parent) && i < |Above(ancestors, t)|
    ensures Above(ancestors, Above(ancestors, t)[i]) == Above(ancestors, t)[i..]
    ensures Beneath(children, Above(ancestors, t)[i], t)
    decreases i
  {
    var chain := Above(ancestors, t);
    if i == 0 {
      BeneathSelf(children, t);
    } else {
      ForestChain(children, ancestors, parent, t, i - 1);
      var c := chain[i - 1];
      assert Above(ancestors, c) == chain[i - 1..] && |chain[i - 1..]| > 1;
      assert At(ancestors, c) == chain[i - 1..][1..] == chain[i..];
      assert c in parent && chain[i] == parent[c];
      assert Above(ancestors, parent[c]) == At(ancestors, c);
      BeneathVia(children, chain[i], c, t);
    }
  }

  lemma BeneathVia(m: Links, a: string, b: string, c: string)
    requires b in At(m, a) && Beneath(m, b, c)
    ensures Beneath(m, a, c)
  {
    var p :| IsPath(m, p) && p[0] == b && p[|p| - 1] == c;
    var q := [a] + p;
    forall i | 0 < i < |q| ensures q[i] in At(m, q[i - 1]) {
      if i > 1 { assert q[i] == p[i - 1] && q[i - 1] == p[i - 2]; }
    }
    assert IsPath(m, q) && q[0] == a && q[|q| - 1] == c;
  }

  /** With at most one parent per table the nearest table the role may truncate lies beneath all others. */
  lemma ForestFirstIsLeast(children: Links, ancestors: Links, parent: map<string, string>, can: Can)
    requires IsForest(children, ancestors, parent)
    ensures AncestorsSound(children, ancestors) && FirstIsLeast(children, ancestors, can)
  {
    forall t, a | a in At(ancestors, t) ensures t in DescendantsOf(children, a) {
      var j :| 0 <= j < |At(ancestors, t)| && At(ancestors, t)[j] == a;
      assert Above(ancestors, t)[j + 1] == a;
      ForestChain(children, ancestors, parent, t, j + 1);
      DescendantsExact(children, a);
      assert |Above(ancestors, a)| == |Above(ancestors, t)| - (j + 1);
    }
    forall ref, n | can(n) == Some(true) && Beneath(children, n, ref)
        ensures TakesLeast(children, ancestors, can, ref, n) {
      ForestTakesLeast(children, ancestors, parent, can, ref, n);
    }
  }

  lemma ForestTakesLeast(children: Links, ancestors: Links, parent: map<string, string>, can: Can, ref: string,
                         n: string)
    requires IsForest(children, ancestors, parent) && Beneath(children, n, ref) && can(n) == Some(true)
    ensures TakesLeast(children, ancestors, can, ref, n)
  {
    var chain := Above(ancestors, ref);
    var p :| IsPath(children, p) && p[0] == n && p[|p| - 1] == ref;
    ForestPath(children, ancestors, parent, p);
    var j :| 0 <= j < |chain| && chain[j] == n;
    ChooseFinds(chain, can);
    var r := Choose(chain, can);
    var i :| 0 <= i < |chain| && chain[i] == r.value && forall k :: 0 <= k < i ==> can(chain[k]) != Some(true);
    assert i <= j;
    ForestChain(children, ancestors, parent, ref, i);
    assert Above(ancestors, r.value) == chain[i..] && chain[i..][j - i] == n;
    ForestChain(children, ancestors, parent, r.value, j - i);
  }

  /**
    Where a table lies beneath two that the role may truncate, and the first is not beneath the second,
    some foreign keys mislead.
   */
  lemma SideParentMisleads(children: Links, ancestors: Links, can: Can, p: string, x: string, c: string, a: string,
                           b: string)
    returns (referencing: Links)
    requires AncestorsSound(children, ancestors)
    requires Outside(children, ancestors, p) && can(p) == Some(true)
    requires Outside(children, ancestors, x) && can(x) != Some(true)
    requires can(c) != Some(true) && At(ancestors, c) == [a, b] && can(a) == can(b) == Some(true)
    requires Beneath(children, b, c) && !Beneath(children, b, a)
    ensures !Right(Graph(children, referencing), ancestors, can, p)
  {
    assert Above(ancestors, c) == [c, a, b] && [c, a, b][1..] == [a, b];
    assert Choose([a, b], can) == Some(a);
    referencing := Misled(children, ancestors, can, p, x, c, b);
  }

  lemma DiamondShape(children: Links, above: Links, a: string, b: string, c: string)
    requires a != b && b != c && c != a && children == map[a := [c], b := [c]] && above == map[c := [a, b]]
    ensures AncestorsSound(children, above) && Beneath(children, b, c) && !Beneath(children, b, a)
    ensures Named(children) == {c}
  {
    assert At(children, a) == At(children, b) == [c];
    OneChild(children, a, c);
    OneChild(children, b, c);
    DescendantsExact(children, b);
  }

  /** It happens in every diamond: `c` inherits from `a` and `b`, and the role may truncate these but not `c`. */
  lemma DiamondMisleads(children: Links, above: Links, can: Can, p: string, a: string, b: string, c: string, x: string)
    returns (referencing: Links)
    requires a != b && b != c && c != a && children == map[a := [c], b := [c]] && above == map[c := [a, b]]
    requires p !in {a, b, c} && x !in {a, b, c}
    requires can(p) == can(a) == can(b) == Some(true) && can(c) == can(x) == Some(false)
    ensures !Right(Graph(children, referencing), above, can, p)
  {
    DiamondShape(children, above, a, b, c);
    referencing := SideParentMisleads(children, above, can, p, x, c, a, b);
  }

  lemma OneChild(m: Links, q: string, c: string)
    requires q in m && m[q] == [c] && At(m, c) == [] && c != q
    ensures DescendantsOf(m, q) == [c]
  {
    assert c in m[q];
    assert Elements([c]) == {c} && {c} <= Named(m);
    var none: seq<string> := [];
    assert [c][..0] == none && none + [c] == [c] && none + At(m, c) == none;
    assert WalkDown(m, q, [c], none) == [c];
    assert WalkDown(m, q, none, [c]) == [c];
  }

  // --- the walk run in place ---

  /** Settle one referencing table: already emptied, covered by a candidate, or the blocker. */
  method Cover(ctx: C.Context, ancestors: Links, can: Can, ref: string, emptied: seq<string>, todo: seq<string>,
               ghost rest: seq<string>)
    returns (blocker: Option<Outcome>, emptied': seq<string>, todo': seq<string>)
    requires ctx.Valid() && ref in ctx.graph.Names() && Elements(rest) <= ctx.graph.Names()
    requires Elements([ref] + rest) <= ctx.graph.Names()
    modifies ctx
    ensures ctx.Valid()
    ensures Walk(ctx.graph, ancestors, can, emptied, todo, [ref] + rest)
            == if blocker.Some? then blocker.value else Walk(ctx.graph, ancestors, can, emptied', todo', rest)
    ensures Elements(emptied) <= Elements(emptied') <= Elements(emptied) + World(ctx.graph, ancestors)
    ensures Elements(emptied) == Elements(emptied') ==> todo' == todo
  {
    blocker, emptied', todo' := None, emptied, todo;
    assert ([ref] + rest)[1..] == rest;
    if ref !in emptied {
      var candidates := Above(ancestors, ref);
      var chosen := Choose(candidates, can);
      if chosen.None? {
        blocker := Some(Blocked(ref, AnyUnknown(candidates, can)));
      } else {
        AddNewElements(ctx.graph.Subtree(chosen.value), emptied);
        ChosenNamed(ctx.graph, ancestors, can, ref, chosen.value);
        emptied', todo' := ctx.Keep(chosen.value, emptied, todo);
      }
    }
  }

  /** Settle every reference of one emptied table. */
  method ReadReferences(ctx: C.Context, ancestors: Links, can: Can, refs: seq<string>, emptied: seq<string>,
                        todo: seq<string>)
    returns (blocker: Option<Outcome>, emptied': seq<string>, todo': seq<string>)
    requires ctx.Valid() && Elements(refs) <= ctx.graph.Names()
    modifies ctx
    ensures ctx.Valid()
    ensures Walk(ctx.graph, ancestors, can, emptied, todo, refs)
            == if blocker.Some? then blocker.value else Walk(ctx.graph, ancestors, can, emptied', todo', [])
    ensures Elements(emptied) <= Elements(emptied') <= Elements(emptied) + World(ctx.graph, ancestors)
    ensures Elements(emptied) == Elements(emptied') ==> todo' == todo
  {
    blocker, emptied', todo' := None, emptied, todo;
    assert refs[0..] == refs;
    for i := 0 to |refs|
      invariant ctx.Valid() && blocker == None
      invariant Elements(refs[i..]) <= ctx.graph.Names()
      invariant Walk(ctx.graph, ancestors, can, emptied', todo', refs[i..]) ==
                Walk(ctx.graph, ancestors, can, emptied, todo, refs)
      invariant Elements(emptied) <= Elements(emptied') <= Elements(emptied) + World(ctx.graph, ancestors)
      invariant Elements(emptied) == Elements(emptied') ==> todo' == todo
    {
      assert refs[i] in Elements(refs);
      assert refs[i..] == [refs[i]] + refs[i + 1..] && Elements(refs[i + 1..]) <= Elements(refs);
      blocker, emptied', todo' := Cover(ctx, ancestors, can, refs[i], emptied', todo', refs[i + 1..]);
      if blocker.Some? {
        return;
      }
    }
    assert refs[|refs|..] == [];
  }

  method FindBlocker(ctx: C.Context, ancestors: Links, can: Can, table: string) returns (r: Outcome)
    requires ctx.Valid()
    modifies ctx
    ensures ctx.Valid() && r == Blocker(ctx.graph, ancestors, can, table)
  {
    var emptied, todo := ctx.Keep(table, [], []);
    C.FreshSubtree(ctx.graph, table);
    assert todo == emptied[0..] == ctx.graph.Subtree(table);
    while todo != []
      invariant ctx.Valid()
      invariant Walk(ctx.graph, ancestors, can, emptied, todo, []) == Blocker(ctx.graph, ancestors, can, table)
      decreases World(ctx.graph, ancestors) - Elements(emptied), |todo|
    {
      ghost var before := emptied;
      var refs := At(ctx.graph.referencing, todo[|todo| - 1]);
      var blocker;
      blocker, emptied, todo := ReadReferences(ctx, ancestors, can, refs, emptied, todo[..|todo| - 1]);
      if blocker.Some? {
        return blocker.value;
      }
      if Elements(before) != Elements(emptied) {
        LessLeft(World(ctx.graph, ancestors), Elements(before), Elements(emptied));
      }
    }
    r := Clear(emptied);
  }
}
