/**
  A table's ancestors as the fixed-point loop gets them: the partition chain, then every classic
  inheritance ancestor once. Each kind is refused when it has a cycle; both together are not.
 */
module Ancestry {
  import opened Prelude
  import opened Hierarchy
  import opened Reach
  import opened ReachFixpoint
  import opened ReachTermination
  import Predicate

  /** The captured tables, what each is a partition of, and what each inherits from. */
  datatype Parents = Parents(known: set<string>, partitionOf: Links, inherits: Links)

  /** Only captured tables have recorded parents, and a table is a partition of one at most. */
  ghost predicate ParentsWellFormed(h: Parents) {
    h.partitionOf.Keys + h.inherits.Keys <= h.known && forall t :: |At(h.partitionOf, t)| <= 1
  }

  /** Immediate parent first, up to the root or to a table that was not captured; None on a cycle. */
  function PartitionChain(h: Parents, t: string, seen: set<string>): Option<seq<string>>
    decreases h.known - seen
  {
    var up := At(h.partitionOf, t);
    if up == [] then Some([])
    else if up[0] in seen then None
    else if up[0] !in h.known then Some([])
    else
      var rest := PartitionChain(h, up[0], seen + {up[0]});
      if rest.None? then None else Some([up[0]] + rest.value)
  }

  datatype Found = Found(out: seq<string>, done: set<string>)

  /**
    Depth first in the order of `refs`, each ancestor once: `onPath` are the tables being explored,
    `done` those that are finished. None when a table on the path is met again.
   */
  function InheritWalk(h: Parents, refs: seq<string>, onPath: set<string>, done: set<string>): Option<Found>
    decreases h.known - onPath, |refs|
  {
    if refs == [] then Some(Found([], done))
    else if refs[0] in onPath then None
    else if refs[0] in done then InheritWalk(h, refs[1..], onPath, done)
    else if refs[0] !in h.known then InheritWalk(h, refs[1..], onPath, done + {refs[0]})
    else
      var above := InheritWalk(h, At(h.inherits, refs[0]), onPath + {refs[0]}, done);
      if above.None? then None
      else
        var rest := InheritWalk(h, refs[1..], onPath, above.value.done + {refs[0]});
        if rest.None? then None
        else Some(Found([refs[0]] + above.value.out + rest.value.out, rest.value.done))
  }

  function Listed(names: seq<string>, declarative: bool): seq<Ancestor> {
    seq(|names|, i requires 0 <= i < |names| => Ancestor(names[i], declarative))
  }

  /** The combined list; empty when either walk is refused. */
  function AncestorsOf(h: Parents, t: string): seq<Ancestor> {
    var chain := PartitionChain(h, t, {t});
    var walk := InheritWalk(h, At(h.inherits, t), {t}, {});
    if chain.None? || walk.None? then [] else Listed(chain.value, true) + Listed(walk.value.out, false)
  }

  // --- what lies above a table ---

  /** `y` lies strictly above `x`. */
  ghost predicate Over(m: Links, x: string, y: string) {
    exists z :: z in At(m, x) && Beneath(m, z, y)
  }

  lemma OverFirst(m: Links, x: string, y: string)
    requires y in At(m, x)
    ensures Over(m, x, y)
  {
    BeneathSelf(m, y);
  }

  lemma BeneathIsOver(m: Links, x: string, y: string)
    ensures Beneath(m, x, y) <==> x == y || Over(m, x, y)
  {
    BeneathSelf(m, x);
    if z :| z in At(m, x) && Beneath(m, z, y) {
      BeneathStep(m, x, x, z);
      BeneathTransitive(m, x, z, y);
    }
    if x != y && Beneath(m, x, y) {
      var p :| IsPath(m, p) && p[0] == x && p[|p| - 1] == y;
      var q := p[1..];
      forall i | 0 < i < |q| ensures q[i] in At(m, q[i - 1]) { assert p[i + 1] in At(m, p[i]); }
      assert p[1] in At(m, p[0]) && IsPath(m, q) && Beneath(m, q[0], y);
    }
  }

  lemma OverThen(m: Links, x: string, y: string, z: string)
    requires Over(m, x, y) && Beneath(m, y, z)
    ensures Over(m, x, z)
  {
    var u :| u in At(m, x) && Beneath(m, u, y);
    BeneathTransitive(m, u, y, z);
  }

  lemma NothingOver(m: Links, x: string)
    requires At(m, x) == []
    ensures (forall y :: !Over(m, x, y)) && !Loops(m, x)
  {
    forall y | Beneath(m, x, y) ensures y == x { BeneathIsOver(m, x, y); }
  }

  /** From the table one can climb to one that is above itself. */
  ghost predicate Loops(m: Links, x: string) {
    exists y :: Beneath(m, x, y) && Over(m, y, y)
  }

  lemma LoopsBelow(m: Links, x: string, z: string)
    requires Beneath(m, x, z) && Loops(m, z)
    ensures Loops(m, x)
  {
    var y :| Beneath(m, z, y) && Over(m, y, y);
    BeneathTransitive(m, x, z, y);
  }

  lemma LoopsOnce(m: Links, x: string)
    requires Over(m, x, x)
    ensures Loops(m, x)
  {
    BeneathSelf(m, x);
  }

  lemma LoopStarts(m: Links, x: string)
    requires Loops(m, x)
    ensures Over(m, x, x) || exists z :: z in At(m, x) && Loops(m, z)
  {
    var y :| Beneath(m, x, y) && Over(m, y, y);
    BeneathIsOver(m, x, y);
    if x != y {
      var z :| z in At(m, x) && Beneath(m, z, y);
      assert Loops(m, z);
    }
  }

  // --- what the lists hold ---

  lemma OneParent(m: Links, x: string, z: string)
    requires At(m, x) == [z]
    ensures Loops(m, x) <==> Loops(m, z)
    ensures forall y :: Over(m, x, y) <==> y == z || Over(m, z, y)
  {
    OverFirst(m, x, z);
    BeneathIsOver(m, x, z);
    forall y ensures Over(m, x, y) <==> y == z || Over(m, z, y) { BeneathIsOver(m, z, y); }
    if Loops(m, z) { LoopsBelow(m, x, z); }
    if Loops(m, x) {
      LoopStarts(m, x);
      if Over(m, x, x) { assert Beneath(m, z, x); }
    }
  }

  lemma SeenBelow(m: Links, seen: set<string>, x: string, z: string)
    requires (forall y :: y in seen ==> Beneath(m, y, x)) && z in At(m, x)
    ensures forall y :: y in seen + {z} ==> Beneath(m, y, z)
  {
    BeneathSelf(m, z);
    forall y | y in seen ensures Beneath(m, y, z) { BeneathStep(m, y, x, z); }
  }

  /** The chain is refused exactly on a loop, and otherwise holds what was captured above the table. */
  lemma {:induction false} ChainExact(h: Parents, t: string, seen: set<string>)
    requires ParentsWellFormed(h) && t in seen && seen <= h.known && forall x :: x in seen ==>
             Beneath(h.partitionOf, x, t)
    ensures PartitionChain(h, t, seen).None? <==> Loops(h.partitionOf, t)
    ensures PartitionChain(h, t, seen).Some? ==>
              forall y :: y in PartitionChain(h, t, seen).value <==> y in h.known && Over(h.partitionOf, t, y)
    decreases h.known - seen
  {
    var m, up := h.partitionOf, At(h.partitionOf, t);
    if up == [] {
      NothingOver(m, t);
    } else {
      assert |up| == 1 && up == [up[0]];
      OneParent(m, t, up[0]);
      if up[0] in seen {
        OverFirst(m, t, up[0]);
        OverThen(m, t, up[0], t);
        LoopsOnce(m, t);
      } else if up[0] !in h.known {
        NothingOver(m, up[0]);
      } else {
        SeenBelow(m, seen, t, up[0]);
        ChainExact(h, up[0], seen + {up[0]});
      }
    }
  }

  /** Finished tables are closed upward, and no climb from them loops. */
  ghost predicate Finished(m: Links, done: set<string>) {
    ClosedUnder(m, done) && forall y :: y in done ==> !Loops(m, y)
  }

  lemma FinishedAbove(m: Links, done: set<string>, x: string)
    requires Finished(m, done) && forall z :: z in At(m, x) ==> z in done
    ensures !Loops(m, x) && Finished(m, done + {x})
    ensures forall y :: Over(m, x, y) ==> y in done
  {
    forall y | Over(m, x, y) ensures y in done {
      var z :| z in At(m, x) && Beneath(m, z, y);
      BeneathStaysInside(m, done, z, y);
    }
    if Loops(m, x) { LoopStarts(m, x); }
  }

  /** What a walk from `x` finishes beyond `done`, and lists as far as it was captured. */
  ghost predicate Walked(h: Parents, x: string, refs: seq<string>, done: set<string>, r: Found) {
    && done <= r.done && Finished(h.inherits, r.done)
    && (forall z :: z in refs ==> z in r.done)
    && (forall y :: y in r.done - done ==> Over(h.inherits, x, y))
    && (forall y :: y in r.out <==> y in r.done - done && y in h.known)
  }

  lemma {:induction false} WalkExact(h: Parents, x: string, refs: seq<string>, onPath: set<string>, done: set<string>)
    requires ParentsWellFormed(h) && onPath <= h.known && forall y :: y in onPath ==> Beneath(h.inherits, y, x)
    requires Finished(h.inherits, done) && forall z :: z in refs ==> z in At(h.inherits, x)
    ensures var r := InheritWalk(h, refs, onPath, done);
            if r.None? then Loops(h.inherits, x) else Walked(h, x, refs, done, r.value)
    decreases h.known - onPath, |refs|
  {
    if refs != [] {
      var m, q, rest := h.inherits, refs[0], refs[1..];
      assert forall z :: z in refs <==> z == q || z in rest;
      OverFirst(m, x, q);
      BeneathIsOver(m, x, q);
      if q in onPath {
        OverThen(m, x, q, x);
        LoopsOnce(m, x);
      } else if q in done {
        WalkExact(h, x, rest, onPath, done);
      } else if q !in h.known {
        assert At(m, q) == [];
        FinishedAbove(m, done, q);
        WalkExact(h, x, rest, onPath, done + {q});
      } else {
        WalkAbove(h, x, q, onPath, done);
        var above := InheritWalk(h, At(m, q), onPath + {q}, done);
        if above.Some? {
          WalkExact(h, x, rest, onPath, above.value.done + {q});
        }
      }
    }
  }

  lemma {:induction false} WalkAbove(h: Parents, x: string, q: string, onPath: set<string>, done: set<string>)
    requires ParentsWellFormed(h) && onPath <= h.known && forall y :: y in onPath ==> Beneath(h.inherits, y, x)
    requires Finished(h.inherits, done) && q in At(h.inherits, x) && q in h.known - onPath
    ensures var above := InheritWalk(h, At(h.inherits, q), onPath + {q}, done);
            if above.None? then Loops(h.inherits, x)
            else
              && done <= above.value.done && Finished(h.inherits, above.value.done + {q})
              && (forall y :: y in above.value.done - done ==> Over(h.inherits, x, y))
              && (forall y :: y in above.value.out <==> y in above.value.done - done && y in h.known)
    decreases h.known - onPath, 0
  {
    var m := h.inherits;
    OverFirst(m, x, q);
    BeneathIsOver(m, x, q);
    SeenBelow(m, onPath, x, q);
    WalkExact(h, q, At(m, q), onPath + {q}, done);
    var above := InheritWalk(h, At(m, q), onPath + {q}, done);
    if above.None? {
      LoopsBelow(m, x, q);
    } else {
      FinishedAbove(m, above.value.done, q);
      forall y | y in above.value.done - done ensures Over(m, x, y) {
        BeneathIsOver(m, q, y);
        OverThen(m, x, q, y);
      }
    }
  }

  /** Neither walk up from the table is refused. */
  ghost predicate HasList(h: Parents, t: string) {
    t in h.known && !Loops(h.partitionOf, t) && !Loops(h.inherits, t)
  }

  /** A table is listed exactly when it was captured and lies above by its kind, unless either kind loops. */
  lemma ListedExact(h: Parents, t: string, a: Ancestor)
    requires ParentsWellFormed(h) && t in h.known
    ensures a in AncestorsOf(h, t) <==>
            HasList(h, t) && a.table in h.known && Over(if a.declarative then h.partitionOf else h.inherits, t, a.table)
  {
    var chain, walk := PartitionChain(h, t, {t}), InheritWalk(h, At(h.inherits, t), {t}, {});
    BeneathSelf(h.partitionOf, t);
    BeneathSelf(h.inherits, t);
    ChainExact(h, t, {t});
    WalkExact(h, t, At(h.inherits, t), {t}, {});
    if walk.Some? { FinishedAbove(h.inherits, walk.value.done, t); }
    if chain.Some? && walk.Some? {
      var up, down := Listed(chain.value, true), Listed(walk.value.out, false);
      assert a in up <==> a.declarative && a.table in chain.value by {
        if i :| 0 <= i < |chain.value| && chain.value[i] == a.table { assert up[i] == Ancestor(a.table, true); }
      }
      assert a in down <==> !a.declarative && a.table in walk.value.out by {
        if i :| 0 <= i < |walk.value.out| && walk.value.out[i] == a.table {
          assert down[i] == Ancestor(a.table, false);
        }
      }
    }
  }

  // --- when the lists make a cycle ---

  /** The schema's tables are the captured ones, each with the list its parents give. */
  ghost predicate ListsFrom(s: Schema, h: Parents) {
    && ParentsWellFormed(h) && (forall i, j :: 0 <= i < j < |s.tables| ==> s.tables[i].name != s.tables[j].name)
    && TableNames(s) == h.known && forall t :: t in s.tables ==> t.ancestors == AncestorsOf(h, t.name)
  }

  /** By partitions alone or by inheritance alone. */
  ghost predicate Rises(h: Parents, x: string, y: string) {
    Over(h.partitionOf, x, y) || Over(h.inherits, x, y)
  }

  /** Climbing by either kind in turn comes round to the same table, past tables that neither walk refuses. */
  ghost predicate ComesRound(h: Parents, p: seq<string>) {
    && |p| > 1 && p[0] == p[|p| - 1] && (forall x :: x in p ==> HasList(h, x))
    && forall i :: 0 < i < |p| ==> Rises(h, p[i - 1], p[i])
  }

  lemma AncestorExact(s: Schema, h: Parents, x: string, y: string)
    requires ListsFrom(s, h)
    ensures IsAncestor(s, x, y) <==> HasList(h, x) && y in h.known && Rises(h, x, y)
  {
    assert x in h.known <==> x in TableNames(s);
    if t :| t in s.tables && t.name == x {
      FindsByName(s.tables, t);
      OfEitherKind(h, x, y);
    }
  }

  lemma OfEitherKind(h: Parents, x: string, y: string)
    requires ParentsWellFormed(h) && x in h.known
    ensures (exists a :: a in AncestorsOf(h, x) && a.table == y) <==> HasList(h, x) && y in h.known && Rises(h, x, y)
  {
    ListedExact(h, x, Ancestor(y, true));
    ListedExact(h, x, Ancestor(y, false));
    if a :| a in AncestorsOf(h, x) && a.table == y { assert a == Ancestor(y, a.declarative); }
  }

  /** The combined lists make a cycle exactly when climbing by both kinds comes round. */
  lemma CyclicExact(s: Schema, h: Parents)
    requires ListsFrom(s, h)
    ensures Cyclic(s) <==> exists p :: ComesRound(h, p)
  {
    forall x, y ensures IsAncestor(s, x, y) <==> HasList(h, x) && y in h.known && Rises(h, x, y) {
      AncestorExact(s, h, x, y);
    }
    if p :| IsCycle(s, p) {
      forall x | x in p ensures HasList(h, x) {
        var i :| 0 <= i < |p| && p[i] == x;
        var n := if i == |p| - 1 then 0 else i;
        assert IsAncestor(s, p[n], p[n + 1]);
      }
      forall i | 0 < i < |p| ensures Rises(h, p[i - 1], p[i]) { assert IsAncestor(s, p[i - 1], p[i]); }
      assert ComesRound(h, p);
    }
    if p :| ComesRound(h, p) {
      forall i | 0 < i < |p| ensures IsAncestor(s, p[i - 1], p[i]) { assert p[i] in p && p[i - 1] in p; }
      assert IsCycle(s, p);
    }
  }

  /** So whether the loop ends from every start is decided by the recorded parents. */
  lemma ParentsDecideSettling(s: Schema, h: Parents, filter: Predicate.Expr)
    requires ListsFrom(s, h) && SchemaWellFormed(s) && NoSelectTriggers(s)
    ensures (forall base, me :: IsStart(s, base) ==> Settles(s, base, me)) <==> !exists p :: ComesRound(h, p)
  {
    SettlesIffAcyclic(s, filter);
    CyclicExact(s, h);
  }

  lemma {:induction false} RisesByOne(m: Links, p: seq<string>)
    requires |p| > 1 && forall i :: 0 < i < |p| ==> Over(m, p[i - 1], p[i])
    ensures Over(m, p[0], p[|p| - 1])
    decreases |p|
  {
    if |p| > 2 {
      var q := p[..|p| - 1];
      RisesByOne(m, q);
      BeneathIsOver(m, p[|p| - 2], p[|p| - 1]);
      OverThen(m, p[0], p[|p| - 2], p[|p| - 1]);
    }
  }

  /** Coming round takes both kinds: partitions alone, or classic inheritance alone, never do it. */
  lemma TakesBothKinds(h: Parents, p: seq<string>)
    requires ComesRound(h, p)
    ensures exists i :: 0 < i < |p| && !Over(h.partitionOf, p[i - 1], p[i])
    ensures exists i :: 0 < i < |p| && !Over(h.inherits, p[i - 1], p[i])
  {
    assert HasList(h, p[0]);
    if forall i :: 0 < i < |p| ==> Over(h.partitionOf, p[i - 1], p[i]) {
      RisesByOne(h.partitionOf, p);
      LoopsOnce(h.partitionOf, p[0]);
      assert false;
    }
    if forall i :: 0 < i < |p| ==> Over(h.inherits, p[i - 1], p[i]) {
      RisesByOne(h.inherits, p);
      LoopsOnce(h.inherits, p[0]);
      assert false;
    }
  }

  lemma MixedLists(h: Parents, t: string, u: string)
    requires t != u && h.known == {t, u} && h.partitionOf == map[t := [u]] && h.inherits == map[u := [t]]
    ensures AncestorsOf(h, t) == [Ancestor(u, true)] && AncestorsOf(h, u) == [Ancestor(t, false)]
  {
    var none: seq<string>, nobody: set<string> := [], {};
    assert At(h.partitionOf, t) == [u] && At(h.partitionOf, u) == none && At(h.inherits, u) == [t]
        && At(h.inherits, t) == none;
    assert PartitionChain(h, u, {t} + {u}) == Some(none) && [u] + none == [u];
    assert PartitionChain(h, t, {t}) == Some([u]);
    assert InheritWalk(h, none, {u} + {t}, nobody) == Some(Found(none, nobody));
    assert [t][1..] == none && InheritWalk(h, [t][1..], {u}, nobody + {t}) == Some(Found(none, nobody + {t}));
    assert [t] + none + none == [t];
    assert InheritWalk(h, [t], {u}, nobody).value.out == [t];
  }

  /** A partition of the table that inherits from it: neither walk is refused, and the lists make a cycle. */
  lemma MixedPairIsCyclic(s: Schema, h: Parents, t: string, u: string)
    requires ListsFrom(s, h) && t != u && h.known == {t, u} && h.partitionOf == map[t := [u]]
             && h.inherits == map[u := [t]]
    ensures IsCycle(s, [t, u, t])
  {
    MixedLists(h, t, u);
    assert Ancestor(u, true) in AncestorsOf(h, t) && Ancestor(t, false) in AncestorsOf(h, u);
    ListedExact(h, t, Ancestor(u, true));
    ListedExact(h, u, Ancestor(t, false));
    AncestorExact(s, h, t, u);
    AncestorExact(s, h, u, t);
  }
}
