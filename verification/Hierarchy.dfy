/**
  The table hierarchy of one schema: partition and inheritance children, and which tables'
  foreign keys reference which. Closures over it are worklists with a memo.
 */
module Hierarchy {
  import opened Prelude

  /** For each table, its direct neighbours in the order they were recorded. */
  type Links = map<string, seq<string>>

  function At(m: Links, q: string): seq<string> {
    if q in m then m[q] else []
  }

  function Named(m: Links): set<string> {
    set q, c | q in m && c in m[q] :: c
  }

  /** What is left of a bounded set shrinks as soon as anything is added. */
  lemma LessLeft(all: set<string>, before: set<string>, after: set<string>)
    requires before <= after <= before + all && before != after
    ensures all - after < all - before
  {
    assert after == before + (after - before);
    var x :| x in after - before;
    assert x in all - before;
  }

  predicate ClosedUnder(m: Links, s: set<string>) {
    forall q, c :: q in s && c in At(m, q) ==> c in s
  }

  ghost predicate IsPath(m: Links, p: seq<string>) {
    |p| > 0 && forall i :: 0 < i < |p| ==> p[i] in At(m, p[i - 1])
  }

  /** `b` is `a` or lies beneath it. */
  ghost predicate Beneath(m: Links, a: string, b: string) {
    exists p :: IsPath(m, p) && p[0] == a && p[|p| - 1] == b
  }

  lemma BeneathSelf(m: Links, a: string)
    ensures Beneath(m, a, a)
  {
    assert IsPath(m, [a]) && [a][0] == a && [a][|[a]| - 1] == a;
  }

  lemma BeneathStep(m: Links, a: string, b: string, c: string)
    requires Beneath(m, a, b) && c in At(m, b)
    ensures Beneath(m, a, c)
  {
    var p :| IsPath(m, p) && p[0] == a && p[|p| - 1] == b;
    var q := p + [c];
    forall i | 0 < i < |q| ensures q[i] in At(m, q[i - 1]) {
      if i < |p| { assert q[i] == p[i] && q[i - 1] == p[i - 1]; }
    }
    assert IsPath(m, q) && q[0] == a && q[|q| - 1] == c;
  }

  lemma BeneathTransitive(m: Links, a: string, b: string, c: string)
    requires Beneath(m, a, b) && Beneath(m, b, c)
    ensures Beneath(m, a, c)
  {
    var p :| IsPath(m, p) && p[0] == a && p[|p| - 1] == b;
    var q :| IsPath(m, q) && q[0] == b && q[|q| - 1] == c;
    var r := p + q[1..];
    forall i | 0 < i < |r| ensures r[i] in At(m, r[i - 1]) {
      if i < |p| { assert r[i] == p[i] && r[i - 1] == p[i - 1]; }
      else { assert r[i] == q[i - |p| + 1] && r[i - 1] == q[i - |p|]; }
    }
    assert IsPath(m, r) && r[0] == a && r[|r| - 1] == c;
  }

  lemma {:induction false} ClosedHoldsPath(m: Links, s: set<string>, p: seq<string>)
    requires ClosedUnder(m, s) && IsPath(m, p) && p[0] in s
    ensures p[|p| - 1] in s
  {
    if |p| > 1 {
      var q := p[..|p| - 1];
      ClosedHoldsPath(m, s, q);
      assert p[|p| - 1] in At(m, q[|q| - 1]);
    }
  }

  lemma BeneathStaysInside(m: Links, s: set<string>, a: string, b: string)
    requires ClosedUnder(m, s) && a in s && Beneath(m, a, b)
    ensures b in s
  {
    var p :| IsPath(m, p) && p[0] == a && p[|p| - 1] == b;
    ClosedHoldsPath(m, s, p);
  }

  lemma BeneathNamed(m: Links, a: string, b: string)
    requires Beneath(m, a, b) && a != b
    ensures b in Named(m)
  {
    var p :| IsPath(m, p) && p[0] == a && p[|p| - 1] == b;
    assert p[|p| - 1] in At(m, p[|p| - 2]);
  }

  // --- descendants ---

  /** The depth-first walk: pop the last pending child; keep it and queue its children if it is new. */
  function WalkDown(m: Links, q: string, out: seq<string>, todo: seq<string>): seq<string>
    requires Elements(todo) <= Named(m)
    decreases Named(m) - Elements(out), |todo|
  {
    if todo == [] then out
    else
      var child, rest := todo[|todo| - 1], todo[..|todo| - 1];
      if child in out || child == q then WalkDown(m, q, out, rest)
      else
        assert child in Named(m) - Elements(out) && child !in Named(m) - Elements(out + [child]);
        WalkDown(m, q, out + [child], rest + At(m, child))
  }

  /** What the walk from `q`'s own children collects. */
  function DescendantsOf(m: Links, q: string): seq<string> {
    WalkDown(m, q, [], At(m, q))
  }

  predicate Distinct(xs: seq<string>) {
    forall i, j :: 0 <= i < j < |xs| ==> xs[i] != xs[j]
  }

  /** What the walk has established: everything kept or pending is beneath `q`, and nothing is forgotten. */
  ghost predicate WalkInvariant(m: Links, q: string, out: seq<string>, todo: seq<string>) {
    && Distinct(out) && q !in out && Elements(todo) <= Named(m)
    && (forall x :: x in out || x in todo ==> Beneath(m, q, x))
    && (forall x, c :: (x == q || x in out) && c in At(m, x) ==> c == q || c in out || c in todo)
  }

  lemma WalkKeeps(m: Links, q: string, out: seq<string>, todo: seq<string>)
    requires WalkInvariant(m, q, out, todo) && todo != []
    requires todo[|todo| - 1] !in out && todo[|todo| - 1] != q
    ensures WalkInvariant(m, q, out + [todo[|todo| - 1]], todo[..|todo| - 1] + At(m, todo[|todo| - 1]))
  {
    var child, rest := todo[|todo| - 1], todo[..|todo| - 1];
    assert todo == rest + [child];
    forall c | c in At(m, child) ensures Beneath(m, q, c) { BeneathStep(m, q, child, c); }
    forall x, c | (x == q || x in out + [child]) && c in At(m, x)
      ensures c == q || c in out + [child] || c in rest + At(m, child)
    {
      if x == q || x in out { assert c == q || c in out || c in todo; }
    }
  }

  lemma WalkDone(m: Links, q: string, out: seq<string>)
    requires WalkInvariant(m, q, out, [])
    ensures forall x :: x in out <==> x != q && Beneath(m, q, x)
  {
    var s := {q} + Elements(out);
    assert ClosedUnder(m, s);
    forall x | Beneath(m, q, x) ensures x in s { BeneathStaysInside(m, s, q, x); }
  }

  lemma {:induction false} WalkDownExact(m: Links, q: string, out: seq<string>, todo: seq<string>)
    requires WalkInvariant(m, q, out, todo)
    ensures var r := WalkDown(m, q, out, todo);
            Distinct(r) && forall x :: x in r <==> x != q && Beneath(m, q, x)
    decreases Named(m) - Elements(out), |todo|
  {
    if todo == [] {
      WalkDone(m, q, out);
    } else {
      var child, rest := todo[|todo| - 1], todo[..|todo| - 1];
      if child in out || child == q {
        WalkDownExact(m, q, out, rest);
      } else {
        WalkKeeps(m, q, out, todo);
        assert child in Named(m) - Elements(out) && child !in Named(m) - Elements(out + [child]);
        WalkDownExact(m, q, out + [child], rest + At(m, child));
      }
    }
  }

  /** The descendants are exactly what lies beneath the table, without the table; each is listed once. */
  lemma DescendantsExact(m: Links, q: string)
    ensures Distinct(DescendantsOf(m, q))
    ensures forall x :: x in DescendantsOf(m, q) <==> x != q && Beneath(m, q, x)
  {
    BeneathSelf(m, q);
    forall c | c in At(m, q) ensures Beneath(m, q, c) { BeneathStep(m, q, q, c); }
    WalkDownExact(m, q, [], At(m, q));
  }

  // --- TRUNCATE ... CASCADE ---

  datatype Graph = Graph(children: Links, referencing: Links) {

    /** A table with its partitions and inheritance children, itself first. */
    function Subtree(q: string): seq<string> {
      [q] + DescendantsOf(children, q)
    }

    /** Emptied with everything beneath it and everything that references it. */
    predicate CascadeClosed(s: set<string>) {
      ClosedUnder(children, s) && ClosedUnder(referencing, s)
    }

    function Names(): set<string> {
      Named(children) + Named(referencing)
    }
  }

  /** Append the elements of `xs` that are not in `out` yet. */
  function AddNew(xs: seq<string>, out: seq<string>): seq<string>
    decreases |xs|
  {
    if xs == [] then out
    else AddNew(xs[1..], if xs[0] in out then out else out + [xs[0]])
  }

  lemma {:induction false} AddNewElements(xs: seq<string>, out: seq<string>)
    ensures Elements(AddNew(xs, out)) == Elements(out) + Elements(xs)
    ensures |AddNew(xs, out)| >= |out| && AddNew(xs, out)[..|out|] == out
    ensures Distinct(out) ==> Distinct(AddNew(xs, out))
    ensures Elements(AddNew(xs, out)) == Elements(out) ==> AddNew(xs, out) == out
    decreases |xs|
  {
    if xs != [] {
      var next := if xs[0] in out then out else out + [xs[0]];
      AddNewElements(xs[1..], next);
      assert Elements(xs) == {xs[0]} + Elements(xs[1..]);
      assert Elements(next) == Elements(out) + {xs[0]};
      if Elements(AddNew(xs, out)) == Elements(out) {
        assert xs[0] in Elements(out);
      }
    }
  }

  /**
    The cascade worklist: `out` is emptied so far, `stack` has its references still unread, and
    `refs` are the references of the table popped last.
   */
  function CascadeWalk(g: Graph, table: string, out: seq<string>, stack: seq<string>, refs: seq<string>): seq<string>
    requires Elements(refs) <= g.Names()
    decreases g.Names() + {table} - Elements(out), |stack|, |refs|
  {
    if refs != [] then
      var next := AddNew(g.Subtree(refs[0]), out);
      AddNewElements(g.Subtree(refs[0]), out);
      SubtreeNamed(g, refs[0]);
      CascadeWalk(g, table, next, stack + next[|out|..], refs[1..])
    else if stack != [] then
      CascadeWalk(g, table, out, stack[..|stack| - 1], At(g.referencing, stack[|stack| - 1]))
    else out
  }

  lemma SubtreeNamed(g: Graph, q: string)
    ensures Elements(g.Subtree(q)) <= g.Names() + {q}
  {
    DescendantsExact(g.children, q);
    forall x | x in DescendantsOf(g.children, q) ensures x in Named(g.children) { BeneathNamed(g.children, q, x); }
  }

  function CascadeOf(g: Graph, table: string): seq<string> {
    CascadeWalk(g, table, g.Subtree(table), g.Subtree(table), [])
  }

  ghost predicate CascadeInvariant(g: Graph, table: string, out: seq<string>, stack: seq<string>, refs: seq<string>) {
    && table in out && Distinct(out) && Elements(refs) <= g.Names()
    && (forall x :: x in stack ==> x in out)
    && ClosedUnder(g.children, Elements(out))
    && (forall s :: table in s && g.CascadeClosed(s) ==> Elements(out) <= s && Elements(refs) <= s)
    && (forall x, r :: x in out && r in At(g.referencing, x) ==> r in out || x in stack || r in refs)
  }

  lemma SubtreeClosed(g: Graph, q: string)
    ensures ClosedUnder(g.children, Elements(g.Subtree(q))) && Distinct(g.Subtree(q))
    ensures forall s :: q in s && ClosedUnder(g.children, s) ==> Elements(g.Subtree(q)) <= s
  {
    DescendantsExact(g.children, q);
    BeneathSelf(g.children, q);
    forall i, j | 0 <= i < j < |g.Subtree(q)| ensures g.Subtree(q)[i] != g.Subtree(q)[j] {
      assert g.Subtree(q)[j] == DescendantsOf(g.children, q)[j - 1];
      if i > 0 { assert g.Subtree(q)[i] == DescendantsOf(g.children, q)[i - 1]; }
    }
    forall x, c | x in g.Subtree(q) && c in At(g.children, x) ensures c in g.Subtree(q) {
      BeneathStep(g.children, q, x, c);
    }
    forall s | q in s && ClosedUnder(g.children, s) ensures Elements(g.Subtree(q)) <= s {
      forall x | x in DescendantsOf(g.children, q) ensures x in s { BeneathStaysInside(g.children, s, q, x); }
    }
  }

  lemma CascadeAdds(g: Graph, table: string, out: seq<string>, stack: seq<string>, refs: seq<string>)
    requires CascadeInvariant(g, table, out, stack, refs) && refs != []
    ensures var next := AddNew(g.Subtree(refs[0]), out);
            |out| <= |next| && CascadeInvariant(g, table, next, stack + next[|out|..], refs[1..])
  {
    var next := AddNew(g.Subtree(refs[0]), out);
    AddNewElements(g.Subtree(refs[0]), out);
    SubtreeClosed(g, refs[0]);
    assert Elements(next) == Elements(out) + Elements(g.Subtree(refs[0]));
    assert next == out + next[|out|..];
    forall x, r | x in next && r in At(g.referencing, x)
      ensures r in next || x in stack + next[|out|..] || r in refs[1..]
    {
      if x in out {
        if r in refs { assert r == refs[0] || r in refs[1..]; }
        assert refs[0] in g.Subtree(refs[0]);
        assert refs[0] in Elements(next);
        if r in out { assert r in Elements(next); }
      }
    }
    assert refs[0] in Elements(refs);
    assert Elements(refs[1..]) <= Elements(refs);
  }

  lemma CascadePops(g: Graph, table: string, out: seq<string>, stack: seq<string>)
    requires CascadeInvariant(g, table, out, stack, []) && stack != []
    ensures CascadeInvariant(g, table, out, stack[..|stack| - 1], At(g.referencing, stack[|stack| - 1]))
  {
    var last := stack[|stack| - 1];
    assert stack == stack[..|stack| - 1] + [last];
    assert last in out;
    forall s | table in s && g.CascadeClosed(s) ensures Elements(At(g.referencing, last)) <= s {
      assert last in Elements(out);
    }
  }

  lemma CascadeDone(g: Graph, table: string, out: seq<string>)
    requires CascadeInvariant(g, table, out, [], [])
    ensures g.CascadeClosed(Elements(out))
  {}

  lemma {:induction false} CascadeExact(g: Graph, table: string, out: seq<string>, stack: seq<string>,
                                        refs: seq<string>)
    requires CascadeInvariant(g, table, out, stack, refs)
    ensures var r := CascadeWalk(g, table, out, stack, refs);
            table in r && Distinct(r) && g.CascadeClosed(Elements(r))
            && forall s :: table in s && g.CascadeClosed(s) ==> Elements(r) <= s
    decreases g.Names() + {table} - Elements(out), |stack|, |refs|
  {
    if refs != [] {
      CascadeAdds(g, table, out, stack, refs);
      AddNewElements(g.Subtree(refs[0]), out);
      SubtreeNamed(g, refs[0]);
      var next := AddNew(g.Subtree(refs[0]), out);
      CascadeExact(g, table, next, stack + next[|out|..], refs[1..]);
    } else if stack != [] {
      CascadePops(g, table, out, stack);
      CascadeExact(g, table, out, stack[..|stack| - 1], At(g.referencing, stack[|stack| - 1]));
    } else {
      CascadeDone(g, table, out);
    }
  }

  /**
    TRUNCATE ... CASCADE empties exactly the least set that contains the table and is closed
    under children and under foreign-key references, on cyclic graphs too.
   */
  lemma CascadeIsLeastClosed(g: Graph, table: string)
    ensures var s := Elements(CascadeOf(g, table));
            table in s && g.CascadeClosed(s) && forall t :: table in t && g.CascadeClosed(t) ==> s <= t
  {
    SubtreeClosed(g, table);
    DescendantsExact(g.children, table);
    CascadeExact(g, table, g.Subtree(table), g.Subtree(table), []);
  }
}
