/** The memoised lookups of one matrix build: the worklists of `Hierarchy`, run in place. */
module Context {
  import opened Prelude
  import opened Hierarchy

  lemma {:induction false} AddNewSnoc(xs: seq<string>, x: string, out: seq<string>)
    ensures AddNew(xs + [x], out) ==
            (if x in AddNew(xs, out) then AddNew(xs, out) else AddNew(xs, out) + [x])
    decreases |xs|
  {
    if xs == [] {
      assert xs + [x] == [x] && [x][1..] == [];
    } else {
      assert (xs + [x])[1..] == xs[1..] + [x];
      AddNewSnoc(xs[1..], x, if xs[0] in out then out else out + [xs[0]]);
    }
  }

  function Without(xs: seq<string>, x: string): (r: seq<string>)
    ensures forall y :: y in r <==> y in xs && y != x
  {
    if xs == [] then [] else (if xs[0] == x then [] else [xs[0]]) + Without(xs[1..], x)
  }

  class Context {
    const graph: Graph
    var descendancy: Links

    /** Every memoised answer is the answer the walk would give. */
    ghost predicate Valid()
      reads this
    {
      forall q :: q in descendancy ==> descendancy[q] == DescendantsOf(graph.children, q)
    }

    constructor (graph: Graph)
      ensures Valid() && this.graph == graph && descendancy == map[]
    {
      this.graph := graph;
      descendancy := map[];
    }

    /** Everything beneath `q`; the memo never changes the answer. */
    method Descendants(q: string) returns (r: seq<string>)
      requires Valid()
      modifies this
      ensures Valid() && r == DescendantsOf(graph.children, q)
      ensures descendancy == old(descendancy)[q := r]
    {
      if q in descendancy {
        return descendancy[q];
      }
      var out: seq<string>, todo := [], At(graph.children, q);
      while todo != []
        invariant Elements(todo) <= Named(graph.children)
        invariant WalkDown(graph.children, q, out, todo) == DescendantsOf(graph.children, q)
        invariant descendancy == old(descendancy)
        decreases Named(graph.children) - Elements(out), |todo|
      {
        var child := todo[|todo| - 1];
        todo := todo[..|todo| - 1];
        if child !in out && child != q {
          assert child in Named(graph.children) - Elements(out);
          assert child !in Named(graph.children) - Elements(out + [child]);
          out := out + [child];
          todo := todo + At(graph.children, child);
        }
      }
      descendancy := descendancy[q := out];
      r := out;
    }

    /** Keep a table and everything beneath it, queueing what is new. */
    method Keep(t: string, out: seq<string>, stack: seq<string>) returns (out': seq<string>, stack': seq<string>)
      requires Valid()
      modifies this
      ensures Valid() && out' == AddNew(graph.Subtree(t), out)
      ensures |out| <= |out'| && stack' == stack + out'[|out|..]
    {
      var below := Descendants(t);
      var xs := [t] + below;
      out', stack' := out, stack;
      for i := 0 to |xs|
        invariant Valid() && out' == AddNew(xs[..i], out)
        invariant |out| <= |out'| && out'[..|out|] == out && stack' == stack + out'[|out|..]
      {
        AddNewSnoc(xs[..i], xs[i], out);
        assert xs[..i + 1] == xs[..i] + [xs[i]];
        if xs[i] !in out' {
          out' := out' + [xs[i]];
          stack' := stack' + [xs[i]];
        }
      }
      assert xs[..|xs|] == xs;
    }

    /** The cascade of a truncation, without the table it starts from. */
    method TruncateCascade(table: string) returns (r: seq<string>)
      requires Valid()
      modifies this
      ensures Valid() && r == Without(CascadeOf(graph, table), table)
    {
      var out, stack := Keep(table, [], []);
      FreshSubtree(graph, table);
      assert stack == out[0..] == graph.Subtree(table);
      while stack != []
        invariant Valid()
        invariant CascadeWalk(graph, table, out, stack, []) == CascadeOf(graph, table)
        decreases graph.Names() + {table} - Elements(out), |stack|
      {
        var refs := At(graph.referencing, stack[|stack| - 1]);
        stack := stack[..|stack| - 1];
        ghost var before, depth := out, |stack|;
        for i := 0 to |refs|
          invariant Valid()
          invariant Elements(refs) <= graph.Names()
          invariant CascadeWalk(graph, table, out, stack, refs[i..]) == CascadeOf(graph, table)
          invariant Elements(before) <= Elements(out)
          invariant Elements(before) == Elements(out) ==> |stack| == depth
          invariant Elements(out) <= Elements(before) + graph.Names()
        {
          AddNewElements(graph.Subtree(refs[i]), out);
          SubtreeNamed(graph, refs[i]);
          assert refs[i] in Elements(refs);
          assert refs[i..][1..] == refs[i + 1..] && Elements(refs[i..]) <= Elements(refs);
          out, stack := Keep(refs[i], out, stack);
        }
        if Elements(before) != Elements(out) {
          LessLeft(graph.Names() + {table}, Elements(before), Elements(out));
        }
      }
      r := Without(out, table);
    }
  }

  lemma FreshSubtree(g: Graph, q: string)
    ensures AddNew(g.Subtree(q), []) == g.Subtree(q)
  {
    SubtreeClosed(g, q);
    AddDistinct(g.Subtree(q), []);
  }

  lemma {:induction false} AddDistinct(xs: seq<string>, out: seq<string>)
    requires Distinct(xs) && forall x :: x in xs ==> x !in out
    ensures AddNew(xs, out) == out + xs
    decreases |xs|
  {
    if xs != [] {
      assert xs[0] in xs;
      forall x | x in xs[1..] ensures x !in out + [xs[0]] {}
      AddDistinct(xs[1..], out + [xs[0]]);
      assert out + xs == out + [xs[0]] + xs[1..];
    }
  }

  /** What `TruncateCascade` returns is the least closed set, without the table itself. */
  lemma CascadeWithoutTable(g: Graph, table: string)
    ensures var s := Elements(CascadeOf(g, table));
            Elements(Without(CascadeOf(g, table), table)) == s - {table}
            && g.CascadeClosed(s) && (forall t :: table in t && g.CascadeClosed(t) ==> s <= t)
  {
    CascadeIsLeastClosed(g, table);
  }
}
