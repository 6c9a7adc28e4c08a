/**
  How many rounds the fixed-point loop takes: as many as there are facts to find, until nothing new
  is reached or issued, and then as many as the hierarchy is deep, until the notes stand still too.
 */
module ReachRounds {
  import opened Prelude
  import opened Cells
  import opened Reach
  import opened ReachFixpoint
  import opened ReachDerivation

  // --- until nothing new is reached ---

  ghost function Facts(st: State): set<Fact> {
    (set k | k in st.cells && Reached(st.cells, k) :: RowsReached(k)) + (set k | k in st.reach :: WriteIssued(k))
  }

  /** Every cell, and every write that anything could issue. */
  ghost function Possible(s: Schema, base: State): set<Fact> {
    (set k | k in base.cells :: RowsReached(k)) + (set k | k in ReachBound(s, base) :: WriteIssued(k))
  }

  lemma FactsGrow(a: State, b: State, me: string)
    requires Below(a, b, me)
    ensures Facts(a) <= Facts(b)
    ensures Facts(a) == Facts(b) ==> SameReach(a, b)
  {
    if Facts(a) == Facts(b) {
      forall k ensures Reached(a.cells, k) <==> Reached(b.cells, k) {
        assert RowsReached(k) in Facts(a) <==> RowsReached(k) in Facts(b);
      }
      forall k ensures k in a.reach <==> k in b.reach {
        assert WriteIssued(k) in Facts(a) <==> WriteIssued(k) in Facts(b);
      }
    }
  }

  lemma Smaller<T>(a: set<T>, b: set<T>)
    requires a < b
    ensures |a| < |b|
  {
    var x :| x in b && x !in a;
    Cardinality(a, b - {x});
  }

  lemma {:induction false} Cardinality<T>(a: set<T>, b: set<T>)
    requires a <= b
    ensures |a| <= |b|
    decreases |b|
  {
    if x :| x in b { Cardinality(a - {x}, b - {x}); }
  }

  /** What holds of every round: it grows, and within what is possible. */
  ghost predicate Grows(s: Schema, base: State, me: string, st: State) {
    Below(st, Step(s, base, me, st), me) && st.cells.Keys == base.cells.Keys && st.reach <= ReachBound(s, base)
  }

  lemma BaseGrows(s: Schema, base: State, me: string)
    requires SchemaWellFormed(s) && StateWellFormed(base)
    ensures Grows(s, base, me, base)
  {
    StepExtendsBase(s, base, me, base);
  }

  lemma StepGrows(s: Schema, base: State, me: string, st: State)
    requires SchemaWellFormed(s) && StateWellFormed(base) && Grows(s, base, me, st)
    ensures Grows(s, base, me, Step(s, base, me, st))
  {
    StepReachBounded(s, base, me, st);
    StepMonotone(s, base, me, st, Step(s, base, me, st));
  }

  lemma FindsOneMore(s: Schema, base: State, me: string, st: State)
    requires Grows(s, base, me, st) && !SameReach(st, Step(s, base, me, st))
    ensures |Facts(st)| < |Facts(Step(s, base, me, st))|
  {
    FactsGrow(st, Step(s, base, me, st), me);
    Smaller(Facts(st), Facts(Step(s, base, me, st)));
  }

  lemma FindsPossible(s: Schema, base: State, me: string, st: State)
    requires Grows(s, base, me, st)
    ensures |Facts(st)| <= |Possible(s, base)|
  {
    Cardinality(Facts(st), Possible(s, base));
  }

  /** Some round that is not later than there are facts to find finds none. */
  lemma ReachSettles(s: Schema, base: State, me: string) returns (n: nat, out: State, next: State)
    requires SchemaWellFormed(s) && StateWellFormed(base)
    ensures n <= |Possible(s, base)| && AtRound(s, base, me, n, out, next) && SameReach(out, next)
  {
    n, out, next := 0, base, Step(s, base, me, base);
    FirstRound(s, base, me);
    BaseGrows(s, base, me);
    FindsPossible(s, base, me, out);
    while !SameReach(out, next)
      invariant AtRound(s, base, me, n, out, next) && next == Step(s, base, me, out) && Grows(s, base, me, out)
      invariant n <= |Facts(out)| <= |Possible(s, base)|
      decreases |Possible(s, base)| - n
    {
      FindsOneMore(s, base, me, out);
      StepGrows(s, base, me, out);
      FindsPossible(s, base, me, next);
      NextRound(s, base, me, n, out, next);
      n, out, next := n + 1, next, Step(s, base, me, next);
    }
  }

  // --- from then on ---

  /** Rounds that start alike in what they reach and issue end alike in it. */
  lemma SameReachStays(s: Schema, base: State, me: string, a: State, b: State)
    requires SchemaWellFormed(s) && StateWellFormed(base) && StateWellFormed(a) && StateWellFormed(b) && SameReach(a, b)
    ensures SameReach(Step(s, base, me, a), Step(s, base, me, b))
  {
    IssuedAgrees(s, a, b);
    forall f ensures Holds(f, a) <==> Holds(f, b) {}
    forall k ensures Reached(Step(s, base, me, a).cells, k) <==> Reached(Step(s, base, me, b).cells, k) {
      if k in base.cells {
        RoundFacts(s, base, me, a, RowsReached(k));
        RoundFacts(s, base, me, b, RowsReached(k));
      }
    }
  }

  /** The cells on the lowest `n` levels are the same. */
  ghost predicate AgreeBelow(a: State, b: State, level: map<string, nat>, n: nat) {
    a.cells.Keys == b.cells.Keys && forall k :: k in a.cells && LevelOf(level, k) < n ==> a.cells[k] == b.cells[k]
  }

  predicate Deepest(level: map<string, nat>, depth: nat) {
    forall x :: x in level ==> level[x] <= depth
  }

  /** Two rounds reach and issue the same, and have the same cells on the lowest `j` levels. */
  ghost predicate Stands(base: State, level: map<string, nat>, st: State, next: State, j: nat) {
    && StateWellFormed(st) && StateWellFormed(next) && st.cells.Keys == base.cells.Keys
    && SameReach(st, next) && AgreeBelow(st, next, level, j)
  }

  lemma StandsHigher(s: Schema, base: State, me: string, level: map<string, nat>, st: State, next: State,
                     after: State, j: nat)
    requires SchemaWellFormed(s) && StateWellFormed(base) && Layered(s, level) && Stands(base, level, st, next, j)
    requires next == Step(s, base, me, st) && after == Step(s, base, me, next)
    ensures Stands(base, level, next, after, j + 1)
  {
    StepWellFormed(s, base, me, st);
    StepWellFormed(s, base, me, next);
    SameReachStays(s, base, me, st, next);
    SettlesOneLevel(s, base, me, st, next, level, j);
  }

  lemma StandsWhole(base: State, level: map<string, nat>, depth: nat, st: State, next: State)
    requires Deepest(level, depth) && Stands(base, level, st, next, depth + 1)
    ensures st == next
  {
    forall k | k in st.cells ensures st.cells[k] == next.cells[k] { assert LevelOf(level, k) < depth + 1; }
    assert st.cells == next.cells;
  }

  lemma StandsFirst(s: Schema, base: State, me: string, level: map<string, nat>, n: nat, st: State, next: State)
    requires SchemaWellFormed(s) && StateWellFormed(base)
    requires AtRound(s, base, me, n, st, next) && SameReach(st, next)
    ensures next == Step(s, base, me, st) && Stands(base, level, st, next, 0)
  {
    RoundsAscend(s, base, me, n);
    StepWellFormed(s, base, me, st);
  }

  /** What stands on the lowest `j` levels stands on all once the rest have had a round each. */
  lemma {:induction false} LevelsSettle(
    s: Schema, base: State, me: string, level: map<string, nat>, depth: nat, n: nat, st: State, next: State, j: nat)
    requires SchemaWellFormed(s) && StateWellFormed(base) && Layered(s, level) && Deepest(level, depth)
    requires AtRound(s, base, me, n, st, next) && next == Step(s, base, me, st)
    requires j <= depth + 1 && Stands(base, level, st, next, j)
    ensures StopsBy(s, base, me, n + depth + 1 - j)
    decreases depth + 1 - j
  {
    if j == depth + 1 {
      StandsWhole(base, level, depth, st, next);
      MovesOrNot(s, base, me, n, st, next);
      StoppedBy(s, base, me, n);
    } else {
      var after := Step(s, base, me, next);
      StandsHigher(s, base, me, level, st, next, after, j);
      NextRound(s, base, me, n, st, next);
      LevelsSettle(s, base, me, level, depth, n + 1, next, after, j + 1);
    }
  }

  /**
    Once a round has reached and issued nothing new, one more round for each level of the hierarchy
    settles the notes, and the loop has stopped.
   */
  lemma DepthBound(s: Schema, base: State, me: string, level: map<string, nat>, depth: nat, n: nat, st: State,
                   next: State)
    requires SchemaWellFormed(s) && StateWellFormed(base) && Layered(s, level) && Deepest(level, depth)
    requires AtRound(s, base, me, n, st, next) && SameReach(st, next)
    ensures StopsBy(s, base, me, n + depth + 1)
  {
    StandsFirst(s, base, me, level, n, st, next);
    LevelsSettle(s, base, me, level, depth, n, st, next, 0);
  }

  /** On a hierarchy without cycles the loop stops, by the number of facts there could be and the depth. */
  lemma LayeredSettles(s: Schema, base: State, me: string, level: map<string, nat>, depth: nat)
    requires SchemaWellFormed(s) && StateWellFormed(base) && Layered(s, level) && Deepest(level, depth)
    ensures StopsBy(s, base, me, |Possible(s, base)| + depth + 1)
  {
    var n, out, next := ReachSettles(s, base, me);
    DepthBound(s, base, me, level, depth, n, out, next);
  }
}
