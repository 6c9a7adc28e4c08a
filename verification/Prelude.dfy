/** Optional values, sets of elements, flat maps and iteration. */
module Prelude {

  datatype Option<+T> = None | Some(value: T)

  /** The elements of `xs` that occur at least once, as a set. */
  function Elements<T>(xs: seq<T>): set<T> {
    set x | x in xs
  }

  function FlatMap<A, B>(f: A -> seq<B>, xs: seq<A>): seq<B> {
    if xs == [] then [] else f(xs[0]) + FlatMap(f, xs[1..])
  }

  lemma {:induction false} FlatMapConcat<A, B>(f: A -> seq<B>, xs: seq<A>, ys: seq<A>)
    ensures FlatMap(f, xs + ys) == FlatMap(f, xs) + FlatMap(f, ys)
  {
    if xs == [] {
      assert xs + ys == ys;
    } else {
      assert (xs + ys)[1..] == xs[1..] + ys;
      FlatMapConcat(f, xs[1..], ys);
    }
  }

  lemma FlatMapSnoc<A, B>(f: A -> seq<B>, xs: seq<A>, x: A)
    ensures FlatMap(f, xs + [x]) == FlatMap(f, xs) + f(x)
  {
    FlatMapConcat(f, xs, [x]);
    assert [x][1..] == [];
    assert FlatMap(f, [x]) == f(x) + FlatMap(f, []);
  }

  lemma FlatMapStep<A, B>(soFar: seq<B>, f: A -> seq<B>, xs: seq<A>, k: nat)
    requires k < |xs|
    ensures soFar + FlatMap(f, xs[..k]) + f(xs[k]) == soFar + FlatMap(f, xs[..k + 1])
  {
    FlatMapSnoc(f, xs[..k], xs[k]);
    assert xs[..k + 1] == xs[..k] + [xs[k]];
  }

  ghost function Iterate<S>(f: S -> S, start: S, n: nat): S {
    if n == 0 then start else f(Iterate(f, start, n - 1))
  }

  /** Once an application changes nothing, none does. */
  lemma {:induction false} IterateStays<S>(f: S -> S, start: S, n: nat, m: nat)
    requires Iterate(f, start, n + 1) == Iterate(f, start, n) && n <= m
    ensures Iterate(f, start, m + 1) == Iterate(f, start, m)
    decreases m
  {
    if n < m { IterateStays(f, start, n, m - 1); }
  }

  /** What holds at the start and survives every application holds after any number of them. */
  lemma {:induction false} IterateKeeps<S(!new)>(f: S -> S, start: S, n: nat, inv: S -> bool)
    requires inv(start)
    requires forall x {:trigger f(x)} :: inv(x) ==> inv(f(x))
    ensures inv(Iterate(f, start, n))
  {
    if n > 0 { IterateKeeps(f, start, n - 1, inv); }
  }
}
