/** Edits to a text: made all at once, or applied one by one from the last backward. */
module Splice {

  /** Replace the text from `start` up to `end`. */
  datatype Edit = Edit(start: nat, end: nat, text: string)

  /** In order, disjoint, from position `from` on and inside a text of `n` characters. */
  predicate Fit(edits: seq<Edit>, from: nat, n: nat) {
    if edits == [] then from <= n
    else from <= edits[0].start <= edits[0].end && Fit(edits[1..], edits[0].end, n)
  }

  lemma {:induction false} FitBounds(edits: seq<Edit>, from: nat, n: nat)
    requires Fit(edits, from, n)
    ensures from <= n && (edits != [] ==> edits[0].end <= n)
  {
    if edits != [] { FitBounds(edits[1..], edits[0].end, n); }
  }

  /** All edits made at once, reading the text forward from `from`. */
  function Rewritten(text: string, edits: seq<Edit>, from: nat): string
    requires Fit(edits, from, |text|)
  {
    FitBounds(edits, from, |text|);
    if edits == [] then text[from..]
    else text[from..edits[0].start] + edits[0].text + Rewritten(text, edits[1..], edits[0].end)
  }

  /** Where the rewriting has got to before edit `i`. */
  function Before(edits: seq<Edit>, i: nat): nat
    requires i <= |edits|
  {
    if i == 0 then 0 else edits[i - 1].end
  }

  lemma {:induction false} FitSuffix(edits: seq<Edit>, i: nat, n: nat)
    requires Fit(edits, 0, n) && i <= |edits|
    ensures Fit(edits[i..], Before(edits, i), n)
  {
    if i == 0 {
      assert edits[0..] == edits;
    } else {
      FitSuffix(edits, i - 1, n);
      assert edits[i - 1..][1..] == edits[i..];
    }
  }

  lemma CutPrefix(text: string, tail: string, a: nat, b: nat)
    requires a <= b <= |text|
    ensures (text[..b] + tail)[..a] == text[..a] && (text[..b] + tail)[b..] == tail
  {}

  lemma SplitPrefix(text: string, a: nat, b: nat)
    requires a <= b <= |text|
    ensures text[..b] == text[..a] + text[a..b]
  {}

  lemma Regroup(a: string, b: string, c: string, d: string)
    ensures (a + b) + c + d == a + (b + c + d)
  {}

  /** The text with the edits from `i` on made, and those before it still to come. */
  function MadeFrom(text: string, edits: seq<Edit>, i: nat): string
    requires Fit(edits, 0, |text|) && i <= |edits|
  {
    FitSuffix(edits, i, |text|);
    FitBounds(edits[i..], Before(edits, i), |text|);
    text[..Before(edits, i)] + Rewritten(text, edits[i..], Before(edits, i))
  }

  lemma OneEdit(text: string, edits: seq<Edit>, i: nat)
    requires Fit(edits, 0, |text|) && i < |edits|
    ensures var e, r := edits[i], MadeFrom(text, edits, i + 1);
            e.start <= e.end <= |r| && MadeFrom(text, edits, i) == r[..e.start] + e.text + r[e.end..]
  {
    var e, from := edits[i], Before(edits, i);
    FitSuffix(edits, i, |text|);
    FitSuffix(edits, i + 1, |text|);
    FitBounds(edits[i..], from, |text|);
    assert edits[i..][1..] == edits[i + 1..] && edits[i..][0] == e;
    var tail := Rewritten(text, edits[i + 1..], e.end);
    CutPrefix(text, tail, e.start, e.end);
    SplitPrefix(text, from, e.start);
    Regroup(text[..from], text[from..e.start], e.text, tail);
  }

  /** Edits applied one by one from the last backward make the same text as all of them at once. */
  method ApplyEdits(text: string, edits: seq<Edit>) returns (r: string)
    requires Fit(edits, 0, |text|)
    ensures r == Rewritten(text, edits, 0)
  {
    r := text;
    var i := |edits|;
    NothingMade(text, edits);
    while i > 0
      invariant 0 <= i <= |edits| && r == MadeFrom(text, edits, i)
    {
      i := i - 1;
      OneEdit(text, edits, i);
      r := r[..edits[i].start] + edits[i].text + r[edits[i].end..];
    }
    AllMade(text, edits);
  }

  lemma NothingMade(text: string, edits: seq<Edit>)
    requires Fit(edits, 0, |text|)
    ensures MadeFrom(text, edits, |edits|) == text
  {
    FitSuffix(edits, |edits|, |text|);
    assert edits[|edits|..] == [];
  }

  lemma AllMade(text: string, edits: seq<Edit>)
    requires Fit(edits, 0, |text|)
    ensures MadeFrom(text, edits, 0) == Rewritten(text, edits, 0)
  {
    assert edits[0..] == edits && text[..0] == [];
  }

  // --- where an edit lands ---

  lemma {:induction false} FitPrefix(edits: seq<Edit>, i: nat, from: nat, n: nat)
    requires Fit(edits, from, n) && i < |edits|
    ensures edits[i].start <= edits[i].end <= n && Fit(edits[..i], from, edits[i].start)
            && Fit(edits[i + 1..], edits[i].end, n)
  {
    FitBounds(edits, from, n);
    if i > 0 {
      FitPrefix(edits[1..], i - 1, edits[0].end, n);
      assert edits[1..][i - 1] == edits[i] && edits[1..][..i - 1] == edits[..i][1..]
          && edits[1..][i..] == edits[i + 1..];
    } else {
      assert edits[..0] == [] && edits[1..] == edits[i + 1..];
    }
  }

  lemma SlicePrefix(text: string, a: nat, b: nat, n: nat)
    requires a <= b <= n <= |text|
    ensures text[..n][a..b] == text[a..b]
  {}

  lemma RegroupTail(a: string, x: string, y: string, z: string)
    ensures a + (x + y + z) == (a + x) + y + z
  {}

  /** What comes before edit `i` in the rewritten text. */
  function Head(text: string, edits: seq<Edit>, i: nat, from: nat): string
    requires Fit(edits, from, |text|) && i < |edits|
  {
    FitPrefix(edits, i, from, |text|);
    Rewritten(text[..edits[i].start], edits[..i], from)
  }

  /** The rewritten text is what comes before an edit, the edit's own text, and what comes after. */
  lemma {:induction false} Lands(text: string, edits: seq<Edit>, i: nat, from: nat)
    requires Fit(edits, from, |text|) && i < |edits|
    ensures Fit(edits[i + 1..], edits[i].end, |text|)
    ensures Rewritten(text, edits, from) ==
            Head(text, edits, i, from) + edits[i].text + Rewritten(text, edits[i + 1..], edits[i].end)
  {
    FitPrefix(edits, i, from, |text|);
    FitBounds(edits, from, |text|);
    if i > 0 {
      var e, rest := edits[0], edits[1..];
      Lands(text, rest, i - 1, e.end);
      assert rest[i - 1] == edits[i] && rest[..i - 1] == edits[..i][1..] && rest[i..] == edits[i + 1..];
      FitBounds(edits[..i], from, edits[i].start);
      assert edits[..i][0] == e;
      SlicePrefix(text, from, e.start, edits[i].start);
      var x, y, z := Head(text, rest, i - 1, e.end), edits[i].text, Rewritten(text, edits[i + 1..], edits[i].end);
      assert Head(text, edits, i, from) == text[from..e.start] + e.text + x;
      RegroupTail(text[from..e.start] + e.text, x, y, z);
    } else {
      assert edits[..0] == [];
    }
  }

  // --- insertions ---

  /** Edits that only insert. */
  predicate Inserts(edits: seq<Edit>) {
    forall k :: 0 <= k < |edits| ==> edits[k].start == edits[k].end
  }

  function Newlines(s: string): nat {
    if s == [] then 0 else (if s[0] == '\n' then 1 else 0) + Newlines(s[1..])
  }

  lemma {:induction false} NewlinesConcat(a: string, b: string)
    ensures Newlines(a + b) == Newlines(a) + Newlines(b)
  {
    if a == [] {
      assert a + b == b;
    } else {
      assert (a + b)[1..] == a[1..] + b;
      NewlinesConcat(a[1..], b);
    }
  }

  /** Inserting text without line ends keeps the count of lines. */
  lemma {:induction false} InsertsKeepLines(text: string, edits: seq<Edit>, from: nat)
    requires Fit(edits, from, |text|) && Inserts(edits)
    requires forall k :: 0 <= k < |edits| ==> Newlines(edits[k].text) == 0
    ensures from <= |text| && Newlines(Rewritten(text, edits, from)) == Newlines(text[from..])
  {
    FitBounds(edits, from, |text|);
    if edits != [] {
      var e := edits[0];
      var tail := Rewritten(text, edits[1..], e.end);
      InsertsKeepLines(text, edits[1..], e.end);
      NewlinesConcat(text[from..e.start] + e.text, tail);
      NewlinesConcat(text[from..e.start], e.text);
      NewlinesConcat(text[from..e.start], text[e.start..]);
      assert text[from..] == text[from..e.start] + text[e.start..];
    }
  }

  /** Edits moved `n` characters on. */
  function Moved(edits: seq<Edit>, n: nat): (r: seq<Edit>)
    ensures |r| == |edits|
  {
    if edits == [] then []
    else [Edit(edits[0].start + n, edits[0].end + n, edits[0].text)] + Moved(edits[1..], n)
  }

  lemma SliceRight(u: string, m: nat, b: string, i: nat, j: nat)
    requires m <= |u| && u[m..] == b && i <= j <= |b|
    ensures j + m <= |u| && u[i + m..j + m] == b[i..j] && u[i + m..] == b[i..]
  {
    assert b[i..j] == u[m..][i..j] == u[i + m..j + m];
    assert b[i..] == u[m..][i..] == u[i + m..];
  }

  lemma MovedStep(u: string, m: nat, b: string, edits: seq<Edit>, from: nat, moved: seq<Edit>)
    requires m <= |u| && u[m..] == b && Fit(edits, from, |b|) && edits != [] && moved != []
    requires moved[0] == Edit(edits[0].start + m, edits[0].end + m, edits[0].text)
    requires Fit(moved[1..], edits[0].end + m, |u|)
    requires Rewritten(u, moved[1..], edits[0].end + m) == Rewritten(b, edits[1..], edits[0].end)
    ensures Fit(moved, from + m, |u|) && Rewritten(u, moved, from + m) == Rewritten(b, edits, from)
  {
    FitBounds(edits, from, |b|);
    SliceRight(u, m, b, from, edits[0].start);
    var x := b[from..edits[0].start];
    assert u[from + m..moved[0].start] == x;
    assert Rewritten(b, edits, from) == x + edits[0].text + Rewritten(b, edits[1..], edits[0].end);
    assert Rewritten(u, moved, from + m) == x + edits[0].text + Rewritten(u, moved[1..], moved[0].end);
  }

  /** Edits of a suffix, moved to where the suffix starts, make the same text from there on. */
  lemma {:induction false} MovedRewrites(u: string, m: nat, b: string, edits: seq<Edit>, from: nat)
    requires m <= |u| && u[m..] == b && Fit(edits, from, |b|)
    ensures Fit(Moved(edits, m), from + m, |u|)
    ensures Rewritten(u, Moved(edits, m), from + m) == Rewritten(b, edits, from)
    decreases edits
  {
    if edits == [] {
      SliceRight(u, m, b, from, |b|);
    } else {
      MovedRewrites(u, m, b, edits[1..], edits[0].end);
      var moved := Moved(edits, m);
      assert moved[0] == Edit(edits[0].start + m, edits[0].end + m, edits[0].text)
          && moved[1..] == Moved(edits[1..], m);
      MovedStep(u, m, b, edits, from, moved);
    }
  }

  /** The edits that delete what insertions put into a text read from `from`. */
  function Deletions(edits: seq<Edit>, from: nat): seq<Edit>
    requires Inserts(edits)
  {
    if edits == [] || edits[0].start < from then []
    else
      var at := edits[0].start - from;
      [Edit(at, at + |edits[0].text|, "")] + Moved(Deletions(edits[1..], edits[0].end), at + |edits[0].text|)
  }

  lemma Pieces(x: string, t: string, tail: string)
    ensures var u := x + t + tail;
            |x| + |t| <= |u| && u[0..|x|] == x && u[|x| + |t|..] == tail && x + "" == x
  {}

  /** One deletion takes out `t`; the rest are those of the tail, moved past it. */
  lemma UndoStep(u: string, x: string, t: string, tail: string, inner: seq<Edit>, rest: seq<Edit>)
    requires u == x + t + tail && Fit(inner, 0, |tail|) && rest == Moved(inner, |x| + |t|)
    ensures var all := [Edit(|x|, |x| + |t|, "")] + rest;
            Fit(all, 0, |u|) && Rewritten(u, all, 0) == x + Rewritten(tail, inner, 0)
  {
    var d := Edit(|x|, |x| + |t|, "");
    var all := [d] + rest;
    assert all[0] == d && all[1..] == rest;
    Pieces(x, t, tail);
    MovedRewrites(u, |x| + |t|, tail, inner, 0);
  }

  /** The first insertion taken out, once those after it are. */
  lemma UndoFirst(text: string, edits: seq<Edit>, from: nat, tail: string, inner: seq<Edit>)
    requires Fit(edits, from, |text|) && Inserts(edits) && edits != [] && Inserts(edits[1..])
    requires tail == Rewritten(text, edits[1..], edits[0].end) && inner == Deletions(edits[1..], edits[0].end)
    requires edits[0].end <= |text| && Fit(inner, 0, |tail|) && Rewritten(tail, inner, 0) == text[edits[0].end..]
    ensures var r := Rewritten(text, edits, from);
            Fit(Deletions(edits, from), 0, |r|) && Rewritten(r, Deletions(edits, from), 0) == text[from..]
  {
    var e, r := edits[0], Rewritten(text, edits, from);
    var x, rest := text[from..e.start], Moved(inner, e.start - from + |e.text|);
    assert r == x + e.text + tail by {}
    assert Deletions(edits, from) == [Edit(|x|, |x| + |e.text|, "")] + rest by {}
    UndoStep(r, x, e.text, tail, inner, rest);
    SplitSuffix(text, from, e.start);
  }

  /** Deleting what was inserted gives the text back. */
  lemma {:induction false} DeletionsUndo(text: string, edits: seq<Edit>, from: nat)
    requires Fit(edits, from, |text|) && Inserts(edits)
    ensures var r := Rewritten(text, edits, from);
            from <= |text| && Fit(Deletions(edits, from), 0, |r|)
                && Rewritten(r, Deletions(edits, from), 0) == text[from..]
  {
    FitBounds(edits, from, |text|);
    if edits != [] {
      DeletionsUndo(text, edits[1..], edits[0].end);
      UndoFirst(text, edits, from, Rewritten(text, edits[1..], edits[0].end), Deletions(edits[1..], edits[0].end));
    }
  }

  lemma SplitSuffix(text: string, a: nat, b: nat)
    requires a <= b <= |text|
    ensures text[a..] == text[a..b] + text[b..]
  {}
}
