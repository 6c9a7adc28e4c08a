/** Reading a config file whose top-level `extends` layers it on other files. */
module Config {
  import opened Prelude

  datatype Toml = Value(id: int) | Table(entries: map<string, Toml>)

  type Entries = map<string, Toml>

  /** Tables merge key by key; every other value, arrays included, is replaced by the override. */
  function DeepMerge(base: Entries, override: Entries): Entries
    decreases Table(override)
  {
    map k | k in base.Keys + override.Keys ::
      if k !in override then base[k]
      else if k in base && base[k].Table? && override[k].Table? then
        Table(DeepMerge(base[k].entries, override[k].entries))
      else override[k]
  }

  // --- merging, path by path ---

  function Lookup(t: Entries, path: seq<string>): Option<Toml>
    decreases |path|
  {
    if path == [] then Some(Table(t))
    else if path[0] !in t then None
    else if |path| == 1 then Some(t[path[0]])
    else if t[path[0]].Table? then Lookup(t[path[0]].entries, path[1..])
    else None
  }

  /** Some table on the way to `path` is a plain value in `t`, so nothing lies beneath it. */
  ghost predicate CutShort(t: Entries, path: seq<string>) {
    exists i :: 0 < i < |path| && Lookup(t, path[..i]).Some? && Lookup(t, path[..i]).value.Value?
  }

  /** What the merge of two configs holds at a path, from what each holds there. */
  ghost function MergedAt(base: Entries, override: Entries, path: seq<string>): Option<Toml> {
    match Lookup(override, path)
    case Some(Value(id)) => Some(Value(id))
    case Some(Table(o)) =>
      var b := Lookup(base, path);
      if b.Some? && b.value.Table? then Some(Table(DeepMerge(b.value.entries, o))) else Some(Table(o))
    case None => if CutShort(override, path) then None else Lookup(base, path)
  }

  lemma LookupStep(t: Entries, path: seq<string>)
    requires |path| > 1
    ensures Lookup(t, path) == if path[0] in t && t[path[0]].Table? then Lookup(t[path[0]].entries, path[1..]) else None
    ensures CutShort(t, path) <==>
            path[0] in t && (t[path[0]].Value? || CutShort(t[path[0]].entries, path[1..]))
  {
    assert Lookup(t, path[..1]) == if path[0] in t then Some(t[path[0]]) else None;
    forall i | 1 < i < |path|
      ensures Lookup(t, path[..i]) == if path[0] in t && t[path[0]].Table?
              then Lookup(t[path[0]].entries, path[1..][..i - 1]) else None
    {
      assert path[..i][1..] == path[1..][..i - 1];
    }
    if CutShort(t, path) {
      var i :| 0 < i < |path| && Lookup(t, path[..i]).Some? && Lookup(t, path[..i]).value.Value?;
      if i > 1 { assert Lookup(t[path[0]].entries, path[1..][..i - 1]).Some?; }
    }
    if path[0] in t && t[path[0]].Table? && CutShort(t[path[0]].entries, path[1..]) {
      var u, rest := t[path[0]].entries, path[1..];
      var i :| 0 < i < |rest| && Lookup(u, rest[..i]).Some? && Lookup(u, rest[..i]).value.Value?;
      assert Lookup(t, path[..i + 1]) == Lookup(u, rest[..i]);
    }
  }

  /** At every path, the override's plain value wins, tables merge, and the base shows through what is left. */
  lemma {:induction false} MergePathwise(base: Entries, override: Entries, path: seq<string>)
    ensures Lookup(DeepMerge(base, override), path) == MergedAt(base, override, path)
    decreases |path|
  {
    var merged := DeepMerge(base, override);
    if |path| > 1 {
      var k := path[0];
      LookupStep(merged, path);
      LookupStep(base, path);
      LookupStep(override, path);
      if k in base && base[k].Table? && k in override && override[k].Table? {
        MergePathwise(base[k].entries, override[k].entries, path[1..]);
      }
    } else if |path| == 1 {
      assert !CutShort(override, path);
    } else {
      assert !CutShort(override, path);
    }
  }

  // --- associativity ---

  /** `small` adds nothing over `large`: every key is there, and tables in both are subsumed in turn. */
  ghost predicate Subsumed(small: Entries, large: Entries)
    decreases Table(large)
  {
    forall k :: k in small ==>
      && k in large
      && (small[k].Table? && large[k].Table? ==> Subsumed(small[k].entries, large[k].entries))
  }

  lemma {:induction false} AbsorbedWhenSubsumed(small: Entries, large: Entries)
    ensures DeepMerge(small, large) == large <==> Subsumed(small, large)
    decreases Table(large)
  {
    forall k | k in small && k in large && small[k].Table? && large[k].Table?
      ensures DeepMerge(small[k].entries, large[k].entries) == large[k].entries <==>
              Subsumed(small[k].entries, large[k].entries)
    {
      AbsorbedWhenSubsumed(small[k].entries, large[k].entries);
    }
    var merged := DeepMerge(small, large);
    if Subsumed(small, large) {
      assert merged.Keys == large.Keys;
      assert forall k :: k in large ==> merged[k] == large[k];
    } else {
      var k :| k in small && !(k in large
          && (small[k].Table? && large[k].Table? ==> Subsumed(small[k].entries, large[k].entries)));
      assert k in merged;
      if k in large { assert merged[k] == Table(DeepMerge(small[k].entries, large[k].entries)); }
    }
  }

  /**
    No value in the middle config hides a table of the first from a table of the last, except
    where the last has everything the first would contribute.
   */
  ghost predicate Compatible(a: Entries, b: Entries, c: Entries)
    decreases Table(c)
  {
    forall k :: k in a && k in b && k in c && a[k].Table? && c[k].Table? ==>
      if b[k].Table? then Compatible(a[k].entries, b[k].entries, c[k].entries) else Subsumed(a[k].entries, c[k].entries)
  }

  /** Merging three configs does not depend on the grouping exactly when they are compatible in that sense. */
  lemma {:induction false} MergeAssociative(a: Entries, b: Entries, c: Entries)
    ensures DeepMerge(DeepMerge(a, b), c) == DeepMerge(a, DeepMerge(b, c)) <==> Compatible(a, b, c)
    decreases Table(c), 1
  {
    var left, right := DeepMerge(DeepMerge(a, b), c), DeepMerge(a, DeepMerge(b, c));
    assert left.Keys == right.Keys;
    forall k | k in left ensures left[k] == right[k] <==> CompatibleAt(a, b, c, k) {
      AssociativeAt(a, b, c, k);
    }
    assert Compatible(a, b, c) <==> forall k :: k in left ==> CompatibleAt(a, b, c, k) by {
      assert forall k :: k in a ==> k in left;
    }
    if left == right {
      assert forall k :: k in left ==> left[k] == right[k];
    }
  }

  ghost predicate CompatibleAt(a: Entries, b: Entries, c: Entries, k: string) {
    k in a && k in b && k in c && a[k].Table? && c[k].Table? ==>
      if b[k].Table? then Compatible(a[k].entries, b[k].entries, c[k].entries) else Subsumed(a[k].entries, c[k].entries)
  }

  lemma {:induction false} AssociativeAt(a: Entries, b: Entries, c: Entries, k: string)
    requires k in a || k in b || k in c
    ensures var left, right := DeepMerge(DeepMerge(a, b), c), DeepMerge(a, DeepMerge(b, c));
            k in left && k in right && (left[k] == right[k] <==> CompatibleAt(a, b, c, k))
    decreases Table(c), 0
  {
    if k in a && k in b && k in c && a[k].Table? && c[k].Table? {
      if b[k].Table? {
        MergeAssociative(a[k].entries, b[k].entries, c[k].entries);
      } else {
        AbsorbedWhenSubsumed(a[k].entries, c[k].entries);
      }
    }
  }

  // --- resolving extends ---

  datatype Extends = Standalone | Paths(bases: seq<string>) | Malformed

  /** A file's parsed contents with its `extends` taken out, its targets already resolved to paths. */
  datatype File = Broken | Parsed(parents: Extends, own: Entries)

  type Files = map<string, File>

  datatype Error = Cycle | TooDeep | NotFound | BadExtends | BadToml

  datatype Result = Ok(entries: Entries) | Err(error: Error)

  const MAX_DEPTH: nat := 32

  /** Resolve one file; `stack` holds the files being resolved above it. */
  function ReadRaw(files: Files, path: string, stack: seq<string>): Result
    decreases MAX_DEPTH + 2 - |stack|, 1, 0
  {
    if path in stack then Err(Cycle)
    else if |stack| > MAX_DEPTH then Err(TooDeep)
    else if path !in files then Err(NotFound)
    else match files[path]
      case Broken => Err(BadToml)
      case Parsed(Standalone, own) => Ok(own)
      case Parsed(Malformed, _) => Err(BadExtends)
      case Parsed(Paths(bases), own) =>
        var merged := ReadBases(files, bases, stack + [path], map[]);
        if merged.Err? then merged else Ok(DeepMerge(merged.entries, own))
  }

  /** Merge the bases in order, later over earlier, onto what is merged so far. */
  function ReadBases(files: Files, bases: seq<string>, stack: seq<string>, merged: Entries): Result
    decreases MAX_DEPTH + 2 - |stack|, 2, |bases|
  {
    if bases == [] then Ok(merged)
    else if bases[0] !in files then Err(NotFound)
    else
      var base := ReadRaw(files, bases[0], stack);
      if base.Err? then base else ReadBases(files, bases[1..], stack, DeepMerge(merged, base.entries))
  }

  method Read(files: Files, path: string, stack: seq<string>) returns (r: Result)
    ensures r == ReadRaw(files, path, stack)
    decreases MAX_DEPTH + 2 - |stack|
  {
    if path in stack {
      return Err(Cycle);
    }
    if |stack| > MAX_DEPTH {
      return Err(TooDeep);
    }
    if path !in files {
      return Err(NotFound);
    }
    if files[path].Broken? {
      return Err(BadToml);
    }
    var parents := files[path].parents;
    if parents == Standalone {
      return Ok(files[path].own);
    }
    if parents == Malformed {
      return Err(BadExtends);
    }
    var merged: Entries := map[];
    for i := 0 to |parents.bases|
      invariant ReadBases(files, parents.bases, stack + [path], map[]) ==
                ReadBases(files, parents.bases[i..], stack + [path], merged)
    {
      assert parents.bases[i..][1..] == parents.bases[i + 1..];
      if parents.bases[i] !in files {
        return Err(NotFound);
      }
      var base := Read(files, parents.bases[i], stack + [path]);
      if base.Err? {
        return base;
      }
      merged := DeepMerge(merged, base.entries);
    }
    r := Ok(DeepMerge(merged, files[path].own));
  }

  // --- what a successful read means ---

  function BasesOf(files: Files, path: string): seq<string> {
    if path in files && files[path].Parsed? && files[path].parents.Paths? then files[path].parents.bases else []
  }

  predicate Readable(files: Files, path: string) {
    path in files && files[path].Parsed? && !files[path].parents.Malformed?
  }

  /** A chain of files each named in the `extends` of the one before. */
  ghost predicate IsChain(files: Files, chain: seq<string>) {
    |chain| > 0 && forall i :: 0 < i < |chain| ==> chain[i] in BasesOf(files, chain[i - 1])
  }

  /** The last file of the chain is readable, is not among the files above it, and is not too deep below them. */
  ghost predicate ChainFine(files: Files, stack: seq<string>, chain: seq<string>)
    requires |chain| > 0
  {
    var last, above := chain[|chain| - 1], stack + chain[..|chain| - 1];
    Readable(files, last) && last !in above && |above| <= MAX_DEPTH
  }

  ghost predicate AllChainsFine(files: Files, stack: seq<string>, path: string) {
    forall chain :: IsChain(files, chain) && chain[0] == path ==> ChainFine(files, stack, chain)
  }

  lemma ChainTail(files: Files, stack: seq<string>, path: string, chain: seq<string>)
    requires IsChain(files, chain) && chain[0] == path && |chain| > 1
    ensures chain[1] in BasesOf(files, path) && IsChain(files, chain[1..])
    ensures ChainFine(files, stack, chain) <==> ChainFine(files, stack + [path], chain[1..])
  {
    forall i | 0 < i < |chain[1..]| ensures chain[1..][i] in BasesOf(files, chain[1..][i - 1]) {
      assert chain[i + 1] in BasesOf(files, chain[i]);
    }
    assert stack + chain[..|chain| - 1] == stack + [path] + chain[1..][..|chain| - 2];
  }

  lemma ChainsSplit(files: Files, stack: seq<string>, path: string)
    ensures AllChainsFine(files, stack, path) <==>
            && ChainFine(files, stack, [path])
            && forall b :: b in BasesOf(files, path) ==> AllChainsFine(files, stack + [path], b)
  {
    assert IsChain(files, [path]);
    if AllChainsFine(files, stack, path) {
      forall b, chain | b in BasesOf(files, path) && IsChain(files, chain) && chain[0] == b
        ensures ChainFine(files, stack + [path], chain)
      {
        var longer := [path] + chain;
        forall i | 0 < i < |longer| ensures longer[i] in BasesOf(files, longer[i - 1]) {
          if i > 1 { assert chain[i - 1] in BasesOf(files, chain[i - 2]); }
        }
        assert longer[1..] == chain;
        ChainTail(files, stack, path, longer);
      }
    } else {
      var chain :| IsChain(files, chain) && chain[0] == path && !ChainFine(files, stack, chain);
      if |chain| > 1 {
        ChainTail(files, stack, path, chain);
        assert chain[1..][0] == chain[1];
      } else {
        assert chain == [path];
      }
    }
  }

  /**
    Reading succeeds exactly when every chain of `extends` from the file is free of cycles,
    within the depth cap, and leads only to files that exist and are well formed.
   */
  lemma {:induction false} ReadsIffChainsFine(files: Files, path: string, stack: seq<string>)
    ensures ReadRaw(files, path, stack).Ok? <==> AllChainsFine(files, stack, path)
    decreases MAX_DEPTH + 2 - |stack|, 1, 0
  {
    ChainsSplit(files, stack, path);
    assert stack + [path][..0] == stack;
    if ChainFine(files, stack, [path]) {
      var bases := BasesOf(files, path);
      BasesReadIffFine(files, bases, stack + [path], map[]);
    }
  }

  lemma {:induction false} BasesReadIffFine(files: Files, bases: seq<string>, stack: seq<string>, merged: Entries)
    ensures ReadBases(files, bases, stack, merged).Ok? <==> forall b :: b in bases ==> AllChainsFine(files, stack, b)
    decreases MAX_DEPTH + 2 - |stack|, 2, |bases|
  {
    if bases != [] {
      assert forall b :: b in bases <==> b == bases[0] || b in bases[1..];
      ReadsIffChainsFine(files, bases[0], stack);
      if bases[0] !in files {
        assert IsChain(files, [bases[0]]) && [bases[0]][0] == bases[0];
        assert !ChainFine(files, stack, [bases[0]]);
        assert !AllChainsFine(files, stack, bases[0]);
      } else if ReadRaw(files, bases[0], stack).Ok? {
        BasesReadIffFine(files, bases[1..], stack, DeepMerge(merged, ReadRaw(files, bases[0], stack).entries));
      }
    }
  }

  /** A file reached twice along different chains reads the same each time: the stack only guards against cycles. */
  lemma {:induction false} ReadIgnoresStack(files: Files, path: string, stack: seq<string>, other: seq<string>)
    requires ReadRaw(files, path, stack).Ok? && ReadRaw(files, path, other).Ok?
    ensures ReadRaw(files, path, stack) == ReadRaw(files, path, other)
    decreases MAX_DEPTH + 2 - |stack|, 1, 0
  {
    var bases := BasesOf(files, path);
    if files[path].parents.Paths? {
      BasesIgnoreStack(files, bases, stack + [path], other + [path], map[]);
    }
  }

  lemma {:induction false} BasesIgnoreStack(files: Files, bases: seq<string>, stack: seq<string>, other: seq<string>,
                                            merged: Entries)
    requires ReadBases(files, bases, stack, merged).Ok? && ReadBases(files, bases, other, merged).Ok?
    ensures ReadBases(files, bases, stack, merged) == ReadBases(files, bases, other, merged)
    decreases MAX_DEPTH + 2 - |stack|, 2, |bases|
  {
    if bases != [] {
      ReadIgnoresStack(files, bases[0], stack, other);
      BasesIgnoreStack(files, bases[1..], stack, other, DeepMerge(merged, ReadRaw(files, bases[0], stack).entries));
    }
  }

  /** What the bases of a file contribute: each read on its own, later ones over earlier ones. */
  ghost function Layered(files: Files, bases: seq<string>, stack: seq<string>): Entries
    decreases |bases|
  {
    if bases == [] then map[]
    else
      var last := ReadRaw(files, bases[|bases| - 1], stack);
      DeepMerge(Layered(files, bases[..|bases| - 1], stack), if last.Ok? then last.entries else map[])
  }

  lemma {:induction false} BasesAreLayered(files: Files, bases: seq<string>, n: nat, stack: seq<string>)
    requires n <= |bases| && ReadBases(files, bases[n..], stack, Layered(files, bases[..n], stack)).Ok?
    ensures ReadBases(files, bases[n..], stack, Layered(files, bases[..n], stack)) == Ok(Layered(files, bases, stack))
    decreases |bases| - n
  {
    if n == |bases| {
      assert bases[..n] == bases && bases[n..] == [];
    } else {
      assert bases[n..][1..] == bases[n + 1..] && bases[..n + 1][..n] == bases[..n];
      BasesAreLayered(files, bases, n + 1, stack);
    }
  }

  /**
    A successful read is the ordered merge, and at every path where the declaring file has a
    plain value that value is the result; where it says nothing, the latest base shows through.
   */
  lemma DeclaringFileWins(files: Files, path: string, at: seq<string>)
    requires ReadRaw(files, path, []).Ok? && files[path].parents.Paths?
    ensures var r := ReadRaw(files, path, []).entries;
            var below := Layered(files, files[path].parents.bases, [path]);
            && r == DeepMerge(below, files[path].own)
            && Lookup(r, at) == MergedAt(below, files[path].own, at)
  {
    var bases := files[path].parents.bases;
    assert [] + [path] == [path] && bases[0..] == bases && bases[..0] == [];
    BasesAreLayered(files, bases, 0, [path]);
    MergePathwise(Layered(files, bases, [path]), files[path].own, at);
  }
}
