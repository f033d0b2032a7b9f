/** Reducing a list of paths to those no other path of the list contains. */
module PathCover {
  import opened Bytes
  import opened Ordering

  /** Path components in the order `Path` compares them. */
  datatype Component = RootDir | CurDir | ParentDir | Normal(name: seq<byte>) {
    function Rank(): nat {
      match this
      case RootDir => 0
      case CurDir => 1
      case ParentDir => 2
      case Normal(_) => 3
    }
  }

  type Path = seq<Component>

  predicate ByteLe(a: byte, b: byte) { a <= b }

  predicate ComponentLe(a: Component, b: Component) {
    if a.Normal? && b.Normal? then LexLe(a.name, b.name, ByteLe) else a.Rank() <= b.Rank()
  }

  predicate PathLe(a: Path, b: Path) { LexLe(a, b, ComponentLe) }

  lemma ComponentOrder()
    ensures TotalOrder(ComponentLe)
  {
    forall x, y
      ensures ComponentLe(x, x) && (ComponentLe(x, y) || ComponentLe(y, x))
      ensures ComponentLe(x, y) && ComponentLe(y, x) ==> x == y
    {
      if x.Normal? {
        LexRefl(x.name, ByteLe);
      }
      if x.Normal? && y.Normal? {
        LexTotal(x.name, y.name, ByteLe);
      }
    }
    forall x, y, z | ComponentLe(x, y) && ComponentLe(y, z)
      ensures ComponentLe(x, z)
    {
      if x.Normal? && y.Normal? && z.Normal? {
        LexTrans(x.name, y.name, z.name, ByteLe);
      }
    }
  }

  lemma PathOrder()
    ensures TotalOrder(PathLe)
  {
    ComponentOrder();
    forall a, b
      ensures PathLe(a, a) && (PathLe(a, b) || PathLe(b, a))
      ensures PathLe(a, b) && PathLe(b, a) ==> a == b
    {
      LexRefl(a, ComponentLe);
      LexTotal(a, b, ComponentLe);
    }
    forall a, b, c | PathLe(a, b) && PathLe(b, c)
      ensures PathLe(a, c)
    {
      LexTrans(a, b, c, ComponentLe);
    }
  }

  /** `path.starts_with(base)`: a prefix by whole components. */
  predicate StartsWith(path: Path, base: Path) {
    |base| <= |path| && path[..|base|] == base
  }

  lemma {:induction false} PrefixLe(base: Path, path: Path)
    requires StartsWith(path, base)
    ensures PathLe(base, path)
    decreases |base|
  {
    if base != [] {
      assert path[0] == path[..|base|][0];
      assert path[1..][..|base| - 1] == path[..|base|][1..];
      PrefixLe(base[1..], path[1..]);
    }
  }

  /** Descendants are contiguous: whatever lies between a path and its descendant is a descendant too. */
  lemma {:induction false} Between(base: Path, mid: Path, path: Path)
    requires StartsWith(path, base) && PathLe(base, mid) && PathLe(mid, path)
    ensures StartsWith(mid, base)
    decreases |base|
  {
    if base != [] {
      ComponentOrder();
      hide ComponentLe;
      assert path[0] == path[..|base|][0] == base[0];
      assert mid != [];
      assert mid[0] == base[0];
      assert path[1..][..|base| - 1] == path[..|base|][1..] == base[1..];
      Between(base[1..], mid[1..], path[1..]);
      assert mid[..|base|] == [mid[0]] + mid[1..][..|base| - 1];
      assert base == [base[0]] + base[1..];
    }
  }

  lemma PrefixTrans(a: Path, b: Path, c: Path)
    requires StartsWith(b, a) && StartsWith(c, b)
    ensures StartsWith(c, a)
  {
    assert c[..|a|] == c[..|b|][..|a|];
  }

  /** Two ancestors of the same path are related to each other. */
  lemma PrefixesCompare(a: Path, b: Path, path: Path)
    requires StartsWith(path, a) && StartsWith(path, b)
    ensures StartsWith(a, b) || StartsWith(b, a)
  {
    if |a| <= |b| {
      assert b[..|a|] == path[..|b|][..|a|];
    } else {
      assert a[..|b|] == path[..|a|][..|b|];
    }
  }

  /** No kept path contains another. */
  ghost predicate Antichain(unique: seq<Path>) {
    forall i, j :: 0 <= i < |unique| && 0 <= j < |unique| && i != j ==> !StartsWith(unique[j], unique[i])
  }

  /** Some kept path contains `p`. */
  ghost predicate Under(p: Path, unique: seq<Path>) {
    exists u :: u in unique && StartsWith(p, u)
  }

  ghost predicate Covered(paths: seq<Path>, unique: seq<Path>) {
    forall p :: p in paths ==> Under(p, unique)
  }

  /** A path of the list without a proper ancestor in it. */
  ghost predicate Topmost(paths: seq<Path>, p: Path) {
    p in paths && forall q <- paths :: StartsWith(p, q) ==> q == p
  }

  /** What the loop has established after the first paths of a sorted list. */
  ghost predicate CoverOf(paths: seq<Path>, unique: seq<Path>) {
    && Antichain(unique)
    && Covered(paths, unique)
    && (forall u <- unique :: u in paths)
    && Sorted(unique, PathLe)
    && (paths != [] ==> unique != [] && PathLe(unique[|unique| - 1], paths[|paths| - 1]))
  }

  lemma SkipStep(paths: seq<Path>, unique: seq<Path>, p: Path)
    requires CoverOf(paths, unique) && Sorted(paths + [p], PathLe)
    requires unique != [] && StartsWith(p, unique[|unique| - 1])
    ensures CoverOf(paths + [p], unique)
  {
    PrefixLe(unique[|unique| - 1], p);
    hide StartsWith, Antichain, PathLe, Sorted;
    assert Under(p, unique);
  }

  lemma AntichainSnoc(unique: seq<Path>, p: Path)
    requires Antichain(unique)
    requires forall i :: 0 <= i < |unique| ==> !StartsWith(p, unique[i]) && !StartsWith(unique[i], p)
    ensures Antichain(unique + [p])
  {
    hide StartsWith;
  }

  lemma CoveredSnoc(paths: seq<Path>, unique: seq<Path>, p: Path)
    requires Covered(paths, unique)
    ensures Covered(paths + [p], unique + [p])
  {
    Reflexive(p);
    hide StartsWith;
    forall q | q in paths + [p]
      ensures Under(q, unique + [p])
    {
      if q in paths {
        var u :| u in unique && StartsWith(q, u);
        assert u in unique + [p];
      } else {
        assert p in unique + [p];
      }
    }
  }

  lemma LastIsGreatest(paths: seq<Path>, p: Path)
    requires Sorted(paths + [p], PathLe)
    ensures forall q :: q in paths ==> PathLe(q, p)
  {
    hide PathLe;
    forall q | q in paths
      ensures PathLe(q, p)
    {
      var k :| 0 <= k < |paths| && paths[k] == q;
      assert (paths + [p])[k] == q && (paths + [p])[|paths|] == p;
    }
  }

  lemma SortedSnoc(unique: seq<Path>, p: Path)
    requires Sorted(unique, PathLe) && forall u :: u in unique ==> PathLe(u, p)
    ensures Sorted(unique + [p], PathLe)
  {
    hide PathLe;
    assert forall i :: 0 <= i < |unique| ==> unique[i] in unique;
  }

  lemma KeepStep(paths: seq<Path>, unique: seq<Path>, p: Path)
    requires CoverOf(paths, unique) && Sorted(paths + [p], PathLe)
    requires unique == [] || !StartsWith(p, unique[|unique| - 1])
    ensures CoverOf(paths + [p], unique + [p])
  {
    PathOrder();
    LastIsGreatest(paths, p);
    forall i | 0 <= i < |unique|
      ensures !StartsWith(p, unique[i]) && !StartsWith(unique[i], p)
    {
      NoRelation(paths, unique, p, i);
    }
    hide StartsWith, PathLe, Antichain, Covered, Sorted;
    AntichainSnoc(unique, p);
    CoveredSnoc(paths, unique, p);
    SortedSnoc(unique, p);
  }

  lemma Reflexive(p: Path)
    ensures StartsWith(p, p)
  {
  }

  /** The comparison with the last kept path alone decides for all of them. */
  lemma NoRelation(paths: seq<Path>, unique: seq<Path>, p: Path, i: nat)
    requires CoverOf(paths, unique) && TotalOrder(PathLe)
    requires unique != [] && !StartsWith(p, unique[|unique| - 1]) && i < |unique|
    requires forall q <- paths :: PathLe(q, p)
    ensures !StartsWith(p, unique[i]) && !StartsWith(unique[i], p)
  {
    var last := unique[|unique| - 1];
    assert unique[i] in unique && last in unique;
    if StartsWith(p, unique[i]) {
      Between(unique[i], last, p);
    }
    if StartsWith(unique[i], p) {
      PrefixLe(p, unique[i]);
    }
  }

  method DeduplicatePaths(input: seq<Path>) returns (unique: seq<Path>)
    ensures Antichain(unique) && Sorted(unique, PathLe)
    ensures forall p :: p in unique <==> Topmost(input, p)
    ensures forall i, j :: 0 <= i < j < |unique| ==> unique[i] != unique[j]
    ensures forall p <- input :: Under(p, unique)
    ensures forall p <- input :: forall u <- unique, v <- unique :: StartsWith(p, u) && StartsWith(p, v) ==> u == v
  {
    hide StartsWith, PathLe, Antichain, Covered, Sorted, CoverOf;
    if input == [] {
      unique := [];
      EmptyCover();
      CoverMeaning(input, input, unique);
      return;
    }
    PathOrder();
    var paths := Sort(input, PathLe);
    SortSorted(input, PathLe);
    paths := Dedup(paths);
    assert forall p :: p in paths <==> p in multiset(input);

    unique := [];
    EmptyCover();
    for i := 0 to |paths|
      invariant CoverOf(paths[..i], unique)
    {
      var path := paths[i];
      assert paths[..i + 1] == paths[..i] + [path];
      SortedPrefix(paths, i + 1);
      if unique != [] && StartsWith(path, unique[|unique| - 1]) {
        SkipStep(paths[..i], unique, path);
        continue;
      }
      KeepStep(paths[..i], unique, path);
      unique := unique + [path];
    }
    assert paths[..|paths|] == paths;
    CoverMeaning(input, paths, unique);
  }

  lemma EmptyCover()
    ensures CoverOf([], [])
  {
  }

  lemma SortedPrefix(paths: seq<Path>, n: nat)
    requires Sorted(paths, PathLe) && n <= |paths|
    ensures Sorted(paths[..n], PathLe)
  {
  }

  /** `Vec::dedup`: consecutive repetitions are dropped. */
  method Dedup(paths: seq<Path>) returns (r: seq<Path>)
    requires Sorted(paths, PathLe)
    ensures Sorted(r, PathLe)
    ensures forall p :: p in r <==> p in paths
  {
    hide PathLe;
    r := [];
    for i := 0 to |paths|
      invariant Sorted(r, PathLe)
      invariant forall p :: p in r <==> p in paths[..i]
    {
      assert paths[..i + 1] == paths[..i] + [paths[i]];
      if r == [] || r[|r| - 1] != paths[i] {
        forall k | 0 <= k < |r|
          ensures PathLe(r[k], paths[i])
        {
          assert r[k] in paths[..i];
        }
        r := r + [paths[i]];
      }
    }
    assert paths[..|paths|] == paths;
  }

  /** From the loop's result to what the caller is promised. */
  lemma CoverMeaning(input: seq<Path>, paths: seq<Path>, unique: seq<Path>)
    requires CoverOf(paths, unique) && forall p :: p in paths <==> p in input
    ensures Antichain(unique) && Sorted(unique, PathLe)
    ensures forall p :: p in unique <==> Topmost(input, p)
    ensures forall i, j :: 0 <= i < j < |unique| ==> unique[i] != unique[j]
    ensures forall p <- input :: Under(p, unique)
    ensures forall p <- input :: forall u <- unique, v <- unique :: StartsWith(p, u) && StartsWith(p, v) ==> u == v
  {
    hide PathLe, StartsWith, Sorted, Topmost, Under;
    forall p, u, v | p in input && u in unique && v in unique && StartsWith(p, u) && StartsWith(p, v)
      ensures u == v
    {
      PrefixesCompare(u, v, p);
      OneElement(unique, u, v);
    }
    forall i, j | 0 <= i < j < |unique|
      ensures unique[i] != unique[j]
    {
      Reflexive(unique[i]);
    }
    forall p
      ensures p in unique <==> Topmost(input, p)
    {
      TopmostIff(input, paths, unique, p);
    }
  }

  /** Related elements of an antichain are the same. */
  lemma OneElement(unique: seq<Path>, u: Path, v: Path)
    requires Antichain(unique) && u in unique && v in unique && (StartsWith(u, v) || StartsWith(v, u))
    ensures u == v
  {
    hide StartsWith;
    var i :| 0 <= i < |unique| && unique[i] == u;
    var j :| 0 <= j < |unique| && unique[j] == v;
  }

  lemma TopmostIff(input: seq<Path>, paths: seq<Path>, unique: seq<Path>, p: Path)
    requires CoverOf(paths, unique) && forall q :: q in paths <==> q in input
    ensures p in unique <==> Topmost(input, p)
  {
    hide PathLe, StartsWith, Sorted, Antichain;
    if p in unique {
      forall q | q in input && StartsWith(p, q)
        ensures q == p
      {
        assert Under(q, unique);
        var u :| u in unique && StartsWith(q, u);
        PrefixTrans(u, q, p);
        OneElement(unique, u, p);
        PrefixBoth(p, q);
      }
    }
    if Topmost(input, p) {
      assert Under(p, unique);
      var u :| u in unique && StartsWith(p, u);
      assert u in input;
    }
  }

  lemma PrefixBoth(a: Path, b: Path)
    requires StartsWith(a, b) && StartsWith(b, a)
    ensures a == b
  {
  }
}
