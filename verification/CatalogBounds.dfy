/** Parsing stays bounded on every byte string, well-formed or not. */
module CatalogBounds {
  import opened Bytes
  import opened Varint
  import opened Catalog
  import opened CatalogReading

  /** `e` was reached from the root table, or from a table opened one level up before position `i`. */
  ghost predicate Reached(expanded: seq<Expansion>, i: nat, root: nat, e: Expansion) {
    && e.depth < MAX_CATALOG_DEPTH
    && e.offset < e.parent
    && if e.depth == 0 then e.parent == root
       else exists j :: 0 <= j < i <= |expanded| && expanded[j].offset == e.parent && expanded[j].depth == e.depth - 1
  }

  ghost predicate Offsets(expanded: seq<Expansion>, root: nat, visited: set<nat>) {
    && root in visited
    && (forall i :: 0 <= i < |expanded| ==> expanded[i].offset in visited && expanded[i].offset != root)
    && (forall v <- visited :: v == root || exists i :: 0 <= i < |expanded| && expanded[i].offset == v)
    && (forall i, j :: 0 <= i < j < |expanded| ==> expanded[i].offset != expanded[j].offset)
  }

  /**
   The listing is within its limit; no table was opened twice; and every opened
   table lies before its parent, at a depth within the limit.
   */
  ghost predicate Bounded(s: WalkState, root: nat) {
    && |s.out| <= MAX_CATALOG_ENTRIES
    && Offsets(s.expanded, root, s.visited)
    && (forall i :: 0 <= i < |s.expanded| ==> Reached(s.expanded, i, root, s.expanded[i]))
  }

  /** A table at `parent` whose entries are being walked at `depth`. */
  ghost predicate Open(expanded: seq<Expansion>, root: nat, parent: nat, depth: nat) {
    if depth == 0 then parent == root
    else exists j :: 0 <= j < |expanded| && expanded[j].offset == parent && expanded[j].depth == depth - 1
  }

  ghost predicate Grows(s: WalkState, t: WalkState) {
    s.out <= t.out && s.visited <= t.visited && s.expanded <= t.expanded
  }

  lemma OffsetsEnter(expanded: seq<Expansion>, root: nat, visited: set<nat>, e: Expansion)
    requires Offsets(expanded, root, visited) && e.offset !in visited
    ensures Offsets(expanded + [e], root, visited + {e.offset})
  {
    var t := expanded + [e];
    assert t[|expanded|] == e;
    forall v | v in visited && v != root
      ensures exists i :: 0 <= i < |t| && t[i].offset == v
    {
      var i :| 0 <= i < |expanded| && expanded[i].offset == v;
      assert t[i].offset == v;
    }
  }

  lemma ReachedGrows(s: seq<Expansion>, t: seq<Expansion>, i: nat, root: nat, e: Expansion)
    requires Reached(s, i, root, e) && s <= t
    ensures Reached(t, i, root, e)
  {
    if e.depth != 0 {
      var j :| 0 <= j < i <= |s| && s[j].offset == e.parent && s[j].depth == e.depth - 1;
      assert t[j] == s[j];
    }
  }

  lemma {:induction false} EnterBounded(s: WalkState, root: nat, blockPos: nat, parent: nat, depth: nat)
    requires Bounded(s, root) && Open(s.expanded, root, parent, depth) && parent in s.visited
    requires blockPos <= parent && blockPos !in s.visited && depth < MAX_CATALOG_DEPTH
    ensures var t := s.(visited := s.visited + {blockPos}, expanded := s.expanded + [Expansion(blockPos, parent, depth)]);
      Bounded(t, root) && Open(t.expanded, root, blockPos, depth + 1) && blockPos in t.visited
  {
    var n := |s.expanded|;
    var e := Expansion(blockPos, parent, depth);
    var t := s.(visited := s.visited + {blockPos}, expanded := s.expanded + [e]);
    OffsetsEnter(s.expanded, root, s.visited, e);
    assert Reached(s.expanded, n, root, e);
    assert t.expanded[n] == e;
    hide Offsets, Reached;
    ReachedGrows(s.expanded, t.expanded, n, root, e);
    forall i | 0 <= i < n
      ensures Reached(t.expanded, i, root, t.expanded[i])
    {
      ReachedGrows(s.expanded, t.expanded, i, root, s.expanded[i]);
    }
  }

  lemma OpenGrows(s: seq<Expansion>, t: seq<Expansion>, root: nat, parent: nat, depth: nat)
    requires s <= t && Open(s, root, parent, depth)
    ensures Open(t, root, parent, depth)
  {
    if depth != 0 {
      var j :| 0 <= j < |s| && s[j].offset == parent && s[j].depth == depth - 1;
      assert t[j] == s[j];
    }
  }

  lemma {:induction false} WalkBounded(data: seq<byte>, blockPos: nat, parent: nat, base: Path, depth: nat, s: WalkState, root: nat)
    requires Bounded(s, root) && Open(s.expanded, root, parent, depth) && parent in s.visited && blockPos <= parent
    ensures var t := Walk(data, blockPos, parent, base, depth, s); Bounded(t, root) && Grows(s, t)
    decreases MAX_CATALOG_DEPTH - depth, 1, 0
  {
    hide ReadTable, Bounded, Open;
    if depth < MAX_CATALOG_DEPTH && blockPos !in s.visited {
      EnterBounded(s, root, blockPos, parent, depth);
      var t := s.(visited := s.visited + {blockPos}, expanded := s.expanded + [Expansion(blockPos, parent, depth)]);
      match ReadTable(data, blockPos) {
        case Err(e) => FailBounded(t, root, e);
        case Ok(entries) => WalkEntriesBounded(data, entries, blockPos, base, depth, t, root);
      }
    } else {
      FailBounded(s, root, NestingTooDeep);
      FailBounded(s, root, BlockRevisited);
    }
  }

  lemma FailBounded(s: WalkState, root: nat, e: DecodeError)
    requires Bounded(s, root)
    ensures Bounded(s.Fail(e), root)
  {
  }

  lemma {:induction false} WalkEntriesBounded(data: seq<byte>, entries: seq<RawEntry>, blockPos: nat, base: Path, depth: nat,
                                              s: WalkState, root: nat)
    requires Bounded(s, root) && Open(s.expanded, root, blockPos, depth + 1) && blockPos in s.visited
    requires PointsBack(entries, blockPos) && depth < MAX_CATALOG_DEPTH
    ensures var t := WalkEntries(data, entries, blockPos, base, depth, s); Bounded(t, root) && Grows(s, t)
    decreases MAX_CATALOG_DEPTH - depth, 0, |entries|
  {
    hide Open, Offsets, Reached;
    if entries != [] {
      if |s.out| >= MAX_CATALOG_ENTRIES {
        FailBounded(s, root, TooManyEntries);
      } else {
        var path := base + [entries[0].name];
        var listed := s.(out := s.out + Listed(entries[0].kind, path));
        assert Bounded(listed, root);
        if entries[0].kind.RawDirectory? {
          WalkBounded(data, entries[0].kind.child, blockPos, path, depth + 1, listed, root);
        }
        var next := WalkEntry(data, entries[0], blockPos, base, depth, s);
        if next.error.None? {
          OpenGrows(s.expanded, next.expanded, root, blockPos, depth + 1);
          WalkEntriesBounded(data, entries[1..], blockPos, base, depth, next, root);
        }
      }
    }
  }

  lemma {:induction false} WalkRootBounded(data: seq<byte>, entries: seq<RawEntry>, root: nat, s: WalkState)
    requires Bounded(s, root) && PointsBack(entries, root)
    ensures Bounded(WalkRoot(data, entries, root, s), root)
  {
    hide Walk, Offsets, Reached;
    if entries != [] {
      match entries[0].kind {
        case RawDirectory(child) =>
          assert root in s.visited by { RootVisited(s, root); }
          WalkBounded(data, child, root, [], 0, s, root);
          if Walk(data, child, root, [], 0, s).error.None? {
            WalkRootBounded(data, entries[1..], root, Walk(data, child, root, [], 0, s));
          }
        case RawFile(size, mtime) =>
          if |s.out| >= MAX_CATALOG_ENTRIES {
            FailBounded(s, root, TooManyEntries);
          } else {
            var next := WalkRootEntry(data, entries[0], root, s);
            assert Bounded(next, root);
            WalkRootBounded(data, entries[1..], root, next);
          }
        case _ => WalkRootBounded(data, entries[1..], root, s);
      }
    }
  }

  lemma RootVisited(s: WalkState, root: nat)
    requires Bounded(s, root)
    ensures root in s.visited
  {
  }

  /**
   On every input: the output is within its limit, no block is opened twice,
   every block opened lies before the block that led to it, and nesting is limited.
   */
  lemma ParseIsBounded(data: seq<byte>)
    ensures if CATALOG_MAGIC <= data then Bounded(Parse(data), RootOffset(data))
            else Parse(data) == WalkState([], {}, [], Some(InvalidMagic))
  {
    hide ReadTable, WalkRoot, Reached;
    if !(CATALOG_MAGIC <= data) {
      return;
    }
    var root := RootOffset(data);
    var entered := WalkState([], {root}, [], None);
    assert Bounded(entered, root);
    match ReadTable(data, root) {
      case Err(e) => FailBounded(entered, root, e);
      case Ok(entries) => WalkRootBounded(data, entries, root, entered);
    }
  }

  /** Since every opened block starts at its own byte below the root, at most `root` blocks are opened. */
  lemma ExpansionsAreFew(data: seq<byte>)
    requires CATALOG_MAGIC <= data
    ensures |Parse(data).expanded| <= RootOffset(data)
  {
    hide Parse, ReadTable, FromLittleEndian;
    ParseIsBounded(data);
    var s := Parse(data);
    var root := RootOffset(data);
    BelowRoot(s, root, |s.expanded|);
    var offsets := set i | 0 <= i < |s.expanded| :: s.expanded[i].offset;
    OffsetCount(s.expanded, |s.expanded|);
    SubsetOfRange(offsets, root);
  }

  lemma {:induction false} BelowRoot(s: WalkState, root: nat, n: nat)
    requires Bounded(s, root) && n <= |s.expanded|
    ensures forall i :: 0 <= i < n ==> s.expanded[i].offset < root
  {
    hide Offsets;
    if n > 0 {
      BelowRoot(s, root, n - 1);
      assert Reached(s.expanded, n - 1, root, s.expanded[n - 1]);
    }
  }

  lemma {:induction false} OffsetCount(expanded: seq<Expansion>, n: nat)
    requires n <= |expanded|
    requires forall i, j :: 0 <= i < j < |expanded| ==> expanded[i].offset != expanded[j].offset
    ensures |set i | 0 <= i < n :: expanded[i].offset| == n
  {
    if n > 0 {
      OffsetCount(expanded, n - 1);
      var smaller := set i | 0 <= i < n - 1 :: expanded[i].offset;
      var last := expanded[n - 1].offset;
      assert last !in smaller;
      assert |smaller + {last}| == n;
      assert (set i | 0 <= i < n :: expanded[i].offset) == smaller + {last};
    }
  }

  lemma {:induction false} SubsetOfRange(s: set<nat>, n: nat)
    requires forall x <- s :: x < n
    ensures |s| <= n
  {
    if n == 0 {
      assert s == {};
    } else {
      SubsetOfRange(s - {n - 1}, n - 1);
    }
  }
}
