/** Parsing what the writer wrote gives back the pre-order listing of the tree. */
module CatalogRoundTrip {
  import opened Bytes
  import opened Varint
  import opened Catalog
  import opened CatalogReading

  // ----- what a tree lists, without any reference to bytes

  function ItemListing(kind: ItemKind, path: Path): seq<ArchiveEntry> {
    match kind
    case File(size, mtime) => [ArchiveEntry(path, FileKind, size, MODE_FILE, mtime)]
    case Hardlink => [ArchiveEntry(path, FileKind, 0, MODE_FILE, 0)]
    case Symlink => [ArchiveEntry(path, SymlinkKind, 0, MODE_SYMLINK, 0)]
    case _ => []
  }

  /** The pre-order listing of `nodes` below `base`. */
  function Listing(nodes: seq<Node>, base: Path): seq<ArchiveEntry>
    decreases nodes, 0
  {
    if nodes == [] then [] else NodeListing(nodes[0], base) + Listing(nodes[1..], base)
  }

  function NodeListing(node: Node, base: Path): seq<ArchiveEntry>
    decreases node, 1
  {
    var path := base + [node.name];
    match node
    case Leaf(_, kind) => ItemListing(kind, path)
    case Dir(_, children) => [ArchiveEntry(path, DirectoryKind, 0, MODE_DIRECTORY, 0)] + Listing(children, path)
  }

  /** A root directory contributes its contents without its own name; only files count among the root's other entries. */
  function RootNodeListing(node: Node): seq<ArchiveEntry> {
    match node
    case Dir(_, children) => Listing(children, [])
    case Leaf(name, File(size, mtime)) => [ArchiveEntry([name], FileKind, size, MODE_FILE, mtime)]
    case Leaf(_, _) => []
  }

  function RootListing(nodes: seq<Node>): seq<ArchiveEntry> {
    if nodes == [] then [] else RootNodeListing(nodes[0]) + RootListing(nodes[1..])
  }

  // ----- when a tree can be listed

  predicate NamesValid(nodes: seq<Node>) {
    forall n <- nodes :: ValidName(n.name)
  }

  /** The names in every directory below `nodes` are valid. */
  predicate NamesValidBelow(nodes: seq<Node>) {
    forall n <- nodes :: n.Dir? ==> NamesValid(n.children) && NamesValidBelow(n.children)
  }

  function Max(a: nat, b: nat): nat { if a < b then b else a }

  /** How many directories can be entered one inside the other. */
  function Height(nodes: seq<Node>): nat {
    if nodes == [] then 0
    else Max(if nodes[0].Dir? then 1 + Height(nodes[0].children) else 0, Height(nodes[1..]))
  }

  /** The last entry met in pre-order is one that is not listed, such as a device or a socket. */
  predicate EndsSilently(nodes: seq<Node>)
    requires nodes != []
  {
    match nodes[|nodes| - 1]
    case Leaf(_, kind) => kind.BlockDevice? || kind.CharDevice? || kind.Fifo? || kind.Socket?
    case Dir(_, children) => children != [] && EndsSilently(children)
  }

  /**
   The entry limit is checked before every entry, listed or not, so a full
   listing is accepted only if nothing silent follows.
   */
  predicate FitsLimit(nodes: seq<Node>, before: nat) {
    nodes != [] ==>
      before + |Listing(nodes, [])| + (if EndsSilently(nodes) then 1 else 0) <= MAX_CATALOG_ENTRIES
  }

  /** The tree below can be walked at `depth` with `before` entries listed already. */
  predicate Listable(nodes: seq<Node>, depth: nat, before: nat) {
    depth + Height(nodes) < MAX_CATALOG_DEPTH && NamesValidBelow(nodes) && FitsLimit(nodes, before)
  }

  predicate RootNodeListable(node: Node, before: nat) {
    match node
    case Dir(_, children) => NamesValid(children) && Listable(children, 0, before)
    case Leaf(_, File(_, _)) => before < MAX_CATALOG_ENTRIES
    case Leaf(_, _) => true
  }

  predicate RootListable(nodes: seq<Node>, before: nat) {
    nodes != [] ==>
      && RootNodeListable(nodes[0], before)
      && RootListable(nodes[1..], before + |RootNodeListing(nodes[0])|)
  }

  /** Names, depth and size read off the tree as a whole. */
  predicate WellFormed(nodes: seq<Node>) {
    && NamesValid(nodes)
    && NamesValidBelow(nodes)
    && Height(nodes) <= MAX_CATALOG_DEPTH
  }

  /**
   A well-formed tree below the entry limit is accepted, and no tree above it
   is; only a listing of exactly the limit depends on what follows its last entry.
   */
  lemma {:induction false} RootListableBySize(nodes: seq<Node>, before: nat)
    ensures WellFormed(nodes) && before + |RootListing(nodes)| < MAX_CATALOG_ENTRIES ==> RootListable(nodes, before)
    ensures RootListable(nodes, before) && before <= MAX_CATALOG_ENTRIES ==>
              before + |RootListing(nodes)| <= MAX_CATALOG_ENTRIES
    ensures RootListable(nodes, before) ==> NamesValidBelow(nodes) && Height(nodes) <= MAX_CATALOG_DEPTH
    decreases |nodes|
  {
    hide NamesValid, NodeListing, ValidName, EndsSilently;
    if nodes != [] {
      RootListableBySize(nodes[1..], before + |RootNodeListing(nodes[0])|);
      assert NamesValid(nodes) ==> NamesValid(nodes[1..]) by { NamesValidTail(nodes); }
      assert nodes == [nodes[0]] + nodes[1..];
    }
  }

  lemma NamesValidTail(nodes: seq<Node>)
    requires nodes != []
    ensures NamesValid(nodes) ==> NamesValid(nodes[1..])
  {
  }

  lemma {:induction false} ListingLength(nodes: seq<Node>, a: Path, b: Path)
    ensures |Listing(nodes, a)| == |Listing(nodes, b)|
    decreases nodes
  {
    if nodes != [] {
      ListingLength(nodes[1..], a, b);
      if nodes[0].Dir? {
        ListingLength(nodes[0].children, a + [nodes[0].name], b + [nodes[0].name]);
      }
    }
  }

  /** `Listable` seen one node at a time, the way the walk meets it. */
  predicate Walkable(nodes: seq<Node>, depth: nat, before: nat) {
    nodes != [] ==>
      && before < MAX_CATALOG_ENTRIES
      && (nodes[0].Dir? ==>
            && depth + 1 < MAX_CATALOG_DEPTH
            && NamesValid(nodes[0].children)
            && Walkable(nodes[0].children, depth + 1, before + 1))
      && Walkable(nodes[1..], depth, before + |NodeListing(nodes[0], [])|)
  }

  /** How much room of the limit a non-empty run of nodes takes, counting a silent end as one more. */
  function Room(nodes: seq<Node>): nat
    requires nodes != []
  {
    |Listing(nodes, [])| + (if EndsSilently(nodes) then 1 else 0)
  }

  lemma RoomOfNode(node: Node)
    ensures |NodeListing(node, [])| + (if EndsSilently([node]) then 1 else 0) >= 1
    ensures node.Dir? ==> |NodeListing(node, [])| == 1 + |Listing(node.children, [])|
    ensures node.Dir? ==> (EndsSilently([node]) <==> node.children != [] && EndsSilently(node.children))
    ensures node.Leaf? ==> |NodeListing(node, [])| + (if EndsSilently([node]) then 1 else 0) == 1
  {
    if node.Dir? {
      ListingLength(node.children, [], [] + [node.name]);
    }
  }

  lemma RoomCons(nodes: seq<Node>)
    requires nodes != []
    ensures |Listing(nodes, [])| == |NodeListing(nodes[0], [])| + |Listing(nodes[1..], [])|
    ensures EndsSilently(nodes) <==> if nodes[1..] == [] then EndsSilently([nodes[0]]) else EndsSilently(nodes[1..])
  {
    hide NodeListing;
    assert nodes[|nodes| - 1] == if nodes[1..] == [] then nodes[0] else nodes[1..][|nodes| - 2];
  }

  lemma {:induction false} RoomIsPositive(nodes: seq<Node>)
    requires nodes != []
    ensures Room(nodes) >= 1
  {
    hide Listing, NodeListing, EndsSilently;
    RoomCons(nodes);
    RoomOfNode(nodes[0]);
    if nodes[1..] != [] {
      RoomIsPositive(nodes[1..]);
    }
  }

  /** The limit for a run of nodes is the limit at each of them, the way the walk meets it. */
  lemma FitsCons(nodes: seq<Node>, before: nat)
    requires nodes != []
    ensures FitsLimit(nodes, before) <==>
      && before < MAX_CATALOG_ENTRIES
      && (nodes[0].Dir? ==> FitsLimit(nodes[0].children, before + 1))
      && FitsLimit(nodes[1..], before + |NodeListing(nodes[0], [])|)
  {
    hide Listing, NodeListing, EndsSilently;
    RoomCons(nodes);
    RoomOfNode(nodes[0]);
    NothingListed();
    if nodes[1..] != [] {
      RoomIsPositive(nodes[1..]);
    }
  }

  lemma NothingListed()
    ensures Listing([], []) == []
  {
  }

  lemma EmptyListable(depth: nat, before: nat)
    requires depth < MAX_CATALOG_DEPTH
    ensures Listable([], depth, before)
  {
  }

  lemma ShapeCons(nodes: seq<Node>, depth: nat)
    requires nodes != [] && depth < MAX_CATALOG_DEPTH
    ensures depth + Height(nodes) < MAX_CATALOG_DEPTH <==>
      && (nodes[0].Dir? ==> depth + 1 + Height(nodes[0].children) < MAX_CATALOG_DEPTH)
      && depth + Height(nodes[1..]) < MAX_CATALOG_DEPTH
    ensures NamesValidBelow(nodes) <==>
      && (nodes[0].Dir? ==> NamesValid(nodes[0].children) && NamesValidBelow(nodes[0].children))
      && NamesValidBelow(nodes[1..])
  {
    hide NamesValid;
    assert forall n :: n in nodes <==> n == nodes[0] || n in nodes[1..];
  }

  lemma {:induction false} WalkableIffListable(nodes: seq<Node>, depth: nat, before: nat)
    requires depth < MAX_CATALOG_DEPTH
    ensures Walkable(nodes, depth, before) <==> Listable(nodes, depth, before)
    decreases nodes
  {
    hide NamesValid, NamesValidBelow, FitsLimit, Height, NodeListing;
    if nodes == [] {
      EmptyListable(depth, before);
    } else {
      FitsCons(nodes, before);
      ShapeCons(nodes, depth);
      WalkableIffListable(nodes[1..], depth, before + |NodeListing(nodes[0], [])|);
      if nodes[0].Dir? && depth + 1 < MAX_CATALOG_DEPTH {
        WalkableIffListable(nodes[0].children, depth + 1, before + 1);
      }
    }
  }

  // ----- reading back one table

  function RawOf(a: Attribute): RawKind {
    match a
    case Directory(start) => RawDirectory(start)
    case Item(File(size, mtime)) => RawFile(size, mtime)
    case Item(Symlink) => RawSymlink
    case Item(Hardlink) => RawHardlink
    case Item(_) => RawOther
  }

  function RawEntries(entries: seq<CatalogEntry>): (r: seq<RawEntry>)
    ensures |r| == |entries|
  {
    if entries == [] then []
    else [RawEntry(entries[0].name, RawOf(entries[0].attribute))] + RawEntries(entries[1..])
  }

  predicate EntryNamesValid(entries: seq<CatalogEntry>) {
    forall e <- entries :: ValidName(e.name)
  }

  lemma ReadUnsignedAt(data: seq<byte>, pos: nat, v: u64)
    requires At(data, pos, Unsigned(v))
    ensures ReadUnsigned(data, pos, 0, 0) == Ok((v, pos + |Unsigned(v)|))
  {
    ReadUnsignedEncoded(data, pos, v, 0, 0, v);
  }

  lemma ReadSignedAt(data: seq<byte>, pos: nat, v: i64)
    requires At(data, pos, Signed(v))
    ensures ReadSigned(data, pos, 0, 0) == Ok((v, pos + |Signed(v)|))
  {
    var m := if v < 0 then -(v + 1) else v;
    ReadSignedEncoded(data, pos, m, v < 0, 0, 0, m);
  }

  lemma ReadKindEncoded(table: seq<byte>, pos: nat, a: Attribute, start: u64)
    requires a.Directory? ==> a.start < start
    requires pos <= |table| && At(table, pos, Payload(a, start))
    ensures ReadKind(table, pos, TypeByte(a), start) == Ok((RawOf(a), pos + |Payload(a, start)|))
  {
    hide ReadUnsigned, ReadSigned, Unsigned, Signed, At;
    match a {
      case Directory(child) => ReadUnsignedAt(table, pos, start - child);
      case Item(File(size, mtime)) =>
        AtSplit(table, pos, Unsigned(size), Signed(mtime));
        ReadUnsignedAt(table, pos, size);
        ReadSignedAt(table, pos + |Unsigned(size)|, mtime);
      case _ =>
    }
  }

  lemma AtTail(data: seq<byte>, pos: nat, a: seq<byte>, b: seq<byte>)
    requires At(data, pos, a + b)
    ensures At(data, pos, a) && At(data, pos + |a|, b) && pos + |a| + |b| <= |data|
  {
    AtSplit(data, pos, a, b);
  }

  lemma EntryLayout(table: seq<byte>, pos: nat, e: CatalogEntry, start: nat)
    requires e.attribute.Directory? ==> e.attribute.start < start
    requires At(table, pos, EntryBytes(e, start))
    ensures var nameAt := pos + 1 + |Unsigned(|e.name|)|;
      && pos < |table| && table[pos] == TypeByte(e.attribute)
      && At(table, pos + 1, Unsigned(|e.name|))
      && At(table, nameAt, e.name)
      && At(table, nameAt + |e.name|, Payload(e.attribute, start))
      && nameAt + |e.name| + |Payload(e.attribute, start)| == pos + |EntryBytes(e, start)| <= |table|
  {
    hide Unsigned, Payload, TypeByte;
    var tag := [TypeByte(e.attribute)];
    var len := Unsigned(|e.name|);
    var payload := Payload(e.attribute, start);
    AtTail(table, pos, tag, len + (e.name + payload));
    AtTail(table, pos + 1, len, e.name + payload);
    AtTail(table, pos + 1 + |len|, e.name, payload);
    FirstByte(table, pos, tag);
  }

  lemma ReadEntryEncoded(table: seq<byte>, pos: nat, e: CatalogEntry, start: u64)
    requires e.attribute.Directory? ==> e.attribute.start < start
    requires At(table, pos, EntryBytes(e, start)) && |table| < U64_LIMIT
    ensures ReadEntry(table, pos, start)
         == if ValidName(e.name)
            then Ok((RawEntry(e.name, RawOf(e.attribute)), pos + |EntryBytes(e, start)|))
            else Err(InvalidName)
  {
    hide ReadUnsigned, Unsigned, At, ReadKind, Payload, ValidName, TypeByte, EntryBytes, Take, RawOf;
    EntryLayout(table, pos, e, start);
    var nameAt := pos + 1 + |Unsigned(|e.name|)|;
    NameFits(table, nameAt, e.name);
    ReadUnsignedAt(table, pos + 1, |e.name|);
    ReadKindEncoded(table, nameAt + |e.name|, e.attribute, start);
  }

  lemma NameFits(table: seq<byte>, pos: nat, name: Name)
    requires At(table, pos, name) && |table| < U64_LIMIT
    ensures |name| < U64_LIMIT && Take(table, pos, |name|) == Ok(name)
  {
  }

  lemma {:induction false} ReadEntriesEncoded(table: seq<byte>, pos: nat, entries: seq<CatalogEntry>, start: u64)
    requires Backward(entries, start)
    requires At(table, pos, EntriesBytes(entries, start)) && |table| < U64_LIMIT
    ensures var r := ReadEntries(table, pos, |entries|, start);
      if EntryNamesValid(entries) then r == Ok(RawEntries(entries)) else r.Err?
    decreases |entries|
  {
    hide ReadEntry, EntryBytes, At, ValidName, PointsBack;
    if entries != [] {
      var first := EntryBytes(entries[0], start);
      AtTail(table, pos, first, EntriesBytes(entries[1..], start));
      ReadEntryEncoded(table, pos, entries[0], start);
      ReadEntriesEncoded(table, pos + |first|, entries[1..], start);
    }
  }

  lemma {:induction false} EntriesBytesLength(entries: seq<CatalogEntry>, start: nat)
    requires Backward(entries, start)
    ensures |EntriesBytes(entries, start)| >= |entries|
  {
    hide EntryBytes;
    if entries != [] {
      assert |EntryBytes(entries[0], start)| >= 1 by { EntryBytesLength(entries[0], start); }
      EntriesBytesLength(entries[1..], start);
    }
  }

  lemma EntryBytesLength(e: CatalogEntry, start: nat)
    requires e.attribute.Directory? ==> e.attribute.start < start
    ensures |EntryBytes(e, start)| >= 1
  {
  }

  /** A block is read back as its entries, or refused because of a name in it. */
  lemma {:induction false} ReadTableEncoded(data: seq<byte>, entries: seq<CatalogEntry>, start: nat)
    requires Backward(entries, start)
    requires At(data, start, BlockBytes(entries, start)) && |data| < U64_LIMIT
    ensures var r := ReadTable(data, start);
      if EntryNamesValid(entries) then r == Ok(RawEntries(entries)) else r.Err?
  {
    hide ReadUnsigned, Unsigned, EntriesBytes, TableBytes, BlockBytes, At, ReadEntries, EntryNamesValid, PointsBack, Take;
    BlockLayout(data, entries, start);
    var count := Unsigned(|entries|);
    var table := TableBytes(entries, start);
    ReadUnsignedAt(data, start, |table|);
    ReadUnsignedAt(table, 0, |entries|);
    ReadEntriesEncoded(table, |count|, entries, start);
  }

  lemma BlockLayout(data: seq<byte>, entries: seq<CatalogEntry>, start: nat)
    requires Backward(entries, start)
    requires At(data, start, BlockBytes(entries, start)) && |data| < U64_LIMIT
    ensures var table := TableBytes(entries, start);
      && |table| < U64_LIMIT && |entries| < U64_LIMIT
      && At(data, start, Unsigned(|table|))
      && Take(data, start + |Unsigned(|table|)|, |table|) == Ok(table)
      && At(table, 0, Unsigned(|entries|))
      && At(table, |Unsigned(|entries|)|, EntriesBytes(entries, start))
      && start + |Unsigned(|table|)| <= |data|
  {
    hide EntriesBytes, Unsigned;
    var table := TableBytes(entries, start);
    EntriesBytesLength(entries, start);
    AtTail(data, start, Unsigned(|table|), table);
    NameFits(data, start + |Unsigned(|table|)|, table);
    WholeAt(table);
    AtTail(table, 0, Unsigned(|entries|), EntriesBytes(entries, start));
  }

  lemma WholeAt(s: seq<byte>)
    ensures At(s, 0, s)
  {
  }

  // ----- walking what was emitted

  ghost predicate Unvisited(visited: set<nat>, lo: nat, hi: nat) {
    forall v <- visited :: v < lo || hi <= v
  }

  /** The walk from `s` to `t` opened nothing outside `lo..hi`. */
  ghost predicate VisitedWithin(s: set<nat>, t: set<nat>, lo: nat, hi: nat) {
    forall v <- t :: v in s || lo <= v < hi
  }

  lemma UnvisitedParts(visited: set<nat>, lo: nat, mid: nat, hi: nat)
    requires Unvisited(visited, lo, hi) && lo <= mid <= hi
    ensures Unvisited(visited, lo, mid) && Unvisited(visited, mid, hi)
  {
  }

  lemma VisitedParts(s: set<nat>, t: set<nat>, lo: nat, mid: nat, hi: nat)
    requires Unvisited(s, mid, hi) && VisitedWithin(s, t, lo, mid) && lo <= mid <= hi
    ensures Unvisited(t, mid, hi)
  {
  }

  lemma VisitedJoin(s: set<nat>, t: set<nat>, u: set<nat>, lo: nat, mid: nat, hi: nat)
    requires VisitedWithin(s, t, lo, mid) && VisitedWithin(t, u, mid, hi) && lo <= mid <= hi
    ensures VisitedWithin(s, u, lo, hi)
  {
  }

  lemma {:induction false} EmittedNames(nodes: seq<Node>, pos: nat)
    ensures EntryNamesValid(Emit(nodes, pos).entries) <==> NamesValid(nodes)
    decreases |nodes|
  {
    hide Emit, EmitNode, ValidName;
    if nodes == [] {
      EmitNone([], pos);
    } else {
      EmitCons(nodes, pos);
      EmittedName(nodes[0], pos);
      var first := EmitNode(nodes[0], pos);
      var rest := Emit(nodes[1..], pos + |first.bytes|);
      EmittedNames(nodes[1..], pos + |first.bytes|);
      assert Emit(nodes, pos).entries == [first.entries[0]] + rest.entries;
      assert nodes == [nodes[0]] + nodes[1..];
    }
  }

  lemma EmittedName(node: Node, pos: nat)
    ensures EmitNode(node, pos).entries[0].name == node.name
  {
    hide Emit, BlockBytes;
  }

  /** Walking `e`, which starts at `pos`, from `s` to `t` lists `listing`, and fails unless `possible`. */
  ghost predicate Faithful(e: Emitted, pos: nat, s: WalkState, t: WalkState, possible: bool, listing: seq<ArchiveEntry>) {
    && (t.error.None? <==> possible)
    && (t.error.None? ==> t.out == s.out + listing && VisitedWithin(s.visited, t.visited, pos, pos + |e.bytes|))
  }

  lemma {:induction false} WalkEmitted(data: seq<byte>, nodes: seq<Node>, pos: nat, blockPos: nat, base: Path, depth: nat, s: WalkState)
    requires |data| < U64_LIMIT && depth < MAX_CATALOG_DEPTH && s.error.None?
    requires At(data, pos, Emit(nodes, pos).bytes)
    requires Unvisited(s.visited, pos, pos + |Emit(nodes, pos).bytes|)
    ensures var e := Emit(nodes, pos);
      var t := WalkEntries(data, RawEntries(e.entries), blockPos, base, depth, s);
      Faithful(e, pos, s, t, Walkable(nodes, depth, |s.out|), Listing(nodes, base))
    decreases nodes, 2
  {
    if nodes != [] {
      hide *;
      WalkEmittedCons(data, nodes, pos, blockPos, base, depth, s);
    }
  }

  lemma {:induction false} WalkEmittedCons(data: seq<byte>, nodes: seq<Node>, pos: nat, blockPos: nat, base: Path, depth: nat, s: WalkState)
    requires nodes != []
    requires |data| < U64_LIMIT && depth < MAX_CATALOG_DEPTH && s.error.None?
    requires At(data, pos, Emit(nodes, pos).bytes)
    requires Unvisited(s.visited, pos, pos + |Emit(nodes, pos).bytes|)
    ensures var e := Emit(nodes, pos);
      var t := WalkEntries(data, RawEntries(e.entries), blockPos, base, depth, s);
      Faithful(e, pos, s, t, Walkable(nodes, depth, |s.out|), Listing(nodes, base))
    decreases nodes, 1
  {
    hide *;
    SplitEmitted(data, nodes, pos);
    var first := EmitNode(nodes[0], pos);
    var mid := pos + |first.bytes|;
    var rest := Emit(nodes[1..], mid);
    var hi := mid + |rest.bytes|;
    var raw := RawEntries(Emit(nodes, pos).entries);
    UnfoldEntries(data, raw, blockPos, base, depth, s);
    UnfoldNodes(nodes, base, depth, |s.out|);
    if |s.out| < MAX_CATALOG_ENTRIES {
      UnvisitedParts(s.visited, pos, mid, hi);
      WalkEmittedNode(data, nodes[0], pos, blockPos, base, depth, s);
      var next := WalkEntry(data, raw[0], blockPos, base, depth, s);
      if next.error.None? {
        Faithfully(first, pos, s, next, NodeWalkable(nodes[0], depth, |s.out|), NodeListing(nodes[0], base));
        VisitedParts(s.visited, next.visited, pos, mid, hi);
        WalkEmitted(data, nodes[1..], mid, blockPos, base, depth, next);
        NodeListingLength(nodes[0], base);
      }
      var t := WalkEntries(data, raw, blockPos, base, depth, s);
      FaithfulJoin(first, rest, Emit(nodes, pos), pos, s, next, t, NodeWalkable(nodes[0], depth, |s.out|),
                   Walkable(nodes[1..], depth, |next.out|), NodeListing(nodes[0], base), Listing(nodes[1..], base));
    } else {
      var t := WalkEntries(data, raw, blockPos, base, depth, s);
      FaithfulFailure(Emit(nodes, pos), pos, s, t, Listing(nodes, base));
    }
  }

  lemma Faithfully(e: Emitted, pos: nat, s: WalkState, t: WalkState, possible: bool, listing: seq<ArchiveEntry>)
    requires Faithful(e, pos, s, t, possible, listing) && t.error.None?
    ensures possible && t.out == s.out + listing && VisitedWithin(s.visited, t.visited, pos, pos + |e.bytes|)
  {
  }

  lemma FaithfulFailure(e: Emitted, pos: nat, s: WalkState, t: WalkState, listing: seq<ArchiveEntry>)
    requires t.error.Some?
    ensures Faithful(e, pos, s, t, false, listing)
  {
  }

  lemma FaithfulJoin(first: Emitted, rest: Emitted, e: Emitted, pos: nat, s: WalkState, next: WalkState, t: WalkState,
                     headPossible: bool, tailPossible: bool, head: seq<ArchiveEntry>, tail: seq<ArchiveEntry>)
    requires |e.bytes| == |first.bytes| + |rest.bytes|
    requires Faithful(first, pos, s, next, headPossible, head)
    requires if next.error.Some? then t == next else Faithful(rest, pos + |first.bytes|, next, t, tailPossible, tail)
    ensures Faithful(e, pos, s, t, headPossible && (next.error.None? ==> tailPossible), head + tail)
  {
    var mid := pos + |first.bytes|;
    if next.error.None? && t.error.None? {
      VisitedJoin(s.visited, next.visited, t.visited, pos, mid, mid + |rest.bytes|);
      assert s.out + head + tail == s.out + (head + tail);
    }
  }

  predicate NodeWalkable(node: Node, depth: nat, before: nat) {
    node.Dir? ==>
      depth + 1 < MAX_CATALOG_DEPTH && NamesValid(node.children) && Walkable(node.children, depth + 1, before + 1)
  }

  lemma UnfoldEntries(data: seq<byte>, entries: seq<RawEntry>, blockPos: nat, base: Path, depth: nat, s: WalkState)
    requires entries != [] && depth < MAX_CATALOG_DEPTH
    ensures WalkEntries(data, entries, blockPos, base, depth, s)
         == if |s.out| >= MAX_CATALOG_ENTRIES then s.(error := Some(TooManyEntries))
            else
              var next := WalkEntry(data, entries[0], blockPos, base, depth, s);
              if next.error.Some? then next
              else WalkEntries(data, entries[1..], blockPos, base, depth, next)
  {
  }

  lemma UnfoldNodes(nodes: seq<Node>, base: Path, depth: nat, before: nat)
    requires nodes != []
    ensures Listing(nodes, base) == NodeListing(nodes[0], base) + Listing(nodes[1..], base)
    ensures Walkable(nodes, depth, before) <==>
      && before < MAX_CATALOG_ENTRIES
      && NodeWalkable(nodes[0], depth, before)
      && Walkable(nodes[1..], depth, before + |NodeListing(nodes[0], [])|)
  {
  }

  lemma NodeListingLength(node: Node, base: Path)
    ensures |NodeListing(node, base)| == |NodeListing(node, [])|
  {
    if node.Dir? {
      ListingLength(node.children, base + [node.name], [] + [node.name]);
    }
  }

  lemma SplitEmitted(data: seq<byte>, nodes: seq<Node>, pos: nat)
    requires nodes != [] && At(data, pos, Emit(nodes, pos).bytes)
    ensures var first := EmitNode(nodes[0], pos);
      var mid := pos + |first.bytes|;
      var rest := Emit(nodes[1..], mid);
      && At(data, pos, first.bytes) && At(data, mid, rest.bytes)
      && |Emit(nodes, pos).bytes| == |first.bytes| + |rest.bytes|
      && RawEntries(Emit(nodes, pos).entries)[0] == RawEntries(first.entries)[0]
      && RawEntries(Emit(nodes, pos).entries)[1..] == RawEntries(rest.entries)
  {
    hide At, EmitNode;
    var first := EmitNode(nodes[0], pos);
    var rest := Emit(nodes[1..], pos + |first.bytes|);
    AtSplit(data, pos, first.bytes, rest.bytes);
    assert (first.entries + rest.entries)[1..] == rest.entries;
  }

  lemma {:induction false} WalkEmittedNode(data: seq<byte>, node: Node, pos: nat, blockPos: nat, base: Path, depth: nat, s: WalkState)
    requires |data| < U64_LIMIT && depth < MAX_CATALOG_DEPTH && s.error.None?
    requires At(data, pos, EmitNode(node, pos).bytes)
    requires Unvisited(s.visited, pos, pos + |EmitNode(node, pos).bytes|)
    ensures var e := EmitNode(node, pos);
      var raw := RawEntries(e.entries)[0];
      var t := WalkEntry(data, raw, blockPos, base, depth, s);
      && raw.name == node.name
      && Faithful(e, pos, s, t, NodeWalkable(node, depth, |s.out|), NodeListing(node, base))
    decreases node, 1
  {
    hide At, BlockBytes, NamesValid, Walkable, Walk, Listing;
    if node.Dir? {
      var path := base + [node.name];
      var listed := s.(out := s.out + [ArchiveEntry(path, DirectoryKind, 0, MODE_DIRECTORY, 0)]);
      WalkEmittedDir(data, node, pos, blockPos, path, depth + 1, listed);
    }
  }

  /** Where a directory's own block starts when it is written from `pos` on. */
  function BlockStart(dir: Node, pos: nat): nat
    requires dir.Dir?
  {
    pos + |Emit(dir.children, pos).bytes|
  }

  lemma {:induction false} WalkEmittedDir(data: seq<byte>, dir: Node, pos: nat, parent: nat, path: Path, depth: nat, s: WalkState)
    requires dir.Dir? && |data| < U64_LIMIT && s.error.None?
    requires At(data, pos, EmitNode(dir, pos).bytes)
    requires Unvisited(s.visited, pos, pos + |EmitNode(dir, pos).bytes|)
    ensures Faithful(EmitNode(dir, pos), pos, s, Walk(data, BlockStart(dir, pos), parent, path, depth, s),
      depth < MAX_CATALOG_DEPTH && NamesValid(dir.children) && Walkable(dir.children, depth, |s.out|),
      Listing(dir.children, path))
    decreases dir, 0
  {
    hide At, BlockBytes, NamesValid, Walkable, WalkEntries, Listing, ReadTable, Emit, RawEntries, EntryNamesValid;
    var inner := Emit(dir.children, pos);
    var start := pos + |inner.bytes|;
    AtSplit(data, pos, inner.bytes, BlockBytes(inner.entries, start));
    ReadTableEncoded(data, inner.entries, start);
    EmittedNames(dir.children, pos);
    if depth < MAX_CATALOG_DEPTH && NamesValid(dir.children) {
      var entered := s.(visited := s.visited + {start}, expanded := s.expanded + [Expansion(start, parent, depth)]);
      WalkEmitted(data, dir.children, pos, start, path, depth, entered);
    }
  }

  lemma {:induction false} WalkRootEmitted(data: seq<byte>, nodes: seq<Node>, pos: nat, root: nat, s: WalkState)
    requires |data| < U64_LIMIT && s.error.None?
    requires At(data, pos, Emit(nodes, pos).bytes)
    requires Unvisited(s.visited, pos, pos + |Emit(nodes, pos).bytes|)
    ensures var e := Emit(nodes, pos);
      var t := WalkRoot(data, RawEntries(e.entries), root, s);
      Faithful(e, pos, s, t, RootListable(nodes, |s.out|), RootListing(nodes))
    decreases |nodes|
  {
    hide At, Walk, Emit, EmitNode, RawEntries, Listing, Unvisited, VisitedWithin, Faithful, Listable, NamesValid;
    if nodes == [] {
      EmptyRoot(data, pos, root, s);
    } else {
      SplitEmitted(data, nodes, pos);
      var first := EmitNode(nodes[0], pos);
      var mid := pos + |first.bytes|;
      var rest := Emit(nodes[1..], mid);
      var hi := mid + |rest.bytes|;
      var raw := RawEntries(Emit(nodes, pos).entries);
      UnvisitedParts(s.visited, pos, mid, hi);
      WalkRootNode(data, nodes[0], pos, root, s);
      var next := WalkRootEntry(data, raw[0], root, s);
      if next.error.None? {
        Faithfully(first, pos, s, next, RootNodeListable(nodes[0], |s.out|), RootNodeListing(nodes[0]));
        VisitedParts(s.visited, next.visited, pos, mid, hi);
        WalkRootEmitted(data, nodes[1..], mid, root, next);
      }
      var t := WalkRoot(data, raw, root, s);
      FaithfulJoin(first, rest, Emit(nodes, pos), pos, s, next, t, RootNodeListable(nodes[0], |s.out|),
                   RootListable(nodes[1..], |next.out|), RootNodeListing(nodes[0]), RootListing(nodes[1..]));
    }
  }

  lemma EmptyRoot(data: seq<byte>, pos: nat, root: nat, s: WalkState)
    requires s.error.None?
    ensures var e := Emit([], pos);
      Faithful(e, pos, s, WalkRoot(data, RawEntries(e.entries), root, s), true, [])
  {
  }

  lemma WalkRootNode(data: seq<byte>, node: Node, pos: nat, root: nat, s: WalkState)
    requires |data| < U64_LIMIT && s.error.None?
    requires At(data, pos, EmitNode(node, pos).bytes)
    requires Unvisited(s.visited, pos, pos + |EmitNode(node, pos).bytes|)
    ensures var e := EmitNode(node, pos);
      Faithful(e, pos, s, WalkRootEntry(data, RawEntries(e.entries)[0], root, s),
               RootNodeListable(node, |s.out|), RootNodeListing(node))
  {
    hide At, BlockBytes, NamesValid, Walkable, Walk, Listing, Listable;
    if node.Dir? {
      WalkEmittedDir(data, node, pos, root, [], 0, s);
      WalkableIffListable(node.children, 0, |s.out|);
    }
  }

  /**
   The round trip. Whatever tree the writer was driven to build, parsing the
   finished file succeeds exactly when the tree's names, depth and entry count
   are acceptable, and then returns exactly the tree's listing.
   */
  lemma {:induction false} CatalogRoundTrip(base: seq<byte>, nodes: seq<Node>)
    requires CATALOG_MAGIC <= base
    requires |CatalogBytes(base, nodes)| < U64_LIMIT
    ensures var s := Parse(CatalogBytes(base, nodes));
      && (s.error.None? <==> NamesValid(nodes) && RootListable(nodes, 0))
      && (s.error.None? ==> s.out == RootListing(nodes))
  {
    hide *;
    FileLayout(base, nodes);
    var data := CatalogBytes(base, nodes);
    var e := Emit(nodes, |base|);
    var start := |base| + |e.bytes|;
    ReadTableEncoded(data, e.entries, start);
    EmittedNames(nodes, |base|);
    if NamesValid(nodes) {
      var entered := WalkState([], {start}, [], None);
      OnlyRootVisited(|base|, start);
      WalkRootEmitted(data, nodes, |base|, start, entered);
      ParsedFrom(data, RawEntries(e.entries));
      var t := WalkRoot(data, RawEntries(e.entries), start, entered);
      if t.error.None? {
        Faithfully(e, |base|, entered, t, RootListable(nodes, 0), RootListing(nodes));
        assert [] + RootListing(nodes) == RootListing(nodes);
      } else {
        Unfaithfully(e, |base|, entered, t, RootListable(nodes, 0), RootListing(nodes));
      }
    } else {
      ParseFails(data);
    }
  }

  lemma OnlyRootVisited(lo: nat, start: nat)
    ensures Unvisited({start}, lo, start)
  {
  }

  lemma Unfaithfully(e: Emitted, pos: nat, s: WalkState, t: WalkState, possible: bool, listing: seq<ArchiveEntry>)
    requires Faithful(e, pos, s, t, possible, listing) && t.error.Some?
    ensures !possible
  {
  }

  lemma ParsedFrom(data: seq<byte>, entries: seq<RawEntry>)
    requires CATALOG_MAGIC <= data && |data| >= 8 && ReadTable(data, RootOffset(data)) == Ok(entries)
    ensures Parse(data) == WalkRoot(data, entries, RootOffset(data), WalkState([], {RootOffset(data)}, [], None))
  {
  }

  lemma ParseFails(data: seq<byte>)
    requires CATALOG_MAGIC <= data && |data| >= 8 && ReadTable(data, RootOffset(data)).Err?
    ensures Parse(data).error.Some?
  {
  }

  lemma FileLayout(base: seq<byte>, nodes: seq<Node>)
    requires CATALOG_MAGIC <= base
    requires |CatalogBytes(base, nodes)| < U64_LIMIT
    ensures var data := CatalogBytes(base, nodes);
      var e := Emit(nodes, |base|);
      var start := |base| + |e.bytes|;
      && CATALOG_MAGIC <= data && |data| >= 8 && RootOffset(data) == start
      && Backward(e.entries, start)
      && At(data, |base|, e.bytes) && At(data, start, BlockBytes(e.entries, start))
  {
    hide Emit, BlockBytes, LittleEndian, FromLittleEndian;
    var data := CatalogBytes(base, nodes);
    var e := Emit(nodes, |base|);
    var start := |base| + |e.bytes|;
    var block := BlockBytes(e.entries, start);
    U64FitsEightBytes(start);
    assert data[|data| - 8..] == LittleEndian(start, 8);
    assert data[|base|..start] == e.bytes;
    assert data[start..start + |block|] == block;
  }
}
