/**
 The catalog file format: directory tables written bottom-up after a magic
 number, each table pointing back at its children, and a trailer locating the root.
 */
module Catalog {
  import opened Bytes
  import opened Varint

  type Name = seq<byte>

  const CATALOG_MAGIC: seq<byte> := [145, 253, 96, 249, 196, 103, 88, 213]

  const ENTRY_DIRECTORY: byte := 'd' as int
  const ENTRY_FILE: byte := 'f' as int
  const ENTRY_SYMLINK: byte := 'l' as int
  const ENTRY_HARDLINK: byte := 'h' as int
  const ENTRY_BLOCKDEV: byte := 'b' as int
  const ENTRY_CHARDEV: byte := 'c' as int
  const ENTRY_FIFO: byte := 'p' as int
  const ENTRY_SOCKET: byte := 's' as int

  /** Everything an entry can be apart from a directory. */
  datatype ItemKind =
    | File(size: u64, mtime: i64)
    | Symlink
    | Hardlink
    | BlockDevice
    | CharDevice
    | Fifo
    | Socket

  datatype Attribute = Directory(start: nat) | Item(kind: ItemKind)

  datatype CatalogEntry = CatalogEntry(name: Name, attribute: Attribute)

  datatype DirectoryInfo = DirectoryInfo(name: Name, entries: seq<CatalogEntry>)

  /** What a catalog describes: a file tree, with the position of tables abstracted away. */
  datatype Node =
    | Dir(name: Name, children: seq<Node>)
    | Leaf(name: Name, kind: ItemKind)

  // ----- tables

  function TypeByte(a: Attribute): byte {
    match a
    case Directory(_) => ENTRY_DIRECTORY
    case Item(File(_, _)) => ENTRY_FILE
    case Item(Symlink) => ENTRY_SYMLINK
    case Item(Hardlink) => ENTRY_HARDLINK
    case Item(BlockDevice) => ENTRY_BLOCKDEV
    case Item(CharDevice) => ENTRY_CHARDEV
    case Item(Fifo) => ENTRY_FIFO
    case Item(Socket) => ENTRY_SOCKET
  }

  /** Child tables lie strictly before the table that names them. */
  predicate Backward(entries: seq<CatalogEntry>, start: nat) {
    forall e <- entries :: e.attribute.Directory? ==> e.attribute.start < start
  }

  function Payload(a: Attribute, start: nat): seq<byte>
    requires a.Directory? ==> a.start < start
  {
    match a
    case Directory(child) => Unsigned(start - child)
    case Item(File(size, mtime)) => Unsigned(size) + Signed(mtime)
    case _ => []
  }

  function EntryBytes(e: CatalogEntry, start: nat): seq<byte>
    requires e.attribute.Directory? ==> e.attribute.start < start
  {
    [TypeByte(e.attribute)] + (Unsigned(|e.name|) + (e.name + Payload(e.attribute, start)))
  }

  function EntriesBytes(entries: seq<CatalogEntry>, start: nat): seq<byte>
    requires Backward(entries, start)
  {
    if entries == [] then [] else EntryBytes(entries[0], start) + EntriesBytes(entries[1..], start)
  }

  function TableBytes(entries: seq<CatalogEntry>, start: nat): seq<byte>
    requires Backward(entries, start)
  {
    Unsigned(|entries|) + EntriesBytes(entries, start)
  }

  /** A table preceded by its length, as it stands in the file at `start`. */
  function BlockBytes(entries: seq<CatalogEntry>, start: nat): (s: seq<byte>)
    requires Backward(entries, start)
    ensures 1 <= |s|
  {
    var table := TableBytes(entries, start);
    Unsigned(|table|) + table
  }

  // ----- the file a tree stands for

  datatype Emitted = Emitted(bytes: seq<byte>, entries: seq<CatalogEntry>)

  /** Entries whose child tables were all written inside `lo..hi`. */
  predicate Within(entries: seq<CatalogEntry>, lo: nat, hi: nat) {
    forall e <- entries :: e.attribute.Directory? ==> lo <= e.attribute.start < hi
  }

  /**
   What writing `nodes` at file position `pos` leaves behind: the blocks of all
   directories below, children first, and one table entry a node.
   */
  function Emit(nodes: seq<Node>, pos: nat): (r: Emitted)
    ensures |r.entries| == |nodes|
    ensures Within(r.entries, pos, pos + |r.bytes|)
    decreases nodes, 0
  {
    if nodes == [] then Emitted([], [])
    else
      var first := EmitNode(nodes[0], pos);
      var rest := Emit(nodes[1..], pos + |first.bytes|);
      Emitted(first.bytes + rest.bytes, first.entries + rest.entries)
  }

  function EmitNode(node: Node, pos: nat): (r: Emitted)
    ensures |r.entries| == 1
    ensures Within(r.entries, pos, pos + |r.bytes|)
    decreases node, 1
  {
    match node
    case Leaf(name, kind) => Emitted([], [CatalogEntry(name, Item(kind))])
    case Dir(name, children) =>
      var inner := Emit(children, pos);
      var start := pos + |inner.bytes|;
      Emitted(inner.bytes + BlockBytes(inner.entries, start), [CatalogEntry(name, Directory(start))])
  }

  /** The file that ends with a root directory holding `nodes`, written after `base`. */
  function CatalogBytes(base: seq<byte>, nodes: seq<Node>): seq<byte> {
    var root := Emit(nodes, |base|);
    var start := |base| + |root.bytes|;
    base + (root.bytes + (BlockBytes(root.entries, start) + LittleEndian(start, 8)))
  }

  lemma {:induction false} EmitCons(nodes: seq<Node>, pos: nat)
    requires nodes != []
    ensures var first := EmitNode(nodes[0], pos);
      var rest := Emit(nodes[1..], pos + |first.bytes|);
      Emit(nodes, pos) == Emitted(first.bytes + rest.bytes, first.entries + rest.entries)
  {
    hide EmitNode, Within;
  }

  lemma EmitNone(b: seq<Node>, pos: nat)
    ensures Emit([], pos) == Emitted([], [])
    ensures var back := Emit(b, pos); [] + b == b && [] + back.bytes == back.bytes && [] + back.entries == back.entries
  {
    hide EmitNode, Within;
  }

  lemma {:induction false} EmitAppend(a: seq<Node>, b: seq<Node>, pos: nat)
    ensures var front := Emit(a, pos);
      var back := Emit(b, pos + |front.bytes|);
      Emit(a + b, pos) == Emitted(front.bytes + back.bytes, front.entries + back.entries)
  {
    hide *;
    if a == [] {
      EmitNone(b, pos);
    } else {
      EmitCons(a, pos);
      EmitCons(a + b, pos);
      var first := EmitNode(a[0], pos);
      assert (a + b)[1..] == a[1..] + b;
      EmitAppend(a[1..], b, pos + |first.bytes|);
      var mid := Emit(a[1..], pos + |first.bytes|);
      var back := Emit(b, pos + |first.bytes| + |mid.bytes|);
      Associative(first.bytes, mid.bytes, back.bytes);
      Associative(first.entries, mid.entries, back.entries);
    }
  }

  lemma EmitOne(node: Node, pos: nat)
    ensures Emit([node], pos) == EmitNode(node, pos)
  {
    hide EmitNode, Within;
    var r := EmitNode(node, pos);
    assert [node][1..] == [];
    assert r.bytes + [] == r.bytes && r.entries + [] == r.entries;
  }

  lemma {:induction false} EmitSnoc(nodes: seq<Node>, node: Node, pos: nat)
    ensures var front := Emit(nodes, pos);
      var last := EmitNode(node, pos + |front.bytes|);
      Emit(nodes + [node], pos) == Emitted(front.bytes + last.bytes, front.entries + last.entries)
  {
    hide *;
    EmitAppend(nodes, [node], pos);
    EmitOne(node, pos + |Emit(nodes, pos).bytes|);
  }
}
