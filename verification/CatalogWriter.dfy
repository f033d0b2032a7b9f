/** The stack machine that writes a catalog, one call a directory boundary or entry. */
module CatalogWriting {
  import opened Bytes
  import opened Varint
  import opened Catalog

  datatype WriteError = StackUnderflow | CannotEndRoot | Unbalanced

  /** A directory that has been started but not ended, with the nodes added to it so far. */
  datatype Frame = Frame(name: Name, nodes: seq<Node>)

  datatype Pending = Pending(bytes: seq<byte>, stack: seq<DirectoryInfo>)

  /** What the open directories have written by position `pos` onwards, and the stack they leave. */
  ghost function EmitFrames(frames: seq<Frame>, pos: nat): (r: Pending)
    ensures |r.stack| == |frames|
    ensures frames == [] ==> r.bytes == []
  {
    if frames == [] then Pending([], [])
    else
      var first := Emit(frames[0].nodes, pos);
      var rest := EmitFrames(frames[1..], pos + |first.bytes|);
      Pending(first.bytes + rest.bytes, [DirectoryInfo(frames[0].name, first.entries)] + rest.stack)
  }

  lemma {:induction false} EmitFramesSnoc(frames: seq<Frame>, f: Frame, pos: nat)
    ensures var front := EmitFrames(frames, pos);
      var last := Emit(f.nodes, pos + |front.bytes|);
      EmitFrames(frames + [f], pos)
        == Pending(front.bytes + last.bytes, front.stack + [DirectoryInfo(f.name, last.entries)])
  {
    hide Emit, EmitFrames;
    if frames == [] {
      assert frames + [f] == [f];
      RootEmitted([f], pos);
      assert EmitFrames([], pos).stack == [];
    } else {
      var first := Emit(frames[0].nodes, pos);
      assert (frames + [f])[1..] == frames[1..] + [f];
      EmitFramesCons(frames, pos);
      EmitFramesCons(frames + [f], pos);
      EmitFramesSnoc(frames[1..], f, pos + |first.bytes|);
      var mid := EmitFrames(frames[1..], pos + |first.bytes|);
      var last := Emit(f.nodes, pos + |first.bytes| + |mid.bytes|);
      Associative(first.bytes, mid.bytes, last.bytes);
      Associative([DirectoryInfo(frames[0].name, first.entries)], mid.stack, [DirectoryInfo(f.name, last.entries)]);
    }
  }

  lemma EmitFramesCons(frames: seq<Frame>, pos: nat)
    requires frames != []
    ensures var first := Emit(frames[0].nodes, pos);
      var rest := EmitFrames(frames[1..], pos + |first.bytes|);
      EmitFrames(frames, pos)
        == Pending(first.bytes + rest.bytes, [DirectoryInfo(frames[0].name, first.entries)] + rest.stack)
  {
    hide Emit;
  }

  /** The open directories after `node` was added to the innermost one. */
  ghost function WithNode(frames: seq<Frame>, node: Node): seq<Frame>
    requires frames != []
  {
    var n := |frames| - 1;
    frames[..n] + [Frame(frames[n].name, frames[n].nodes + [node])]
  }

  lemma EmitWithNode(frames: seq<Frame>, node: Node, pos: nat)
    requires frames != []
    ensures var before := EmitFrames(frames, pos);
      var after := EmitFrames(WithNode(frames, node), pos);
      var added := EmitNode(node, pos + |before.bytes|);
      var n := |frames| - 1;
      after.bytes == before.bytes + added.bytes
      && after.stack == before.stack[..n] + [DirectoryInfo(frames[n].name, before.stack[n].entries + added.entries)]
  {
    hide Emit, EmitNode, EmitFrames;
    var n := |frames| - 1;
    var front := EmitFrames(frames[..n], pos);
    var q := pos + |front.bytes|;
    assert frames == frames[..n] + [frames[n]];
    EmitFramesSnoc(frames[..n], frames[n], pos);
    EmitFramesSnoc(frames[..n], Frame(frames[n].name, frames[n].nodes + [node]), pos);
    EmitSnoc(frames[n].nodes, node, q);
    var before := EmitFrames(frames, pos);
    var inner := Emit(frames[n].nodes, q);
    assert before.bytes == front.bytes + inner.bytes;
    assert q + |inner.bytes| == pos + |before.bytes|;
    var added := EmitNode(node, pos + |before.bytes|);
    assert front.bytes + (inner.bytes + added.bytes) == before.bytes + added.bytes;
    assert before.stack[..n] == front.stack;
  }

  /** Adding a leaf writes nothing and gives the innermost directory one more entry. */
  lemma LeafAdded(frames: seq<Frame>, name: Name, kind: ItemKind, pos: nat)
    requires frames != []
    ensures var before := EmitFrames(frames, pos);
      var after := EmitFrames(WithNode(frames, Leaf(name, kind)), pos);
      var n := |frames| - 1;
      after.bytes == before.bytes
      && after.stack == before.stack[..n]
           + [DirectoryInfo(before.stack[n].name, before.stack[n].entries + [CatalogEntry(name, Item(kind))])]
  {
    hide Emit, EmitFrames;
    var n := |frames| - 1;
    EmitWithNode(frames, Leaf(name, kind), pos);
    assert frames == frames[..n] + [frames[n]];
    EmitFramesSnoc(frames[..n], frames[n], pos);
    assert EmitFrames(frames, pos).bytes + [] == EmitFrames(frames, pos).bytes;
  }

  /** Closing the innermost directory appends exactly its own block. */
  lemma EmitClosed(frames: seq<Frame>, pos: nat)
    requires |frames| >= 2
    ensures var n := |frames| - 1;
      var before := EmitFrames(frames, pos);
      var start := pos + |before.bytes|;
      var after := EmitFrames(WithNode(frames[..n], Dir(frames[n].name, frames[n].nodes)), pos);
      Backward(before.stack[n].entries, start)
      && after.bytes == before.bytes + BlockBytes(before.stack[n].entries, start)
      && after.stack == before.stack[..n - 1]
           + [DirectoryInfo(before.stack[n - 1].name, before.stack[n - 1].entries
                + [CatalogEntry(before.stack[n].name, Directory(start))])]
  {
    hide Emit, EmitFrames, BlockBytes;
    var n := |frames| - 1;
    var dir := Dir(frames[n].name, frames[n].nodes);
    assert frames == frames[..n] + [frames[n]];
    EmitFramesSnoc(frames[..n], frames[n], pos);
    EmitWithNode(frames[..n], dir, pos);
    EmitFramesSnoc(frames[..n - 1], frames[n - 1], pos);
    assert frames[..n][..n - 1] == frames[..n - 1];
    assert frames[..n] == frames[..n - 1] + [frames[n - 1]];
    var outer := EmitFrames(frames[..n], pos);
    var before := EmitFrames(frames, pos);
    var inner := Emit(frames[n].nodes, pos + |outer.bytes|);
    var start := pos + |before.bytes|;
    assert outer.bytes + (inner.bytes + BlockBytes(inner.entries, start))
        == before.bytes + BlockBytes(inner.entries, start);
  }

  /** With only the root open, what is pending is what its nodes emit. */
  lemma RootEmitted(frames: seq<Frame>, pos: nat)
    requires |frames| == 1
    ensures var e := Emit(frames[0].nodes, pos);
      && EmitFrames(frames, pos) == Pending(e.bytes, [DirectoryInfo(frames[0].name, e.entries)])
      && Backward(e.entries, pos + |e.bytes|)
  {
    hide Emit;
    var e := Emit(frames[0].nodes, pos);
    assert frames[1..] == [];
    assert e.bytes + [] == e.bytes;
  }

  lemma RootFinished(base: seq<byte>, nodes: seq<Node>, data: seq<byte>)
    requires var e := Emit(nodes, |base|);
      var start := |base| + |e.bytes|;
      Backward(e.entries, start) && data == BlockBytes(e.entries, start)
    ensures var e := Emit(nodes, |base|);
      base + e.bytes + data + LittleEndian(|base| + |e.bytes|, 8) == CatalogBytes(base, nodes)
  {
    hide Emit, BlockBytes, Backward, LittleEndian;
    var e := Emit(nodes, |base|);
    var tail := LittleEndian(|base| + |e.bytes|, 8);
    Associative(base + e.bytes, data, tail);
    Associative(base, e.bytes, data + tail);
  }

  method EncodeEntry(out: seq<byte>, entry: CatalogEntry, start: nat) returns (table: seq<byte>)
    requires entry.attribute.Directory? ==> entry.attribute.start < start
    ensures table == out + EntryBytes(entry, start)
  {
    hide Unsigned, Signed, TypeByte;
    table := out + [TypeByte(entry.attribute)];
    table := EncodeU64(table, |entry.name|);
    table := table + entry.name;
    match entry.attribute {
      case Directory(child) =>
        table := EncodeU64(table, start - child);
      case Item(File(size, mtime)) =>
        table := EncodeU64(table, size);
        table := EncodeI64(table, mtime);
      case _ =>
    }
  }

  method EncodeDirectory(dir: DirectoryInfo, start: nat) returns (data: seq<byte>)
    requires Backward(dir.entries, start)
    ensures data == BlockBytes(dir.entries, start)
  {
    hide EntryBytes, Unsigned;
    var table := EncodeU64([], |dir.entries|);
    for i := 0 to |dir.entries|
      invariant table + EntriesBytes(dir.entries[i..], start) == TableBytes(dir.entries, start)
    {
      assert dir.entries[i..][1..] == dir.entries[i + 1..];
      var rest := EntriesBytes(dir.entries[i + 1..], start);
      assert table + (EntryBytes(dir.entries[i], start) + rest) == table + EntryBytes(dir.entries[i], start) + rest;
      table := EncodeEntry(table, dir.entries[i], start);
    }
    assert table + [] == table;
    data := EncodeU64([], |table|);
    data := data + table;
  }

  /** The writer over an in-memory sink. */
  class CatalogWriter {
    var written: seq<byte>
    var stack: seq<DirectoryInfo>
    var pos: nat
    /** The directories opened and not ended; empty once the root was wrongly ended. */
    ghost var frames: seq<Frame>
    /** What was in the file when the outermost of `frames` was opened: the magic, unless the root was wrongly ended. */
    ghost var base: seq<byte>

    ghost predicate Valid()
      reads this
    {
      var pending := EmitFrames(frames, |base|);
      && pos == |written|
      && written == base + pending.bytes
      && stack == pending.stack
      && CATALOG_MAGIC <= base
    }

    constructor ()
      ensures Valid()
      ensures frames == [Frame([], [])] && base == CATALOG_MAGIC
    {
      written := CATALOG_MAGIC;
      stack := [DirectoryInfo([], [])];
      pos := |CATALOG_MAGIC|;
      frames := [Frame([], [])];
      base := CATALOG_MAGIC;
      new;
      assert frames[1..] == [];
    }

    method StartDirectory(name: Name)
      requires Valid()
      modifies this
      ensures Valid()
      ensures frames == old(frames) + [Frame(name, [])] && base == old(base) && written == old(written)
    {
      hide EmitFrames, Emit;
      EmitFramesSnoc(frames, Frame(name, []), |base|);
      EmitNone([], |base| + |EmitFrames(frames, |base|).bytes|);
      var pending := EmitFrames(frames, |base|);
      assert pending.bytes + [] == pending.bytes;
      stack := stack + [DirectoryInfo(name, [])];
      frames := frames + [Frame(name, [])];
    }

    method EndDirectory() returns (r: Result<(), WriteError>)
      requires Valid()
      modifies this
      ensures Valid()
      ensures |old(frames)| >= 2 ==>
        var n := |old(frames)| - 1;
        r == Ok(()) && base == old(base) && frames == WithNode(old(frames)[..n], Dir(old(frames)[n].name, old(frames)[n].nodes))
      ensures |old(frames)| < 2 ==> frames == [] && base == written == old(written)
      ensures |old(frames)| == 1 ==> r == Err(CannotEndRoot)
      ensures |old(frames)| == 0 ==> r == Err(StackUnderflow)
    {
      hide EmitFrames, BlockBytes;
      if |stack| == 0 {
        return Err(StackUnderflow);
      }
      var n := |stack| - 1;
      var dir := stack[n];
      stack := stack[..n];
      if |stack| == 0 {
        frames, base := [], written;
        return Err(CannotEndRoot);
      }
      EmitClosed(frames, |base|);

      var start := pos;
      var data := EncodeDirectory(dir, start);
      written := written + data;
      pos := pos + |data|;

      var parent := stack[n - 1];
      stack := stack[..n - 1]
        + [DirectoryInfo(parent.name, parent.entries + [CatalogEntry(dir.name, Directory(start))])];
      frames := WithNode(frames[..n], Dir(frames[n].name, frames[n].nodes));
      r := Ok(());
    }

    method Add(name: Name, kind: ItemKind) returns (r: Result<(), WriteError>)
      requires Valid()
      modifies this
      ensures Valid() && written == old(written) && base == old(base)
      ensures old(frames) != [] ==> r == Ok(()) && frames == WithNode(old(frames), Leaf(name, kind))
      ensures old(frames) == [] ==> r == Err(StackUnderflow) && frames == []
    {
      hide EmitFrames, Emit;
      if |stack| == 0 {
        return Err(StackUnderflow);
      }
      LeafAdded(frames, name, kind, |base|);
      var n := |stack| - 1;
      stack := stack[..n] + [DirectoryInfo(stack[n].name, stack[n].entries + [CatalogEntry(name, Item(kind))])];
      frames := WithNode(frames, Leaf(name, kind));
      r := Ok(());
    }

    method Finish() returns (r: Result<seq<byte>, WriteError>)
      requires Valid()
      modifies this
      ensures |old(frames)| == 1 ==> r == Ok(CatalogBytes(old(base), old(frames)[0].nodes))
      ensures |old(frames)| != 1 ==> r == Err(Unbalanced) && written == old(written)
    {
      hide EmitFrames, Emit, BlockBytes, Backward, CatalogBytes, LittleEndian;
      if |stack| != 1 {
        return Err(Unbalanced);
      }
      RootEmitted(frames, |base|);
      var root := stack[0];
      stack := [];
      var start := pos;
      var data := EncodeDirectory(root, start);
      written := written + data;
      written := written + LittleEndian(start, 8);
      RootFinished(base, frames[0].nodes, data);
      r := Ok(written);
    }
  }
}
