/** The parser that walks a catalog file back from its trailer. */
module CatalogReading {
  import opened Bytes
  import opened Varint
  import opened Catalog

  const MAX_CATALOG_DEPTH: nat := 1024
  const MAX_CATALOG_ENTRIES: nat := 10_000_000

  /** `validate_filename`: not empty, no slash, and neither `.` nor `..`. */
  predicate ValidName(name: Name) {
    name != [] && '/' as int !in name && name != [46] && name != [46, 46]
  }

  datatype RawKind =
    | RawDirectory(child: nat)
    | RawFile(size: u64, mtime: i64)
    | RawSymlink
    | RawHardlink
    | RawOther

  datatype RawEntry = RawEntry(name: Name, kind: RawKind)

  // ----- reading one table

  /** `Cursor::take`, on a 64-bit platform. */
  function Take(data: seq<byte>, pos: nat, len: nat): (r: Result<seq<byte>, DecodeError>)
    ensures r.Ok? ==> pos + len <= |data| && r.value == data[pos..pos + len]
  {
    if pos + len >= U64_LIMIT then Err(LengthOverflow)
    else if pos + len > |data| then Err(SliceOutOfRange)
    else Ok(data[pos..pos + len])
  }

  /** The kind of an entry whose name ended just before `pos`. */
  function ReadKind(table: seq<byte>, pos: nat, tag: byte, blockPos: nat): (r: Result<(RawKind, nat), DecodeError>)
    requires pos <= |table|
    ensures r.Ok? ==> pos <= r.value.1 <= |table|
    ensures r.Ok? && r.value.0.RawDirectory? ==> r.value.0.child <= blockPos
  {
    if tag == ENTRY_DIRECTORY then
      match ReadUnsigned(table, pos, 0, 0)
      case Err(e) => Err(e)
      case Ok((delta, next)) =>
        if delta > blockPos then Err(OffsetUnderflow) else Ok((RawDirectory(blockPos - delta), next))
    else if tag == ENTRY_FILE then
      match ReadUnsigned(table, pos, 0, 0)
      case Err(e) => Err(e)
      case Ok((size, next)) =>
        match ReadSigned(table, next, 0, 0)
        case Err(e) => Err(e)
        case Ok((mtime, last)) => Ok((RawFile(size, mtime), last))
    else if tag == ENTRY_SYMLINK then Ok((RawSymlink, pos))
    else if tag == ENTRY_HARDLINK then Ok((RawHardlink, pos))
    else if tag in {ENTRY_BLOCKDEV, ENTRY_CHARDEV, ENTRY_FIFO, ENTRY_SOCKET} then Ok((RawOther, pos))
    else Err(UnknownEntryType)
  }

  /** One entry costs at least two bytes of table. */
  function ReadEntry(table: seq<byte>, pos: nat, blockPos: nat): (r: Result<(RawEntry, nat), DecodeError>)
    ensures r.Ok? ==> pos + 2 <= r.value.1 <= |table|
    ensures r.Ok? && r.value.0.kind.RawDirectory? ==> r.value.0.kind.child <= blockPos
    ensures r.Ok? ==> ValidName(r.value.0.name)
  {
    if pos >= |table| then Err(UnexpectedEnd)
    else
      match ReadUnsigned(table, pos + 1, 0, 0)
      case Err(e) => Err(e)
      case Ok((len, nameAt)) =>
        match Take(table, nameAt, len)
        case Err(e) => Err(e)
        case Ok(name) =>
          if !ValidName(name) then Err(InvalidName)
          else
            match ReadKind(table, nameAt + len, table[pos], blockPos)
            case Err(e) => Err(e)
            case Ok((kind, next)) => Ok((RawEntry(name, kind), next))
  }

  /** Every pointer of a table leads to its own position or before it. */
  predicate PointsBack(entries: seq<RawEntry>, blockPos: nat) {
    forall e <- entries :: ValidName(e.name) && (e.kind.RawDirectory? ==> e.kind.child <= blockPos)
  }

  /** Reads `count` entries. However large `count` claims to be, two bytes a piece have to be there. */
  function ReadEntries(table: seq<byte>, pos: nat, count: nat, blockPos: nat): (r: Result<seq<RawEntry>, DecodeError>)
    ensures r.Ok? ==> |r.value| == count && PointsBack(r.value, blockPos)
    ensures r.Ok? ==> 2 * count <= |table| - (if pos <= |table| then pos else |table|)
    decreases count
  {
    if count == 0 then Ok([])
    else
      match ReadEntry(table, pos, blockPos)
      case Err(e) => Err(e)
      case Ok((entry, next)) =>
        match ReadEntries(table, next, count - 1, blockPos)
        case Err(e) => Err(e)
        case Ok(rest) => Ok([entry] + rest)
  }

  function ReadTable(data: seq<byte>, blockPos: nat): (r: Result<seq<RawEntry>, DecodeError>)
    ensures r.Ok? ==> PointsBack(r.value, blockPos)
    ensures r.Ok? ==> blockPos < |data| && 2 * |r.value| < |data|
  {
    match ReadUnsigned(data, blockPos, 0, 0)
    case Err(e) => Err(e)
    case Ok((len, tableAt)) =>
      match Take(data, tableAt, len)
      case Err(e) => Err(e)
      case Ok(table) =>
        match ReadUnsigned(table, 0, 0, 0)
        case Err(e) => Err(e)
        case Ok((count, at)) => ReadEntries(table, at, count, blockPos)
  }

  /** The parser's position in a byte string. */
  class Cursor {
    const data: seq<byte>
    var pos: nat

    constructor (data: seq<byte>, pos: nat)
      ensures this.data == data && this.pos == pos
    {
      this.data := data;
      this.pos := pos;
    }

    method Byte() returns (r: Result<byte, DecodeError>)
      modifies this
      ensures if old(pos) < |data| then r == Ok(data[old(pos)]) && pos == old(pos) + 1
              else r == Err(UnexpectedEnd) && pos == old(pos)
    {
      if pos >= |data| {
        return Err(UnexpectedEnd);
      }
      r := Ok(data[pos]);
      pos := pos + 1;
    }

    /** The bytes between the old and the new position, or an error and no advance. */
    method Slice(len: nat) returns (r: Result<seq<byte>, DecodeError>)
      modifies this
      ensures r.Ok? <==> old(pos) + len < U64_LIMIT && old(pos) + len <= |data|
      ensures r.Ok? ==> pos == old(pos) + len && r.value == data[old(pos)..pos]
      ensures r.Err? ==> pos == old(pos) && r.error == if pos + len >= U64_LIMIT then LengthOverflow else SliceOutOfRange
    {
      var end := pos + len;
      if end >= U64_LIMIT {
        return Err(LengthOverflow);
      }
      if end > |data| {
        return Err(SliceOutOfRange);
      }
      r := Ok(data[pos..end]);
      pos := end;
    }

    method U64() returns (r: Result<u64, DecodeError>)
      modifies this
      ensures match ReadUnsigned(data, old(pos), 0, 0)
              case Ok((v, next)) => r == Ok(v) && pos == next
              case Err(e) => r == Err(e)
    {
      hide Shifted, Wrap64;
      var value: u64 := 0;
      var shift := 0;
      while true
        invariant ReadUnsigned(data, pos, value, shift) == ReadUnsigned(data, old(pos), 0, 0)
        decreases |data| - pos
      {
        var next := Byte();
        if next.Err? {
          return Err(next.error);
        }
        if shift >= 64 {
          return Err(VarintTooLong);
        }
        value := Wrap64(value + Shifted(next.value % 0x80, shift));
        if next.value < 0x80 {
          return Ok(value);
        }
        shift := shift + 7;
      }
    }

    method I64() returns (r: Result<i64, DecodeError>)
      modifies this
      ensures match ReadSigned(data, old(pos), 0, 0)
              case Ok((v, next)) => r == Ok(v) && pos == next
              case Err(e) => r == Err(e)
    {
      hide Shifted, Wrap64, AsSigned, NegatedPredecessor;
      var value: u64 := 0;
      var shift := 0;
      while true
        invariant ReadSigned(data, pos, value, shift) == ReadSigned(data, old(pos), 0, 0)
        decreases |data| - pos
      {
        var next := Byte();
        if next.Err? {
          return Err(next.error);
        }
        if shift >= 64 {
          return Err(VarintTooLong);
        }
        if next.value >= 0x80 {
          value := Wrap64(value + Shifted(next.value % 0x80, shift));
          shift := shift + 7;
        } else {
          value := Wrap64(value + Shifted(next.value % 0x40, shift));
          return Ok(if next.value >= 0x40 then NegatedPredecessor(value) else AsSigned(value));
        }
      }
    }
  }

  method ReadEntryAt(cursor: Cursor, blockPos: nat) returns (r: Result<RawEntry, DecodeError>)
    modifies cursor
    ensures match ReadEntry(cursor.data, old(cursor.pos), blockPos)
            case Ok((entry, next)) => r == Ok(entry) && cursor.pos == next
            case Err(e) => r == Err(e)
  {
    hide ReadUnsigned, ReadSigned, ValidName;
    var tag := cursor.Byte();
    if tag.Err? {
      return Err(tag.error);
    }
    var len := cursor.U64();
    if len.Err? {
      return Err(len.error);
    }
    var name := cursor.Slice(len.value);
    if name.Err? {
      return Err(name.error);
    }
    if !ValidName(name.value) {
      return Err(InvalidName);
    }
    var kind: RawKind;
    if tag.value == ENTRY_DIRECTORY {
      var delta := cursor.U64();
      if delta.Err? {
        return Err(delta.error);
      }
      if delta.value > blockPos {
        return Err(OffsetUnderflow);
      }
      kind := RawDirectory(blockPos - delta.value);
    } else if tag.value == ENTRY_FILE {
      var size := cursor.U64();
      if size.Err? {
        return Err(size.error);
      }
      var mtime := cursor.I64();
      if mtime.Err? {
        return Err(mtime.error);
      }
      kind := RawFile(size.value, mtime.value);
    } else if tag.value == ENTRY_SYMLINK {
      kind := RawSymlink;
    } else if tag.value == ENTRY_HARDLINK {
      kind := RawHardlink;
    } else if tag.value in {ENTRY_BLOCKDEV, ENTRY_CHARDEV, ENTRY_FIFO, ENTRY_SOCKET} {
      kind := RawOther;
    } else {
      return Err(UnknownEntryType);
    }
    r := Ok(RawEntry(name.value, kind));
  }

  /** The outcome of a table once `done` entries precede what is still to be read. */
  function Prepend(done: seq<RawEntry>, rest: Result<seq<RawEntry>, DecodeError>): Result<seq<RawEntry>, DecodeError> {
    match rest
    case Ok(entries) => Ok(done + entries)
    case Err(e) => Err(e)
  }

  method LoadTable(data: seq<byte>, blockPos: nat) returns (r: Result<seq<RawEntry>, DecodeError>)
    ensures r == ReadTable(data, blockPos)
  {
    hide ReadUnsigned, ReadEntry, PointsBack;
    var block := new Cursor(data, blockPos);
    var len := block.U64();
    if len.Err? {
      return Err(len.error);
    }
    var table := block.Slice(len.value);
    if table.Err? {
      return Err(table.error);
    }

    var cursor := new Cursor(table.value, 0);
    var count := cursor.U64();
    if count.Err? {
      return Err(count.error);
    }

    var entries: seq<RawEntry> := [];
    ghost var whole := ReadEntries(table.value, cursor.pos, count.value, blockPos);
    assert whole.Ok? ==> [] + whole.value == whole.value;
    var i := 0;
    while i < count.value
      invariant 0 <= i <= count.value
      invariant whole == Prepend(entries, ReadEntries(table.value, cursor.pos, count.value - i, blockPos))
      decreases count.value - i
    {
      var entry := ReadEntryAt(cursor, blockPos);
      if entry.Err? {
        return Err(entry.error);
      }
      ghost var rest := ReadEntries(table.value, cursor.pos, count.value - i - 1, blockPos);
      if rest.Ok? {
        assert entries + ([entry.value] + rest.value) == entries + [entry.value] + rest.value;
      }
      entries := entries + [entry.value];
      i := i + 1;
    }
    assert entries + [] == entries;
    r := Ok(entries);
  }

  // ----- walking the tables

  type Path = seq<Name>

  datatype EntryKind = DirectoryKind | FileKind | SymlinkKind

  /** A listed entry; the source's `symlink` field is `None` for everything a catalog lists. */
  datatype ArchiveEntry = ArchiveEntry(path: Path, kind: EntryKind, size: u64, mode: nat, mtime: i64)

  const MODE_DIRECTORY: nat := 493 // 0o755
  const MODE_FILE: nat := 420 // 0o644
  const MODE_SYMLINK: nat := 511 // 0o777

  /** One table that was opened: where it is, which table pointed at it, how deep the walk was. */
  datatype Expansion = Expansion(offset: nat, parent: nat, depth: nat)

  datatype WalkState = WalkState(
    out: seq<ArchiveEntry>,
    visited: set<nat>,
    expanded: seq<Expansion>,
    error: Option<DecodeError>)
  {
    function Fail(e: DecodeError): WalkState {
      this.(error := Some(e))
    }
  }

  /** What an entry below the root puts in the listing itself. */
  function Listed(kind: RawKind, path: Path): seq<ArchiveEntry> {
    match kind
    case RawDirectory(_) => [ArchiveEntry(path, DirectoryKind, 0, MODE_DIRECTORY, 0)]
    case RawFile(size, mtime) => [ArchiveEntry(path, FileKind, size, MODE_FILE, mtime)]
    case RawHardlink => [ArchiveEntry(path, FileKind, 0, MODE_FILE, 0)]
    case RawSymlink => [ArchiveEntry(path, SymlinkKind, 0, MODE_SYMLINK, 0)]
    case RawOther => []
  }

  function Walk(data: seq<byte>, blockPos: nat, parent: nat, base: Path, depth: nat, s: WalkState): WalkState
    decreases MAX_CATALOG_DEPTH - depth, 1, 0
  {
    if depth >= MAX_CATALOG_DEPTH then s.Fail(NestingTooDeep)
    else if blockPos in s.visited then s.Fail(BlockRevisited)
    else
      var entered := s.(visited := s.visited + {blockPos},
                       expanded := s.expanded + [Expansion(blockPos, parent, depth)]);
      match ReadTable(data, blockPos)
      case Err(e) => entered.Fail(e)
      case Ok(entries) => WalkEntries(data, entries, blockPos, base, depth, entered)
  }

  function WalkEntries(data: seq<byte>, entries: seq<RawEntry>, blockPos: nat, base: Path, depth: nat, s: WalkState): WalkState
    requires depth < MAX_CATALOG_DEPTH
    decreases MAX_CATALOG_DEPTH - depth, 0, |entries|
  {
    if entries == [] then s
    else if |s.out| >= MAX_CATALOG_ENTRIES then s.Fail(TooManyEntries)
    else
      var next := WalkEntry(data, entries[0], blockPos, base, depth, s);
      if next.error.Some? then next
      else WalkEntries(data, entries[1..], blockPos, base, depth, next)
  }

  function WalkEntry(data: seq<byte>, entry: RawEntry, blockPos: nat, base: Path, depth: nat, s: WalkState): WalkState
    requires depth < MAX_CATALOG_DEPTH
    decreases MAX_CATALOG_DEPTH - depth, 0, 0
  {
    var path := base + [entry.name];
    var listed := s.(out := s.out + Listed(entry.kind, path));
    match entry.kind
    case RawDirectory(child) => Walk(data, child, blockPos, path, depth + 1, listed)
    case _ => listed
  }

  /** An entry of the root table: a directory's own name is dropped, and links are not listed. */
  function WalkRootEntry(data: seq<byte>, entry: RawEntry, root: nat, s: WalkState): WalkState {
    match entry.kind
    case RawDirectory(child) => Walk(data, child, root, [], 0, s)
    case RawFile(size, mtime) =>
      if |s.out| >= MAX_CATALOG_ENTRIES then s.Fail(TooManyEntries)
      else s.(out := s.out + [ArchiveEntry([entry.name], FileKind, size, MODE_FILE, mtime)])
    case _ => s
  }

  function WalkRoot(data: seq<byte>, entries: seq<RawEntry>, root: nat, s: WalkState): WalkState {
    if entries == [] then s
    else
      var next := WalkRootEntry(data, entries[0], root, s);
      if next.error.Some? then next else WalkRoot(data, entries[1..], root, next)
  }

  function RootOffset(data: seq<byte>): nat
    requires |data| >= 8
  {
    FromLittleEndian(data[|data| - 8..])
  }

  /** Everything parsing does, up to the point where it ends or fails. */
  function Parse(data: seq<byte>): WalkState {
    var start := WalkState([], {}, [], None);
    if !(CATALOG_MAGIC <= data) then start.Fail(InvalidMagic)
    else
      var root := RootOffset(data);
      var entered := start.(visited := {root});
      match ReadTable(data, root)
      case Err(e) => entered.Fail(e)
      case Ok(entries) => WalkRoot(data, entries, root, entered)
  }

  function ParseResult(s: WalkState): Result<seq<ArchiveEntry>, DecodeError> {
    if s.error.Some? then Err(s.error.value) else Ok(s.out)
  }

  /** The listing under construction. */
  class CatalogWalk {
    const data: seq<byte>
    var out: seq<ArchiveEntry>
    var visited: set<nat>
    ghost var expanded: seq<Expansion>

    constructor (data: seq<byte>)
      ensures this.data == data && State(Ok(())) == WalkState([], {}, [], None)
    {
      this.data := data;
      out := [];
      visited := {};
      expanded := [];
    }

    ghost function State(r: Result<(), DecodeError>): WalkState
      reads this
    {
      WalkState(out, visited, expanded, if r.Err? then Some(r.error) else None)
    }

    method PushWalk(blockPos: nat, ghost parent: nat, base: Path, depth: nat) returns (r: Result<(), DecodeError>)
      modifies this
      ensures State(r) == Walk(data, blockPos, parent, base, depth, old(State(Ok(()))))
      decreases MAX_CATALOG_DEPTH - depth
    {
      hide ReadTable;
      if depth >= MAX_CATALOG_DEPTH {
        return Err(NestingTooDeep);
      }
      if blockPos in visited {
        return Err(BlockRevisited);
      }
      visited := visited + {blockPos};
      expanded := expanded + [Expansion(blockPos, parent, depth)];

      var table := LoadTable(data, blockPos);
      if table.Err? {
        return Err(table.error);
      }
      var entries := table.value;
      ghost var whole := WalkEntries(data, entries, blockPos, base, depth, State(Ok(())));
      for i := 0 to |entries|
        invariant whole == WalkEntries(data, entries[i..], blockPos, base, depth, State(Ok(())))
      {
        assert entries[i..][1..] == entries[i + 1..];
        if |out| >= MAX_CATALOG_ENTRIES {
          return Err(TooManyEntries);
        }
        var path := base + [entries[i].name];
        out := out + Listed(entries[i].kind, path);
        if entries[i].kind.RawDirectory? {
          var inner := PushWalk(entries[i].kind.child, blockPos, path, depth + 1);
          if inner.Err? {
            return inner;
          }
        }
      }
      r := Ok(());
    }
  }

  method ParseCatalog(data: seq<byte>) returns (r: Result<seq<ArchiveEntry>, DecodeError>)
    ensures r == ParseResult(Parse(data))
  {
    hide ReadTable, Walk;
    if !(CATALOG_MAGIC <= data) {
      return Err(InvalidMagic);
    }
    var root := FromLittleEndian(data[|data| - 8..]);
    var walk := new CatalogWalk(data);
    walk.visited := walk.visited + {root};
    var table := LoadTable(data, root);
    if table.Err? {
      return Err(table.error);
    }
    var entries := table.value;
    assert entries[0..] == entries && {} + {root} == {root};
    for i := 0 to |entries|
      invariant walk.data == data
      invariant Parse(data) == WalkRoot(data, entries[i..], root, walk.State(Ok(())))
    {
      assert entries[i..][1..] == entries[i + 1..];
      match entries[i].kind {
        case RawDirectory(child) =>
          var inner := walk.PushWalk(child, root, [], 0);
          if inner.Err? {
            return Err(inner.error);
          }
        case RawFile(size, mtime) =>
          if |walk.out| >= MAX_CATALOG_ENTRIES {
            return Err(TooManyEntries);
          }
          walk.out := walk.out + [ArchiveEntry([entries[i].name], FileKind, size, MODE_FILE, mtime)];
        case _ =>
      }
    }
    r := Ok(walk.out);
  }
}
