/** What the parser makes of any bytes, not only of those the writer wrote. */
module CatalogFormat {
  import opened Bytes
  import opened Varint
  import opened Catalog
  import opened CatalogReading

  /** More bytes than this do not fit 64 bits. */
  const MAX_VARINT_LENGTH: nat := 10

  /** The position of the first byte from `pos` on that ends a varint, or the end of the data. */
  function LastByte(data: seq<byte>, pos: nat): (e: nat)
    ensures pos <= e && (e < |data| ==> data[e] < 0x80)
    ensures forall i :: pos <= i < e && i < |data| ==> data[i] >= 0x80
    ensures pos <= |data| ==> e <= |data|
    decreases |data| - pos
  {
    if pos < |data| && data[pos] >= 0x80 then LastByte(data, pos + 1) else pos
  }

  /** There is a varint of at most `room` bytes at `pos`. */
  predicate HasVarint(data: seq<byte>, pos: nat, room: nat) {
    LastByte(data, pos) < |data| && LastByte(data, pos) - pos < room
  }

  /** Why there is none: the data ends, or goes on too long. */
  function Failure(data: seq<byte>, pos: nat, room: nat): DecodeError {
    if pos + room < |data| then VarintTooLong else UnexpectedEnd
  }

  lemma SumFirst(data: seq<byte>, pos: nat, e: nat)
    requires pos < e < |data| && data[pos] >= 0x80
    ensures GroupSum(data[pos..e + 1]) == data[pos] % 0x80 + 0x80 * GroupSum(data[pos + 1..e + 1])
    ensures MagnitudeSum(data[pos..e + 1]) == data[pos] % 0x80 + 0x80 * MagnitudeSum(data[pos + 1..e + 1])
  {
    assert data[pos..e + 1][1..] == data[pos + 1..e + 1];
  }

  lemma SumOne(data: seq<byte>, pos: nat)
    requires pos < |data|
    ensures GroupSum(data[pos..pos + 1]) == data[pos] % 0x80 && MagnitudeSum(data[pos..pos + 1]) == data[pos] % 0x40
  {
    assert data[pos..pos + 1] == [data[pos]];
    assert [data[pos]][1..] == [];
  }

  lemma WrapSum(a: nat, b: nat)
    ensures Wrap64(Wrap64(a) + b) == Wrap64(a + b) && Wrap64(a + Wrap64(b)) == Wrap64(a + b)
  {
  }

  lemma ShiftedIs(group: nat, shift: nat)
    ensures Shifted(group, shift) == Wrap64(Pow2(shift) * group)
  {
    hide Pow2;
    assert group * Pow2(shift) == Pow2(shift) * group;
  }

  lemma Distributes(p: nat, group: nat, rest: nat)
    ensures p * (group + 0x80 * rest) == p * group + 0x80 * p * rest
  {
  }

  /** Adding a shifted group with wrap-around, and then the rest, is adding them all and wrapping once. */
  lemma WrapOnce(value: nat, group: nat, shift: nat, rest: nat)
    ensures Wrap64(Wrap64(value + Shifted(group, shift)) + Pow2(shift + 7) * rest)
         == Wrap64(value + Pow2(shift) * (group + 0x80 * rest))
    ensures Wrap64(value + Shifted(group, shift)) == Wrap64(value + Pow2(shift) * group)
  {
    hide *;
    var p := Pow2(shift);
    Pow2Seven(shift);
    ShiftedIs(group, shift);
    WrapSum(value, p * group);
    WrapSum(value + p * group, 0x80 * p * rest);
    Distributes(p, group, rest);
  }

  /** The unsigned decoder, `k` groups into a varint, on any bytes. */
  lemma {:induction false} ReadUnsignedIs(data: seq<byte>, pos: nat, value: u64, k: nat)
    requires k <= MAX_VARINT_LENGTH && pos <= |data|
    ensures var room := MAX_VARINT_LENGTH - k;
      var e := LastByte(data, pos);
      ReadUnsigned(data, pos, value, 7 * k)
        == if HasVarint(data, pos, room) then Ok((Wrap64(value + Pow2(7 * k) * GroupSum(data[pos..e + 1])), e + 1))
           else Err(Failure(data, pos, room))
    decreases MAX_VARINT_LENGTH - k
  {
    hide Wrap64, Shifted, Pow2, GroupSum, MagnitudeSum;
    if pos < |data| && k < MAX_VARINT_LENGTH {
      var b := data[pos];
      WrapOnce(value, b % 0x80, 7 * k, 0);
      if b < 0x80 {
        SumOne(data, pos);
      } else {
        var next := Wrap64(value + Shifted(b % 0x80, 7 * k));
        ReadUnsignedIs(data, pos + 1, next, k + 1);
        var e := LastByte(data, pos);
        if HasVarint(data, pos, MAX_VARINT_LENGTH - k) {
          SumFirst(data, pos, e);
          WrapOnce(value, b % 0x80, 7 * k, GroupSum(data[pos + 1..e + 1]));
        }
      }
    }
  }

  /** The signed decoder likewise: the sign is bit six of the last byte, and a negative value is one less than minus its magnitude. */
  lemma {:induction false} ReadSignedIs(data: seq<byte>, pos: nat, value: u64, k: nat)
    requires k <= MAX_VARINT_LENGTH && pos <= |data|
    ensures var room := MAX_VARINT_LENGTH - k;
      var e := LastByte(data, pos);
      ReadSigned(data, pos, value, 7 * k)
        == if HasVarint(data, pos, room) then
             var magnitude := Wrap64(value + Pow2(7 * k) * MagnitudeSum(data[pos..e + 1]));
             Ok((if data[e] >= 0x40 then NegatedPredecessor(magnitude) else AsSigned(magnitude), e + 1))
           else Err(Failure(data, pos, room))
    decreases MAX_VARINT_LENGTH - k
  {
    hide Wrap64, Shifted, Pow2, GroupSum, MagnitudeSum;
    if pos < |data| && k < MAX_VARINT_LENGTH {
      var b := data[pos];
      if b < 0x80 {
        WrapOnce(value, b % 0x40, 7 * k, 0);
        SumOne(data, pos);
      } else {
        var next := Wrap64(value + Shifted(b % 0x80, 7 * k));
        ReadSignedIs(data, pos + 1, next, k + 1);
        var e := LastByte(data, pos);
        if HasVarint(data, pos, MAX_VARINT_LENGTH - k) {
          SumFirst(data, pos, e);
          WrapOnce(value, b % 0x80, 7 * k, MagnitudeSum(data[pos + 1..e + 1]));
        }
      }
    }
  }

  // ----- entries

  /** The number at `pos` and where it ends, by what its groups add up to. */
  function Number(data: seq<byte>, pos: nat): Option<(nat, nat)> {
    var e := LastByte(data, pos);
    if HasVarint(data, pos, MAX_VARINT_LENGTH) then Some((GroupSum(data[pos..e + 1]) % U64_LIMIT, e + 1)) else None
  }

  /** The signed number at `pos`, the magnitude cut to 64 bits and read in two's complement. */
  function Integer(data: seq<byte>, pos: nat): Option<(int, nat)> {
    var e := LastByte(data, pos);
    if !HasVarint(data, pos, MAX_VARINT_LENGTH) then None
    else
      var magnitude := MagnitudeSum(data[pos..e + 1]) % U64_LIMIT;
      Some((if data[e] >= 0x40 then NegatedPredecessor(magnitude) else AsSigned(magnitude), e + 1))
  }

  lemma NumberIs(data: seq<byte>, pos: nat)
    requires pos <= |data|
    ensures ReadUnsigned(data, pos, 0, 0)
         == match Number(data, pos) case Some(n) => Ok(n) case None => Err(Failure(data, pos, MAX_VARINT_LENGTH))
    ensures ReadSigned(data, pos, 0, 0)
         == match Integer(data, pos) case Some(n) => Ok(n) case None => Err(Failure(data, pos, MAX_VARINT_LENGTH))
    ensures Number(data, pos).Some? ==> Number(data, pos).value.1 <= |data|
    ensures Integer(data, pos).Some? ==> Integer(data, pos).value.1 <= |data|
  {
    hide GroupSum, MagnitudeSum, ReadUnsigned, ReadSigned, LastByte;
    ReadUnsignedIs(data, pos, 0, 0);
    ReadSignedIs(data, pos, 0, 0);
  }

  /** The bytes `pos..next` of a table at `blockPos` are one entry: a tag, a length, a name, and what the tag calls for. */
  ghost predicate IsEntry(table: seq<byte>, pos: nat, next: nat, entry: RawEntry, blockPos: nat) {
    && pos < |table| && next <= |table|
    && Number(table, pos + 1).Some?
    && var (len, nameAt) := Number(table, pos + 1).value;
       && nameAt + len <= |table| && entry.name == table[nameAt..nameAt + len] && ValidName(entry.name)
       && IsKind(table, nameAt + len, next, table[pos], entry.kind, blockPos)
  }

  /** A directory's number is how far before its own table its child's lies; a file has a size and a time; the others have nothing. */
  ghost predicate IsKind(table: seq<byte>, at: nat, next: nat, tag: byte, kind: RawKind, blockPos: nat) {
    match kind
    case RawDirectory(child) => tag == ENTRY_DIRECTORY && child <= blockPos && Number(table, at) == Some((blockPos - child, next))
    case RawFile(size, mtime) =>
      && tag == ENTRY_FILE && Number(table, at).Some? && Number(table, at).value.0 == size
      && Integer(table, Number(table, at).value.1) == Some((mtime, next))
    case RawSymlink => tag == ENTRY_SYMLINK && next == at
    case RawHardlink => tag == ENTRY_HARDLINK && next == at
    case RawOther => tag in {ENTRY_BLOCKDEV, ENTRY_CHARDEV, ENTRY_FIFO, ENTRY_SOCKET} && next == at
  }

  lemma ReadKindIff(table: seq<byte>, at: nat, tag: byte, blockPos: nat, kind: RawKind, next: nat)
    requires at <= |table|
    ensures ReadKind(table, at, tag, blockPos) == Ok((kind, next)) <==> IsKind(table, at, next, tag, kind, blockPos)
  {
    NumberIs(table, at);
    if Number(table, at).Some? {
      NumberIs(table, Number(table, at).value.1);
    }
    hide Number, Integer, ReadUnsigned, ReadSigned;
  }

  /** On any bytes: an entry is read exactly if it is there, as what it says. */
  lemma ReadEntryIff(table: seq<byte>, pos: nat, blockPos: nat, entry: RawEntry, next: nat)
    requires |table| < U64_LIMIT
    ensures ReadEntry(table, pos, blockPos) == Ok((entry, next)) <==> IsEntry(table, pos, next, entry, blockPos)
  {
    hide Number, Integer, ReadUnsigned, ReadSigned, ReadKind, IsKind, ValidName;
    if pos < |table| {
      NumberIs(table, pos + 1);
      if Number(table, pos + 1).Some? {
        var (len, nameAt) := Number(table, pos + 1).value;
        if nameAt + len <= |table| {
          ReadKindIff(table, nameAt + len, table[pos], blockPos, entry.kind, next);
        }
      }
    }
  }

  /** Where the entries of a table start and end: one after the other. */
  ghost predicate AreEntries(table: seq<byte>, ats: seq<nat>, entries: seq<RawEntry>, blockPos: nat) {
    && |ats| == |entries| + 1
    && forall i :: 0 <= i < |entries| ==> IsEntry(table, ats[i], ats[i + 1], entries[i], blockPos)
  }

  lemma {:induction false} ReadEntriesAre(table: seq<byte>, pos: nat, count: nat, blockPos: nat) returns (ats: seq<nat>)
    requires |table| < U64_LIMIT && ReadEntries(table, pos, count, blockPos).Ok?
    ensures ats != [] && ats[0] == pos && AreEntries(table, ats, ReadEntries(table, pos, count, blockPos).value, blockPos)
    decreases count
  {
    hide IsEntry, ReadEntry;
    if count == 0 {
      ats := [pos];
    } else {
      var (entry, next) := ReadEntry(table, pos, blockPos).value;
      ReadEntryIff(table, pos, blockPos, entry, next);
      var rest := ReadEntriesAre(table, next, count - 1, blockPos);
      ats := [pos] + rest;
      var entries := ReadEntries(table, pos, count, blockPos).value;
      forall i | 0 <= i < |entries|
        ensures IsEntry(table, ats[i], ats[i + 1], entries[i], blockPos)
      {
        if i > 0 {
          assert entries[i] == entries[1..][i - 1];
        }
      }
    }
  }

  /** On any bytes: a table that is read is a length, that many bytes, and in them a count and that many entries. */
  lemma ReadTableIs(data: seq<byte>, blockPos: nat) returns (table: seq<byte>, ats: seq<nat>)
    requires |data| < U64_LIMIT && ReadTable(data, blockPos).Ok?
    ensures Number(data, blockPos).Some?
    ensures var (len, tableAt) := Number(data, blockPos).value;
      && tableAt + len <= |data| && table == data[tableAt..tableAt + len]
      && AreEntries(table, ats, ReadTable(data, blockPos).value, blockPos)
      && ats != [] && Number(table, 0) == Some((|ReadTable(data, blockPos).value|, ats[0]))
  {
    hide Number, ReadUnsigned, AreEntries, ReadEntries;
    NumberIs(data, blockPos);
    var (len, tableAt) := Number(data, blockPos).value;
    table := data[tableAt..tableAt + len];
    NumberIs(table, 0);
    var (count, at) := Number(table, 0).value;
    ats := ReadEntriesAre(table, at, count, blockPos);
  }
}
