/** The dynamic index of an archive: where each chunk ends, and the digest that names it. */
module DynamicIndex {
  import opened Bytes

  const DYNAMIC_INDEX_HEADER_SIZE: nat := 4096
  const DYNAMIC_INDEX_ENTRY_SIZE: nat := 40

  type Digest = d: seq<byte> | |d| == 32 witness seq(32, _ => 0)

  datatype IndexEntry = IndexEntry(end: u64, digest: Digest)

  datatype IndexError = ShorterThanHeader | TruncatedEntry

  // ----- layout

  function EntryLayout(e: IndexEntry): (s: seq<byte>)
    ensures |s| == DYNAMIC_INDEX_ENTRY_SIZE
  {
    LittleEndian(e.end, 8) + e.digest
  }

  function EntriesLayout(entries: seq<IndexEntry>): (s: seq<byte>)
    ensures |s| == DYNAMIC_INDEX_ENTRY_SIZE * |entries|
  {
    if entries == [] then [] else EntryLayout(entries[0]) + EntriesLayout(entries[1..])
  }

  function ReadEntry(s: seq<byte>): IndexEntry
    requires |s| == DYNAMIC_INDEX_ENTRY_SIZE
  {
    EightBytesAreU64(s[..8]);
    IndexEntry(FromLittleEndian(s[..8]), s[8..])
  }

  function ReadEntries(s: seq<byte>): (r: seq<IndexEntry>)
    requires |s| % DYNAMIC_INDEX_ENTRY_SIZE == 0
    ensures DYNAMIC_INDEX_ENTRY_SIZE * |r| == |s|
  {
    if s == [] then []
    else [ReadEntry(s[..DYNAMIC_INDEX_ENTRY_SIZE])] + ReadEntries(s[DYNAMIC_INDEX_ENTRY_SIZE..])
  }

  method ParseDynamicIndexEntries(data: seq<byte>) returns (r: Result<seq<IndexEntry>, IndexError>)
    ensures |data| < DYNAMIC_INDEX_HEADER_SIZE ==> r == Err(ShorterThanHeader)
    ensures |data| >= DYNAMIC_INDEX_HEADER_SIZE ==>
      r == if (|data| - DYNAMIC_INDEX_HEADER_SIZE) % DYNAMIC_INDEX_ENTRY_SIZE != 0 then Err(TruncatedEntry)
           else Ok(ReadEntries(data[DYNAMIC_INDEX_HEADER_SIZE..]))
  {
    hide ReadEntry;
    if |data| < DYNAMIC_INDEX_HEADER_SIZE {
      return Err(ShorterThanHeader);
    }
    var entries := data[DYNAMIC_INDEX_HEADER_SIZE..];
    if |entries| % DYNAMIC_INDEX_ENTRY_SIZE != 0 {
      return Err(TruncatedEntry);
    }
    var out: seq<IndexEntry> := [];
    var at := 0;
    while at < |entries|
      invariant 0 <= at <= |entries| && (|entries| - at) % DYNAMIC_INDEX_ENTRY_SIZE == 0
      invariant out + ReadEntries(entries[at..]) == ReadEntries(entries)
      decreases |entries| - at
    {
      var next := at + DYNAMIC_INDEX_ENTRY_SIZE;
      assert entries[at..][..DYNAMIC_INDEX_ENTRY_SIZE] == entries[at..next];
      assert entries[at..][DYNAMIC_INDEX_ENTRY_SIZE..] == entries[next..];
      out := out + [ReadEntry(entries[at..next])];
      at := next;
    }
    assert out + [] == out;
    r := Ok(out);
  }

  /** Where the entries are: forty bytes each, the end offset first and the digest after it. */
  lemma {:induction false} EntryAt(s: seq<byte>, i: nat)
    requires |s| % DYNAMIC_INDEX_ENTRY_SIZE == 0 && DYNAMIC_INDEX_ENTRY_SIZE * i < |s|
    ensures var at := DYNAMIC_INDEX_ENTRY_SIZE * i;
      && |ReadEntries(s)| * DYNAMIC_INDEX_ENTRY_SIZE == |s| && i < |ReadEntries(s)|
      && ReadEntries(s)[i].end == FromLittleEndian(s[at..at + 8])
      && ReadEntries(s)[i].digest == s[at + 8..at + DYNAMIC_INDEX_ENTRY_SIZE]
    decreases |s|
  {
    hide FromLittleEndian;
    var size := DYNAMIC_INDEX_ENTRY_SIZE;
    var first := s[..size];
    assert first[..8] == s[..8] && first[8..] == s[8..size];
    if i > 0 {
      EntryAt(s[size..], i - 1);
      var at := size * (i - 1);
      SliceAfter(s, size, at, at + 8);
      SliceAfter(s, size, at + 8, at + size);
    }
  }

  lemma SliceAfter(s: seq<byte>, k: nat, a: nat, b: nat)
    requires a <= b && k + b <= |s|
    ensures s[k..][a..b] == s[k + a..k + b]
  {
  }

  /** Only the digests, in order. */
  function Digests(entries: seq<IndexEntry>): (r: seq<Digest>)
    ensures |r| == |entries| && forall i :: 0 <= i < |r| ==> r[i] == entries[i].digest
  {
    if entries == [] then [] else [entries[0].digest] + Digests(entries[1..])
  }

  method ParseDynamicIndex(data: seq<byte>) returns (r: Result<seq<Digest>, IndexError>)
    ensures |data| >= DYNAMIC_INDEX_HEADER_SIZE && (|data| - DYNAMIC_INDEX_HEADER_SIZE) % DYNAMIC_INDEX_ENTRY_SIZE == 0
            <==> r.Ok?
    ensures r.Ok? ==> r.value == Digests(ReadEntries(data[DYNAMIC_INDEX_HEADER_SIZE..]))
  {
    var entries := ParseDynamicIndexEntries(data);
    match entries {
      case Ok(list) => r := Ok(Digests(list));
      case Err(e) => r := Err(e);
    }
  }

  /** What is laid out is read back. */
  lemma {:induction false} ReadEntriesOfLayout(entries: seq<IndexEntry>)
    ensures ReadEntries(EntriesLayout(entries)) == entries
  {
    if entries != [] {
      var first, rest := EntryLayout(entries[0]), EntriesLayout(entries[1..]);
      assert (first + rest)[..DYNAMIC_INDEX_ENTRY_SIZE] == first;
      assert (first + rest)[DYNAMIC_INDEX_ENTRY_SIZE..] == rest;
      assert first[..8] == LittleEndian(entries[0].end, 8) && first[8..] == entries[0].digest;
      U64FitsEightBytes(entries[0].end);
      ReadEntriesOfLayout(entries[1..]);
    }
  }

  // ----- the index of a chunked stream

  /** The end offset of every chunk, the first one starting at `start`. */
  function Ends(chunks: seq<seq<byte>>, start: nat): (r: seq<nat>)
    ensures |r| == |chunks|
  {
    if chunks == [] then [] else [start + |chunks[0]|] + Ends(chunks[1..], start + |chunks[0]|)
  }

  /** `slice::partition_point` for the predicate `end <= offset`: how many leading ends satisfy it. */
  function PartitionPoint(ends: seq<nat>, offset: nat): (r: nat)
    ensures r <= |ends|
    ensures forall i :: 0 <= i < r ==> ends[i] <= offset
    ensures r < |ends| ==> offset < ends[r]
  {
    if ends == [] || ends[0] > offset then 0 else 1 + PartitionPoint(ends[1..], offset)
  }

  /** Where chunk `idx` begins, as the reader computes it. */
  function ChunkStart(ends: seq<nat>, idx: nat): nat
    requires idx <= |ends|
  {
    if idx == 0 then 0 else ends[idx - 1]
  }

  /** The stream around chunk `i`. */
  lemma FlattenAround(chunks: seq<seq<byte>>, i: nat)
    requires i < |chunks|
    ensures Flatten(chunks[..i + 1]) == Flatten(chunks[..i]) + chunks[i]
    ensures Flatten(chunks) == Flatten(chunks[..i]) + (chunks[i] + Flatten(chunks[i + 1..]))
  {
    hide *;
    Rejoin(chunks, i);
    FlattenSnoc(chunks[..i], chunks[i]);
    FlattenAppend(chunks[..i + 1], chunks[i + 1..]);
    Associative(Flatten(chunks[..i]), chunks[i], Flatten(chunks[i + 1..]));
  }

  lemma {:induction false} EndsAt(chunks: seq<seq<byte>>, start: nat, i: nat)
    requires i < |chunks|
    ensures Ends(chunks, start)[i] == start + |Flatten(chunks[..i + 1])|
    decreases i
  {
    assert chunks[..i + 1][1..] == chunks[1..][..i];
    if i > 0 {
      EndsAt(chunks[1..], start + |chunks[0]|, i - 1);
    }
  }

  /** The size the reader takes from the last entry is the length of the stream. */
  lemma LastEnd(chunks: seq<seq<byte>>)
    requires chunks != []
    ensures Ends(chunks, 0)[|chunks| - 1] == |Flatten(chunks)|
  {
    EndsAt(chunks, 0, |chunks| - 1);
    assert chunks[..|chunks|] == chunks;
  }

  /** The chunk the index leads to is the stretch of the stream around the offset. */
  lemma Locate(chunks: seq<seq<byte>>, offset: nat)
    requires offset < |Flatten(chunks)|
    ensures var ends := Ends(chunks, 0);
      var idx := PartitionPoint(ends, offset);
      && idx < |chunks|
      && var at := ChunkStart(ends, idx);
         && at <= offset < at + |chunks[idx]| == ends[idx] <= |Flatten(chunks)|
         && Flatten(chunks)[at..at + |chunks[idx]|] == chunks[idx]
  {
    hide *;
    var ends := Ends(chunks, 0);
    var idx := PartitionPoint(ends, offset);
    Reachable(chunks, offset);
    EndsAt(chunks, 0, idx);
    FlattenAround(chunks, idx);
    BeforeChunk(chunks, idx);
    MiddleSlice(Flatten(chunks[..idx]), chunks[idx], Flatten(chunks[idx + 1..]));
    AtChunk(chunks, offset, idx);
  }

  lemma Reachable(chunks: seq<seq<byte>>, offset: nat)
    requires offset < |Flatten(chunks)|
    ensures PartitionPoint(Ends(chunks, 0), offset) < |chunks|
  {
    LastEnd(chunks);
  }

  lemma AtChunk(chunks: seq<seq<byte>>, offset: nat, idx: nat)
    requires idx == PartitionPoint(Ends(chunks, 0), offset)
    ensures ChunkStart(Ends(chunks, 0), idx) <= offset
  {
  }

  lemma BeforeChunk(chunks: seq<seq<byte>>, idx: nat)
    requires idx < |chunks|
    ensures ChunkStart(Ends(chunks, 0), idx) == |Flatten(chunks[..idx])|
  {
    hide Ends;
    if idx > 0 {
      EndsAt(chunks, 0, idx - 1);
    }
  }

  /** The index an upload of `chunks` produces: cumulative ends and content digests. */
  function IndexOf(chunks: seq<seq<byte>>, start: nat, sha256: seq<byte> -> Digest): (r: seq<IndexEntry>)
    requires start + |Flatten(chunks)| < U64_LIMIT
    ensures |r| == |chunks|
  {
    if chunks == [] then []
    else
      [IndexEntry(start + |chunks[0]|, sha256(chunks[0]))] + IndexOf(chunks[1..], start + |chunks[0]|, sha256)
  }

  lemma {:induction false} IndexOfParts(chunks: seq<seq<byte>>, start: nat, sha256: seq<byte> -> Digest)
    requires start + |Flatten(chunks)| < U64_LIMIT
    ensures var index := IndexOf(chunks, start, sha256);
      forall i :: 0 <= i < |chunks| ==> index[i].end == Ends(chunks, start)[i] && index[i].digest == sha256(chunks[i])
    decreases |chunks|
  {
    if chunks != [] {
      IndexOfParts(chunks[1..], start + |chunks[0]|, sha256);
    }
  }

  /** Content-addressed storage: what is stored under a digest has that digest. */
  predicate ContentAddressed(store: map<Digest, seq<byte>>, sha256: seq<byte> -> Digest) {
    forall d <- store :: sha256(store[d]) == d
  }

  /** No chunk of the archive shares its digest with different stored content. */
  predicate NoCollision(store: map<Digest, seq<byte>>, chunks: seq<seq<byte>>, sha256: seq<byte> -> Digest) {
    forall d <- store :: forall c <- chunks :: sha256(store[d]) == sha256(c) ==> store[d] == c
  }

  /** `entries` locate and name `chunks` as far as `store` can serve them. */
  ghost predicate Describes(entries: seq<IndexEntry>, chunks: seq<seq<byte>>, store: map<Digest, seq<byte>>) {
    && |entries| == |chunks|
    && (forall i :: 0 <= i < |chunks| ==> entries[i].end == Ends(chunks, 0)[i])
    && (forall i :: 0 <= i < |chunks| && entries[i].digest in store ==> store[entries[i].digest] == chunks[i])
  }

  /** The index of an upload, laid out and parsed back, describes the uploaded chunks. */
  lemma UploadedIndexDescribes(header: seq<byte>, chunks: seq<seq<byte>>, store: map<Digest, seq<byte>>, sha256: seq<byte> -> Digest)
    requires |header| == DYNAMIC_INDEX_HEADER_SIZE
    requires |Flatten(chunks)| < U64_LIMIT
    requires ContentAddressed(store, sha256) && NoCollision(store, chunks, sha256)
    ensures var file := header + EntriesLayout(IndexOf(chunks, 0, sha256));
      && (|file| - DYNAMIC_INDEX_HEADER_SIZE) % DYNAMIC_INDEX_ENTRY_SIZE == 0
      && Describes(ReadEntries(file[DYNAMIC_INDEX_HEADER_SIZE..]), chunks, store)
  {
    hide Flatten, Ends, IndexOf, EntriesLayout, ReadEntries;
    var index := IndexOf(chunks, 0, sha256);
    var file := header + EntriesLayout(index);
    assert file[DYNAMIC_INDEX_HEADER_SIZE..] == EntriesLayout(index);
    ReadEntriesOfLayout(index);
    IndexOfParts(chunks, 0, sha256);
  }
}
