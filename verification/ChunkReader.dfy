/** Random access to an archive through its index, its chunk store and the chunk cache. */
module ChunkReading {
  import opened Bytes
  import opened DynamicIndex
  import opened ChunkCaching

  const CHUNK_CACHE_CAPACITY: nat := 32

  datatype ReadError = ChunkIndexOutOfRange | DownloadFailed | ChunkTooShort

  /** Every chunk the index names can be downloaded. */
  ghost predicate Complete(digests: seq<Digest>, store: map<Digest, seq<byte>>) {
    forall d <- digests :: d in store
  }

  /** Cached chunks are the archive's own. */
  ghost predicate Faithful(cached: map<nat, seq<byte>>, chunks: seq<seq<byte>>) {
    forall i <- cached :: i < |chunks| && cached[i] == chunks[i]
  }

  /** `copy_from_slice` into the front of a buffer. */
  method CopyFromSlice(buf: array<byte>, src: seq<byte>)
    requires |src| <= buf.Length
    modifies buf
    ensures buf[..] == src + old(buf[..])[|src|..]
  {
    for i := 0 to |src|
      invariant forall k :: 0 <= k < i ==> buf[k] == src[k]
      invariant forall k :: i <= k < buf.Length ==> buf[k] == old(buf[k])
    {
      buf[i] := src[i];
    }
  }

  class ChunkReader {
    /** The server's chunks, decoded; downloading and decoding are exact. */
    const store: map<Digest, seq<byte>>
    const ends: seq<nat>
    const digests: seq<Digest>
    const size: nat
    const cache: ChunkCache
    ghost const chunks: seq<seq<byte>>

    ghost predicate Indexed() {
      && ends == Ends(chunks, 0)
      && size == |Flatten(chunks)|
      && |digests| == |chunks|
      && (forall i :: 0 <= i < |chunks| && digests[i] in store ==> store[digests[i]] == chunks[i])
    }

    ghost predicate Valid()
      reads this, cache
    {
      Indexed() && cache.Valid() && Faithful(cache.entries, chunks)
    }

    constructor (store: map<Digest, seq<byte>>, entries: seq<IndexEntry>, ghost chunks: seq<seq<byte>>)
      requires Describes(entries, chunks, store)
      ensures Valid() && fresh(cache) && cache.entries == map[] && cache.uses == []
      ensures this.chunks == chunks && this.store == store && digests == Digests(entries)
    {
      hide Flatten, Ends;
      var lastEnd: nat := if |entries| == 0 then 0 else entries[|entries| - 1].end;
      var allEnds: seq<nat> := [];
      var allDigests: seq<Digest> := [];
      for i := 0 to |entries|
        invariant |allEnds| == |allDigests| == i
        invariant forall k :: 0 <= k < i ==> allEnds[k] == entries[k].end && allDigests[k] == entries[k].digest
      {
        allEnds := allEnds + [entries[i].end];
        allDigests := allDigests + [entries[i].digest];
      }
      SizeOf(entries, chunks, store);
      assert allEnds == Ends(chunks, 0);
      assert allDigests == Digests(entries);
      this.store := store;
      this.chunks := chunks;
      ends := allEnds;
      digests := allDigests;
      size := lastEnd;
      cache := new ChunkCache(CHUNK_CACHE_CAPACITY);
    }

    method FetchChunk(idx: nat) returns (r: Result<seq<byte>, ReadError>)
      requires Valid()
      modifies cache
      ensures Valid()
      ensures r.Ok? ==> idx < |chunks| && r.value == chunks[idx]
      ensures idx >= |chunks| ==> r == Err(ChunkIndexOutOfRange)
      ensures idx < |chunks| && digests[idx] in store ==> r.Ok?
      // a chunk that was delivered is cached, and counts as the latest use
      ensures r.Ok? ==> idx in cache.entries && cache.uses == old(cache.uses) + [idx]
      ensures r.Err? ==> cache.entries == old(cache.entries)
    {
      hide Flatten, Ends, Coherent;
      var cached := cache.Get(idx);
      if cached.Some? {
        return Ok(cached.value);
      }
      if idx >= |digests| {
        return Err(ChunkIndexOutOfRange);
      }
      if digests[idx] !in store {
        return Err(DownloadFailed);
      }
      var plaintext := store[digests[idx]];
      cache.Insert(idx, plaintext);
      r := Ok(plaintext);
    }

    /**
     One read: a prefix of what the stream holds from `offset` on, up to the end
     of the chunk there, and never empty while there is something left and room for it.
     */
    method ReadInto(buf: array<byte>, offset: nat) returns (r: Result<nat, ReadError>)
      requires Valid()
      modifies buf, cache
      ensures Valid()
      ensures buf.Length == 0 || offset >= size ==> r == Ok(0)
      ensures r.Ok? ==> r.value <= buf.Length && (r.value > 0 ==> offset + r.value <= |Flatten(chunks)|)
      ensures r.Ok? ==> buf[..] == (if r.value == 0 then [] else Flatten(chunks)[offset..offset + r.value]) + old(buf[..])[r.value..]
      // as much as fits of what the chunk holding `offset` has from there on
      ensures r.Ok? && buf.Length > 0 && offset < size ==>
        var idx := PartitionPoint(ends, offset);
        && idx < |ends| && offset < ends[idx]
        && r.value == if ends[idx] - offset < buf.Length then ends[idx] - offset else buf.Length
      ensures Complete(digests, store) ==> r.Ok?
    {
      hide Flatten, Ends, Coherent, Faithful;
      if buf.Length == 0 || offset >= size {
        return Ok(0);
      }
      var idx := PartitionPoint(ends, offset);
      Locate(chunks, offset);
      var chunkStart := ChunkStart(ends, idx);
      var fetched := FetchChunk(idx);
      if fetched.Err? {
        return Err(fetched.error);
      }
      var chunk := fetched.value;
      var within := offset - chunkStart;
      var available := if |chunk| < within then 0 else |chunk| - within;
      var len := if available < buf.Length then available else buf.Length;
      SliceOfSlice(Flatten(chunks), chunkStart, chunk, within, len);
      if within + len > |chunk| {
        return Err(ChunkTooShort);
      }
      var src := chunk[within..within + len];
      CopyFromSlice(buf, src);
      r := Ok(len);
    }
  }

  lemma SizeOf(entries: seq<IndexEntry>, chunks: seq<seq<byte>>, store: map<Digest, seq<byte>>)
    requires Describes(entries, chunks, store)
    ensures (if |entries| == 0 then 0 else entries[|entries| - 1].end) == |Flatten(chunks)|
  {
    if chunks != [] {
      LastEnd(chunks);
    }
  }

  lemma SliceOfSlice(s: seq<byte>, at: nat, part: seq<byte>, within: nat, len: nat)
    requires at + |part| <= |s| && s[at..at + |part|] == part && within + len <= |part|
    ensures part[within..within + len] == s[at + within..at + within + len]
  {
    assert forall i {:trigger part[i]} :: 0 <= i < |part| ==> part[i] == s[at..at + |part|][i] == s[at + i];
  }

  /** The ordered reassembly of a whole archive: download each chunk in turn and append it. */
  method Reassemble(store: map<Digest, seq<byte>>, entries: seq<IndexEntry>, ghost chunks: seq<seq<byte>>)
    returns (r: Result<seq<byte>, ReadError>, progress: nat)
    requires Describes(entries, chunks, store)
    ensures r.Ok? ==> r.value == Flatten(chunks) && progress == |r.value|
    ensures r.Ok? <==> Complete(Digests(entries), store)
  {
    hide Flatten, Ends;
    var digests := Digests(entries);
    var writer: seq<byte> := [];
    progress := 0;
    assert Flatten(chunks[..0]) == [] by { EmptyPrefix(chunks); }
    for i := 0 to |digests|
      invariant writer == Flatten(chunks[..i]) && progress == |writer|
      invariant forall k :: 0 <= k < i ==> digests[k] in store
    {
      if digests[i] !in store {
        return Err(DownloadFailed), progress;
      }
      var plaintext := store[digests[i]];
      FlattenAround(chunks, i);
      assert plaintext == chunks[i];
      progress := progress + |plaintext|;
      writer := writer + plaintext;
    }
    assert chunks[..|chunks|] == chunks;
    r := Ok(writer);
  }

  lemma EmptyPrefix(chunks: seq<seq<byte>>)
    ensures Flatten(chunks[..0]) == []
  {
  }
}
