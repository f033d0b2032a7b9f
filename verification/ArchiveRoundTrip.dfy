/** From an upload's request log to reading the archive back: what was closed can be read as it was streamed. */
module ArchiveRoundTrip {
  import opened Bytes
  import opened DynamicIndex
  import opened Uploading

  /** The chunk store after the uploads of a log. */
  function Stored(store: map<Digest, seq<byte>>, log: seq<Event>): map<Digest, seq<byte>> {
    if log == [] then store
    else
      var before := Stored(store, log[..|log| - 1]);
      var e := log[|log| - 1];
      if e.Uploaded? then before[e.digest := e.data] else before
  }

  /** The index the server writes from the registered digests, their start offsets and the closing size. */
  function ServerIndex(digests: seq<Digest>, starts: seq<nat>, size: nat): (r: seq<IndexEntry>)
    requires |digests| == |starts| && size < U64_LIMIT && forall i :: 0 <= i < |starts| ==> starts[i] < U64_LIMIT
    ensures |r| == |digests|
    ensures forall i :: 0 <= i < |r| ==>
      r[i] == IndexEntry(if i + 1 < |starts| then starts[i + 1] else size, digests[i])
  {
    seq(|digests|, i requires 0 <= i < |digests| =>
      IndexEntry(if i + 1 < |starts| then starts[i + 1] else size, digests[i]))
  }

  /** Uploads name their data by its digest. */
  ghost predicate Honest(log: seq<Event>, sha256: seq<byte> -> Digest) {
    forall e <- log :: e.Uploaded? ==> sha256(e.data) == e.digest
  }

  lemma {:induction false} HandledHonestly(job: Job, n: nat)
    requires n <= |job.chunks|
    ensures Honest(HandleAll(Messages(job, n)).log, job.sha256)
  {
    hide *;
    if n == 0 {
      NothingUploaded(job);
    } else {
      HandledHonestly(job, n - 1);
      HandledNext(job, n - 1);
      MessageHonest(job, n - 1);
      HandleHonest(HandleAll(Messages(job, n - 1)), MessageAt(job, n - 1), job.sha256);
    }
  }

  lemma NothingUploaded(job: Job)
    ensures Honest(HandleAll(Messages(job, 0)).log, job.sha256)
  {
  }

  lemma MessageHonest(job: Job, i: nat)
    requires i < |job.chunks|
    ensures var m := MessageAt(job, i); m.New? ==> job.sha256(m.data) == m.digest
  {
  }

  lemma HandleHonest(c: Consumer, m: Message, sha256: seq<byte> -> Digest)
    requires Honest(c.log, sha256) && (m.New? ==> sha256(m.data) == m.digest)
    ensures Honest(Handle(c, m).log, sha256)
  {
  }

  lemma {:induction false} StoredFacts(store: map<Digest, seq<byte>>, log: seq<Event>, sha256: seq<byte> -> Digest)
    requires ContentAddressed(store, sha256) && Honest(log, sha256)
    ensures ContentAddressed(Stored(store, log), sha256)
    ensures store.Keys <= Stored(store, log).Keys
  {
    if log != [] {
      assert log[|log| - 1] in log;
      StoredFacts(store, log[..|log| - 1], sha256);
    }
  }

  lemma {:induction false} UploadedIsStored(store: map<Digest, seq<byte>>, log: seq<Event>, i: nat, d: Digest)
    requires UploadedBefore(log, i, d)
    ensures d in Stored(store, log)
    decreases |log|
  {
    var n := |log| - 1;
    var j :| 0 <= j < i && j < |log| && log[j].Uploaded? && log[j].digest == d;
    if j < n {
      assert log[..n][j] == log[j];
      UploadedIsStored(store, log[..n], i, d);
    }
  }

  lemma {:induction false} StartsAt(job: Job, n: nat, i: nat)
    requires i < n <= |job.chunks|
    ensures var m := Messages(job, n);
      && |StartOffsets(m)| == |MessageDigests(m)| == n
      && StartOffsets(m)[i] == |Flatten(job.chunks[..i])|
      && MessageDigests(m)[i] == job.sha256(job.chunks[i])
    decreases n
  {
    hide *;
    MessagesStep(job, n - 1);
    MessageStep(Messages(job, n - 1), MessageAt(job, n - 1));
    MessageFacts(job, n - 1);
    Sizes(job, n - 1);
    Lengths(job, n - 1);
    if i < n - 1 {
      StartsAt(job, n - 1, i);
    }
  }

  lemma {:induction false} Lengths(job: Job, n: nat)
    requires n <= |job.chunks|
    ensures |StartOffsets(Messages(job, n))| == |MessageDigests(Messages(job, n))| == n
  {
    hide *;
    if n == 0 {
      NoMessages(job);
    } else {
      Lengths(job, n - 1);
      MessagesStep(job, n - 1);
      MessageStep(Messages(job, n - 1), MessageAt(job, n - 1));
    }
  }

  lemma NoMessages(job: Job)
    ensures |StartOffsets(Messages(job, 0))| == |MessageDigests(Messages(job, 0))| == 0
  {
  }

  lemma PrefixLength(chunks: seq<seq<byte>>, i: nat)
    requires i <= |chunks|
    ensures |Flatten(chunks[..i])| <= |Flatten(chunks)|
  {
    assert chunks == chunks[..i] + chunks[i..];
    FlattenAppend(chunks[..i], chunks[i..]);
  }

  /** The registered digests and offsets, and the size, say exactly what the index of the stream says. */
  lemma RegisteredIndex(job: Job)
    requires |Flatten(job.chunks)| < U64_LIMIT
    ensures var m := Messages(job, |job.chunks|);
      && |MessageDigests(m)| == |StartOffsets(m)| && (forall i :: 0 <= i < |StartOffsets(m)| ==> StartOffsets(m)[i] < U64_LIMIT)
      && ServerIndex(MessageDigests(m), StartOffsets(m), |Flatten(job.chunks)|) == IndexOf(job.chunks, 0, job.sha256)
  {
    hide Messages, MessageDigests, StartOffsets, Flatten, IndexOf, Ends, ServerIndex;
    var n := |job.chunks|;
    var m := Messages(job, n);
    Lengths(job, n);
    IndexOfParts(job.chunks, 0, job.sha256);
    forall i | 0 <= i < n
      ensures StartOffsets(m)[i] == |Flatten(job.chunks[..i])| < U64_LIMIT && MessageDigests(m)[i] == job.sha256(job.chunks[i])
    {
      StartsAt(job, n, i);
      PrefixLength(job.chunks, i);
    }
    var index, expected := ServerIndex(MessageDigests(m), StartOffsets(m), |Flatten(job.chunks)|), IndexOf(job.chunks, 0, job.sha256);
    forall i | 0 <= i < n
      ensures index[i] == expected[i]
    {
      EndsAt(job.chunks, 0, i);
      assert expected[i].end == |Flatten(job.chunks[..i + 1])|;
      assert i + 1 == n ==> job.chunks[..i + 1] == job.chunks;
      assert index[i].digest == expected[i].digest;
    }
  }

  /** Every digest the job's index names is in the store once the whole job is covered. */
  lemma AllAvailable(job: Job, log: seq<Event>, store: map<Digest, seq<byte>>)
    requires Covered(log, job, |job.chunks|) && job.known <= store.Keys
    requires ContentAddressed(store, job.sha256) && Honest(log, job.sha256)
    ensures forall i :: 0 <= i < |job.chunks| ==> job.sha256(job.chunks[i]) in Stored(store, log)
  {
    hide UploadedBefore, Stored;
    StoredFacts(store, log, job.sha256);
    forall i | 0 <= i < |job.chunks|
      ensures job.sha256(job.chunks[i]) in Stored(store, log)
    {
      var d := job.sha256(job.chunks[i]);
      if d !in job.known {
        UploadedIsStored(store, log, |log|, d);
      }
    }
  }

  /**
   Whenever a run has posted its close, the index the server lays out from the requests, parsed back,
   describes the uploaded stream, and every chunk it names is in the store.
   */
  lemma ClosedUploadReadsBack(job: Job, trace: seq<State>, i: nat, store: map<Digest, seq<byte>>, header: seq<byte>)
    requires Run(job, trace) && i < |trace| && trace[i].closed
    requires ContentAddressed(store, job.sha256) && job.known <= store.Keys
    requires |header| == DYNAMIC_INDEX_HEADER_SIZE && |Flatten(job.chunks)| < U64_LIMIT
    requires NoCollision(Stored(store, trace[i].consumer.log), job.chunks, job.sha256)
    ensures var log := trace[i].consumer.log;
      && |RegisteredDigests(log)| == |RegisteredOffsets(log)|
      && (forall k :: 0 <= k < |RegisteredOffsets(log)| ==> RegisteredOffsets(log)[k] < U64_LIMIT)
      && var file := header + EntriesLayout(ServerIndex(RegisteredDigests(log), RegisteredOffsets(log), |Flatten(job.chunks)|));
         && (|file| - DYNAMIC_INDEX_HEADER_SIZE) % DYNAMIC_INDEX_ENTRY_SIZE == 0
         && Describes(ReadEntries(file[DYNAMIC_INDEX_HEADER_SIZE..]), job.chunks, Stored(store, log))
         && (forall e <- ReadEntries(file[DYNAMIC_INDEX_HEADER_SIZE..]) :: e.digest in Stored(store, log))
  {
    var s := trace[i];
    var log := s.consumer.log;
    RunKeeps(job, trace, i);
    ClosedLog(job, s);
    hide *;
    StoredFacts(store, log, job.sha256);
    RegisteredIndex(job);
    UploadedIndexDescribes(header, job.chunks, Stored(store, log), job.sha256);
    AllAvailable(job, log, store);
    NamedDigests(header, job.chunks, job.sha256, Stored(store, log));
  }

  lemma ClosedLog(job: Job, s: State)
    requires Inv(job, s) && s.closed
    ensures var log := s.consumer.log;
      && RegisteredDigests(log) == MessageDigests(Messages(job, |job.chunks|))
      && RegisteredOffsets(log) == StartOffsets(Messages(job, |job.chunks|))
      && Covered(log, job, |job.chunks|) && Honest(log, job.sha256)
  {
    var n := |job.chunks|;
    var c := Finish(HandleAll(Messages(job, n)));
    var e := Closed(n, TotalSize(Messages(job, n)));
    FinishedConsistently(job);
    HandledHonestly(job, n);
    assert Honest(c.log, job.sha256) by { hide HandleAll, Messages; }
    hide HandleAll, Messages, Finish, LogSafe, Accounted, Available, Covered, RegisteredDigests, RegisteredOffsets, MessageDigests, StartOffsets, TotalSize;
    LogStep(c.log, e);
    CoveredGrows(c.log, e, job, n);
    assert RegisteredDigests(c.log) + [] == RegisteredDigests(c.log);
    assert RegisteredOffsets(c.log) + [] == RegisteredOffsets(c.log);
  }

  lemma NamedDigests(header: seq<byte>, chunks: seq<seq<byte>>, sha256: seq<byte> -> Digest, store: map<Digest, seq<byte>>)
    requires |header| == DYNAMIC_INDEX_HEADER_SIZE && |Flatten(chunks)| < U64_LIMIT
    requires forall i :: 0 <= i < |chunks| ==> sha256(chunks[i]) in store
    ensures var file := header + EntriesLayout(IndexOf(chunks, 0, sha256));
      && (|file| - DYNAMIC_INDEX_HEADER_SIZE) % DYNAMIC_INDEX_ENTRY_SIZE == 0
      && forall e <- ReadEntries(file[DYNAMIC_INDEX_HEADER_SIZE..]) :: e.digest in store
  {
    hide Flatten, Ends, IndexOf, EntriesLayout, ReadEntries;
    var index := IndexOf(chunks, 0, sha256);
    var file := header + EntriesLayout(index);
    assert file[DYNAMIC_INDEX_HEADER_SIZE..] == EntriesLayout(index);
    ReadEntriesOfLayout(index);
    IndexOfParts(chunks, 0, sha256);
  }
}
