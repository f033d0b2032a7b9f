/**
 The upload protocol: a producer that classifies chunks against the digests
 already known, a bounded in-order pipeline, and a consumer that uploads new
 chunks, registers all of them in batches and finally closes the index.
 */
module Uploading {
  import opened Bytes
  import opened DynamicIndex

  const INDEX_BATCH_SIZE: nat := 256
  const CHANNEL_CAPACITY: nat := 4

  type Chunk = seq<byte>

  datatype Message =
    | Known(digest: Digest, size: nat)
    | New(digest: Digest, data: Chunk)
  {
    function Size(): nat {
      if Known? then size else |data|
    }
  }

  /** The requests the server sees, in order. */
  datatype Event =
    | Uploaded(digest: Digest, data: Chunk)
    | Registered(digests: seq<Digest>, offsets: seq<nat>)
    | Closed(count: nat, size: nat)

  /** What is uploaded: the previous snapshot's digests, the chunks of the stream, and whether reading it fails at the end. */
  datatype Job = Job(known: set<Digest>, chunks: seq<Chunk>, failing: bool, sha256: seq<byte> -> Digest)

  // ----- the producer

  function Digested(job: Job, n: nat): (r: set<Digest>)
    requires n <= |job.chunks|
  {
    set i | 0 <= i < n :: job.sha256(job.chunks[i])
  }

  /** A chunk is new exactly when neither the previous snapshot nor an earlier chunk has its digest. */
  function MessageAt(job: Job, i: nat): Message
    requires i < |job.chunks|
  {
    var c := job.chunks[i];
    var d := job.sha256(c);
    if d in job.known + Digested(job, i) then Known(d, |c|) else New(d, c)
  }

  function Messages(job: Job, n: nat): (r: seq<Message>)
    requires n <= |job.chunks|
    ensures |r| == n
    ensures forall i :: 0 <= i < n ==> r[i] == MessageAt(job, i)
  {
    if n == 0 then [] else Messages(job, n - 1) + [MessageAt(job, n - 1)]
  }

  lemma DigestedStep(job: Job, n: nat)
    requires n < |job.chunks|
    ensures Digested(job, n + 1) == Digested(job, n) + {job.sha256(job.chunks[n])}
  {
  }

  /** Neither the previous snapshot nor an earlier chunk of the stream has the digest of chunk `i`. */
  ghost predicate Fresh(job: Job, i: nat)
    requires i < |job.chunks|
  {
    var d := job.sha256(job.chunks[i]);
    d !in job.known && forall j :: 0 <= j < i ==> job.sha256(job.chunks[j]) != d
  }

  /** A fresh chunk is sent with its data, any other only by digest and size. */
  lemma NewIffFresh(job: Job, i: nat)
    requires i < |job.chunks|
    ensures var c := job.chunks[i];
      MessageAt(job, i) == if Fresh(job, i) then New(job.sha256(c), c) else Known(job.sha256(c), |c|)
  {
  }

  /** The producer's classification, with its growing set of known digests. */
  method Produce(job: Job) returns (messages: seq<Message>)
    ensures messages == Messages(job, |job.chunks|)
    ensures |messages| == |job.chunks|
    ensures forall i :: 0 <= i < |messages| ==>
      var c := job.chunks[i];
      messages[i] == if Fresh(job, i) then New(job.sha256(c), c) else Known(job.sha256(c), |c|)
  {
    hide Fresh;
    var known := job.known;
    messages := [];
    for i := 0 to |job.chunks|
      invariant known == job.known + Digested(job, i)
      invariant messages == Messages(job, i)
      invariant forall k :: 0 <= k < i ==>
        var c := job.chunks[k];
        messages[k] == if Fresh(job, k) then New(job.sha256(c), c) else Known(job.sha256(c), |c|)
    {
      DigestedStep(job, i);
      NewIffFresh(job, i);
      var chunk := job.chunks[i];
      var digest := job.sha256(chunk);
      if digest in known {
        messages := messages + [Known(digest, |chunk|)];
      } else {
        known := known + {digest};
        messages := messages + [New(digest, chunk)];
      }
    }
  }

  // ----- the consumer

  datatype Entry = Entry(end: nat, digest: Digest)

  datatype Consumer = Consumer(
    entries: seq<Entry>,
    digestList: seq<Digest>,
    offsetList: seq<nat>,
    endOffset: nat,
    log: seq<Event>)

  const IDLE := Consumer([], [], [], 0, [])

  function Register(c: Consumer): Consumer {
    c.(digestList := [], offsetList := [], log := c.log + [Registered(c.digestList, c.offsetList)])
  }

  /** Entering a chunk in the index and the pending batch. */
  function Record(c: Consumer, digest: Digest, size: nat): Consumer {
    c.(entries := c.entries + [Entry(c.endOffset + size, digest)],
       digestList := c.digestList + [digest],
       offsetList := c.offsetList + [c.endOffset],
       endOffset := c.endOffset + size)
  }

  /** The part of handling a message that precedes any registration: a new chunk is uploaded first. */
  function Take(c: Consumer, m: Message): Consumer {
    Record(if m.New? then c.(log := c.log + [Uploaded(m.digest, m.data)]) else c, m.digest, m.Size())
  }

  function Handle(c: Consumer, m: Message): Consumer {
    var taken := Take(c, m);
    if |taken.digestList| >= INDEX_BATCH_SIZE then Register(taken) else taken
  }

  function HandleAll(messages: seq<Message>): Consumer {
    if messages == [] then IDLE
    else Handle(HandleAll(messages[..|messages| - 1]), messages[|messages| - 1])
  }

  function Finish(c: Consumer): Consumer {
    if c.digestList != [] then Register(c) else c
  }

  /** The consumer loop over an uninterrupted channel. */
  method Consume(messages: seq<Message>) returns (c: Consumer)
    ensures c == Finish(HandleAll(messages))
  {
    var entries: seq<Entry>, digestList: seq<Digest>, offsetList: seq<nat>, log: seq<Event> := [], [], [], [];
    var endOffset: nat := 0;
    for i := 0 to |messages|
      invariant Consumer(entries, digestList, offsetList, endOffset, log) == HandleAll(messages[..i])
    {
      assert messages[..i + 1][..i] == messages[..i];
      var startOffset := endOffset;
      var message := messages[i];
      if message.New? {
        log := log + [Uploaded(message.digest, message.data)];
      }
      endOffset := endOffset + message.Size();
      entries := entries + [Entry(endOffset, message.digest)];
      digestList := digestList + [message.digest];
      offsetList := offsetList + [startOffset];
      if |digestList| >= INDEX_BATCH_SIZE {
        log := log + [Registered(digestList, offsetList)];
        digestList, offsetList := [], [];
      }
    }
    assert messages[..|messages|] == messages;
    if digestList != [] {
      log := log + [Registered(digestList, offsetList)];
      digestList, offsetList := [], [];
    }
    c := Consumer(entries, digestList, offsetList, endOffset, log);
  }

  // ----- what the log promises

  function RegisteredDigests(log: seq<Event>): seq<Digest> {
    if log == [] then []
    else RegisteredDigests(log[..|log| - 1]) + (if log[|log| - 1].Registered? then log[|log| - 1].digests else [])
  }

  function RegisteredOffsets(log: seq<Event>): seq<nat> {
    if log == [] then []
    else RegisteredOffsets(log[..|log| - 1]) + (if log[|log| - 1].Registered? then log[|log| - 1].offsets else [])
  }

  function MessageDigests(messages: seq<Message>): seq<Digest> {
    seq(|messages|, i requires 0 <= i < |messages| => messages[i].digest)
  }

  function TotalSize(messages: seq<Message>): nat {
    if messages == [] then 0 else TotalSize(messages[..|messages| - 1]) + messages[|messages| - 1].Size()
  }

  function StartOffsets(messages: seq<Message>): seq<nat> {
    seq(|messages|, i requires 0 <= i < |messages| => TotalSize(messages[..i]))
  }

  ghost predicate UploadedBefore(log: seq<Event>, i: nat, d: Digest) {
    exists j :: 0 <= j < i && j < |log| && log[j].Uploaded? && log[j].digest == d
  }

  /** No batch names a digest the server could not have, and batches are of the allowed size. */
  ghost predicate LogSafe(log: seq<Event>, known: set<Digest>) {
    forall i :: 0 <= i < |log| && log[i].Registered? ==>
      && 1 <= |log[i].digests| == |log[i].offsets| <= INDEX_BATCH_SIZE
      && (forall d <- log[i].digests :: d in known || UploadedBefore(log, i, d))
  }

  ghost predicate NotClosed(log: seq<Event>) {
    forall e <- log :: !e.Closed?
  }

  /** What is pending or registered is exactly what has been handled. */
  ghost predicate Accounted(c: Consumer, messages: seq<Message>) {
    && RegisteredDigests(c.log) + c.digestList == MessageDigests(messages)
    && RegisteredOffsets(c.log) + c.offsetList == StartOffsets(messages)
    && |c.digestList| == |c.offsetList|
    && c.endOffset == TotalSize(messages)
    && |c.entries| == |messages|
  }

  ghost predicate Available(c: Consumer, known: set<Digest>) {
    forall d <- c.digestList :: d in known || UploadedBefore(c.log, |c.log|, d)
  }

  /** The server holds, or held before, every digest of the first `n` chunks. */
  ghost predicate Covered(log: seq<Event>, job: Job, n: nat)
    requires n <= |job.chunks|
  {
    forall i :: 0 <= i < n ==> job.sha256(job.chunks[i]) in job.known || UploadedBefore(log, |log|, job.sha256(job.chunks[i]))
  }

  lemma LogStep(log: seq<Event>, e: Event)
    ensures RegisteredDigests(log + [e]) == RegisteredDigests(log) + (if e.Registered? then e.digests else [])
    ensures RegisteredOffsets(log + [e]) == RegisteredOffsets(log) + (if e.Registered? then e.offsets else [])
  {
    assert (log + [e])[..|log|] == log;
  }

  lemma MessageStep(messages: seq<Message>, m: Message)
    ensures MessageDigests(messages + [m]) == MessageDigests(messages) + [m.digest]
    ensures StartOffsets(messages + [m]) == StartOffsets(messages) + [TotalSize(messages)]
    ensures TotalSize(messages + [m]) == TotalSize(messages) + m.Size()
    ensures HandleAll(messages + [m]) == Handle(HandleAll(messages), m)
  {
    var all := messages + [m];
    assert all[..|messages|] == messages;
    assert forall i :: 0 <= i < |messages| ==> all[..i] == messages[..i];
    assert StartOffsets(all) == StartOffsets(messages) + [TotalSize(messages)];
  }

  lemma UploadedGrows(log: seq<Event>, e: Event, i: nat, d: Digest)
    requires UploadedBefore(log, i, d)
    ensures UploadedBefore(log + [e], i, d) && UploadedBefore(log + [e], |log| + 1, d)
  {
    var j :| 0 <= j < i && j < |log| && log[j].Uploaded? && log[j].digest == d;
    assert (log + [e])[j] == log[j];
  }

  /** Appending an event keeps the log safe, provided the event is. */
  lemma SafeStep(log: seq<Event>, e: Event, known: set<Digest>)
    requires LogSafe(log, known)
    requires e.Registered? ==>
      && 1 <= |e.digests| == |e.offsets| <= INDEX_BATCH_SIZE
      && (forall d <- e.digests :: d in known || UploadedBefore(log, |log|, d))
    ensures LogSafe(log + [e], known)
  {
    var t := log + [e];
    forall i | 0 <= i < |t| && t[i].Registered?
      ensures 1 <= |t[i].digests| == |t[i].offsets| <= INDEX_BATCH_SIZE
      ensures forall d <- t[i].digests :: d in known || UploadedBefore(t, i, d)
    {
      assert i < |log| ==> t[i] == log[i];
      forall d | d in t[i].digests && d !in known
        ensures UploadedBefore(t, i, d)
      {
        UploadedGrows(log, e, i, d);
      }
    }
  }

  /** Everything the consumer maintains over the messages of a job. */
  ghost predicate Consistent(c: Consumer, job: Job, n: nat)
    requires n <= |job.chunks|
  {
    && LogSafe(c.log, job.known)
    && NotClosed(c.log)
    && Accounted(c, Messages(job, n))
    && Available(c, job.known)
    && Covered(c.log, job, n)
  }

  lemma CoveredGrows(log: seq<Event>, e: Event, job: Job, n: nat)
    requires n <= |job.chunks| && Covered(log, job, n)
    ensures Covered(log + [e], job, n)
  {
    forall i | 0 <= i < n && job.sha256(job.chunks[i]) !in job.known
      ensures UploadedBefore(log + [e], |log| + 1, job.sha256(job.chunks[i]))
    {
      UploadedGrows(log, e, |log|, job.sha256(job.chunks[i]));
    }
  }

  lemma AvailableGrows(c: Consumer, e: Event, known: set<Digest>)
    requires Available(c, known)
    ensures Available(c.(log := c.log + [e]), known)
  {
    forall d | d in c.digestList && d !in known
      ensures UploadedBefore(c.log + [e], |c.log| + 1, d)
    {
      UploadedGrows(c.log, e, |c.log|, d);
    }
  }

  /** Uploading a new chunk makes its digest available. */
  lemma UploadStep(c: Consumer, d: Digest, data: Chunk, job: Job, n: nat)
    requires n <= |job.chunks| && Consistent(c, job, n)
    ensures var log := c.log + [Uploaded(d, data)];
      Consistent(c.(log := log), job, n) && UploadedBefore(log, |log|, d)
  {
    hide Messages, UploadedBefore, LogSafe, Available, Covered, MessageDigests, StartOffsets, TotalSize, RegisteredDigests, RegisteredOffsets;
    var e := Uploaded(d, data);
    SafeStep(c.log, e, job.known);
    CoveredGrows(c.log, e, job, n);
    AvailableGrows(c, e, job.known);
    LogStep(c.log, e);
    assert RegisteredDigests(c.log) + [] == RegisteredDigests(c.log);
    assert RegisteredOffsets(c.log) + [] == RegisteredOffsets(c.log);
    JustUploaded(c.log, d, data);
  }

  lemma JustUploaded(log: seq<Event>, d: Digest, data: Chunk)
    ensures UploadedBefore(log + [Uploaded(d, data)], |log| + 1, d)
  {
    assert (log + [Uploaded(d, data)])[|log|] == Uploaded(d, data);
  }

  /** Entering the next chunk, once its digest is at the server, keeps the books. */
  lemma RecordKeeps(c: Consumer, job: Job, n: nat)
    requires n < |job.chunks| && Consistent(c, job, n)
    requires var d := job.sha256(job.chunks[n]); d in job.known || UploadedBefore(c.log, |c.log|, d)
    ensures var m := MessageAt(job, n); Consistent(Record(c, m.digest, m.Size()), job, n + 1)
  {
    hide UploadedBefore, LogSafe, NotClosed, Accounted, Covered, Available, Messages, MessageAt;
    var m := MessageAt(job, n);
    MessageFacts(job, n);
    MessagesStep(job, n);
    AccountedStep(c, m, Messages(job, n));
    AvailableStep(c, m.digest, m.Size(), job.known);
    CoveredStep(c.log, job, n);
  }

  lemma AccountedStep(c: Consumer, m: Message, messages: seq<Message>)
    requires Accounted(c, messages)
    ensures Accounted(Record(c, m.digest, m.Size()), messages + [m])
  {
    hide MessageDigests, StartOffsets, TotalSize, RegisteredDigests, RegisteredOffsets;
    MessageStep(messages, m);
    Associative(RegisteredDigests(c.log), c.digestList, [m.digest]);
    Associative(RegisteredOffsets(c.log), c.offsetList, [c.endOffset]);
  }

  lemma AvailableStep(c: Consumer, d: Digest, size: nat, known: set<Digest>)
    requires Available(c, known) && (d in known || UploadedBefore(c.log, |c.log|, d))
    ensures Available(Record(c, d, size), known)
  {
  }

  lemma CoveredStep(log: seq<Event>, job: Job, n: nat)
    requires n < |job.chunks| && Covered(log, job, n)
    requires var d := job.sha256(job.chunks[n]); d in job.known || UploadedBefore(log, |log|, d)
    ensures Covered(log, job, n + 1)
  {
  }

  /** Taking the next message of the job keeps the books. */
  lemma TakeKeeps(c: Consumer, job: Job, n: nat)
    requires n < |job.chunks| && Consistent(c, job, n)
    ensures Consistent(Take(c, MessageAt(job, n)), job, n + 1)
  {
    var m := MessageAt(job, n);
    assert m.digest == job.sha256(job.chunks[n]);
    if m.New? {
      hide *;
      UploadStep(c, m.digest, m.data, job, n);
      RecordKeeps(c.(log := c.log + [Uploaded(m.digest, m.data)]), job, n);
      TakeNew(c, m);
    } else {
      KnownIsCovered(c, job, n);
      hide *;
      RecordKeeps(c, job, n);
      TakeKnown(c, m);
    }
  }

  lemma TakeNew(c: Consumer, m: Message)
    requires m.New?
    ensures Take(c, m) == Record(c.(log := c.log + [Uploaded(m.digest, m.data)]), m.digest, m.Size())
  {
  }

  lemma TakeKnown(c: Consumer, m: Message)
    requires m.Known?
    ensures Take(c, m) == Record(c, m.digest, m.Size())
  {
  }

  /** A chunk sent as known was in the previous snapshot, or an earlier chunk with its digest was uploaded. */
  lemma KnownIsCovered(c: Consumer, job: Job, n: nat)
    requires n < |job.chunks| && Consistent(c, job, n) && MessageAt(job, n).Known?
    ensures var d := job.sha256(job.chunks[n]); d in job.known || UploadedBefore(c.log, |c.log|, d)
  {
    hide Messages, LogSafe, Accounted, Available, UploadedBefore;
  }

  /** Registering the pending batch keeps the books. */
  lemma RegisterKeeps(c: Consumer, job: Job, n: nat)
    requires n <= |job.chunks| && Consistent(c, job, n)
    requires 1 <= |c.digestList| <= INDEX_BATCH_SIZE
    ensures Consistent(Register(c), job, n)
  {
    hide Messages, UploadedBefore, LogSafe, Covered, MessageDigests, StartOffsets, TotalSize, RegisteredDigests, RegisteredOffsets;
    var e := Registered(c.digestList, c.offsetList);
    SafeStep(c.log, e, job.known);
    CoveredGrows(c.log, e, job, n);
    LogStep(c.log, e);
    assert RegisteredDigests(c.log) + c.digestList + [] == RegisteredDigests(c.log) + c.digestList;
    assert RegisteredOffsets(c.log) + c.offsetList + [] == RegisteredOffsets(c.log) + c.offsetList;
  }

  lemma NothingHandled(job: Job)
    ensures Consistent(HandleAll(Messages(job, 0)), job, 0)
    ensures |HandleAll(Messages(job, 0)).digestList| < INDEX_BATCH_SIZE
  {
  }

  lemma MessagesStep(job: Job, n: nat)
    requires n < |job.chunks|
    ensures Messages(job, n + 1) == Messages(job, n) + [MessageAt(job, n)]
  {
  }

  /** Handling one more message keeps the books, and leaves room in the batch. */
  lemma HandleKeeps(c: Consumer, job: Job, n: nat)
    requires n < |job.chunks| && Consistent(c, job, n) && |c.digestList| < INDEX_BATCH_SIZE
    ensures var next := Handle(c, MessageAt(job, n));
      Consistent(next, job, n + 1) && |next.digestList| < INDEX_BATCH_SIZE
  {
    hide Consistent, MessageAt;
    TakeKeeps(c, job, n);
    var taken := Take(c, MessageAt(job, n));
    if |taken.digestList| >= INDEX_BATCH_SIZE {
      RegisterKeeps(taken, job, n + 1);
    }
  }

  /** After any prefix of the job's messages the consumer's books are right and its batch is not full. */
  lemma {:induction false} HandledConsistently(job: Job, n: nat)
    requires n <= |job.chunks|
    ensures var c := HandleAll(Messages(job, n));
      Consistent(c, job, n) && |c.digestList| < INDEX_BATCH_SIZE
  {
    hide *;
    if n == 0 {
      NothingHandled(job);
    } else {
      HandledConsistently(job, n - 1);
      MessagesStep(job, n - 1);
      MessageStep(Messages(job, n - 1), MessageAt(job, n - 1));
      HandleKeeps(HandleAll(Messages(job, n - 1)), job, n - 1);
    }
  }

  /** Once all is handled and the last batch sent, the batches are exactly the chunks of the stream in order. */
  lemma FinishedConsistently(job: Job)
    ensures var n := |job.chunks|;
      var c := Finish(HandleAll(Messages(job, n)));
      && Consistent(c, job, n) && c.digestList == []
      && RegisteredDigests(c.log) == MessageDigests(Messages(job, n))
      && RegisteredOffsets(c.log) == StartOffsets(Messages(job, n))
  {
    var n := |job.chunks|;
    var c := HandleAll(Messages(job, n));
    HandledConsistently(job, n);
    if c.digestList != [] {
      RegisterKeeps(c, job, n);
    }
    hide LogSafe, Covered, Available, Messages, HandleAll, RegisteredDigests, RegisteredOffsets, MessageDigests, StartOffsets, TotalSize;
    var f := Finish(c);
    assert RegisteredDigests(f.log) + [] == RegisteredDigests(f.log);
    assert RegisteredOffsets(f.log) + [] == RegisteredOffsets(f.log);
  }

  // ----- the whole protocol, step by step

  /** Something in the pipeline: a message, or an error from the reader or an encoder. */
  type Item = Option<Message>

  datatype Phase = Receiving | Completed | Aborted

  datatype State = State(
    taken: nat,            // chunks the producer has drawn from the stream
    sawError: bool,        // the stream's own error has been drawn
    known: set<Digest>,
    inFlight: seq<Item>,   // drawn, not yet sent; encoders run out of order, results leave in order
    producing: bool,
    channel: seq<Item>,
    delivered: nat,        // messages the consumer has handled
    consumer: Consumer,
    phase: Phase,
    closed: bool)

  ghost predicate Init(job: Job, s: State) {
    s == State(0, false, job.known, [], true, [], 0, IDLE, Receiving, false)
  }

  /** The producer draws a chunk and classifies it. */
  ghost predicate Draw(job: Job, s: State, t: State) {
    && s.producing && !s.sawError && s.taken < |job.chunks|
    && var c := job.chunks[s.taken];
       var d := job.sha256(c);
       t == s.(taken := s.taken + 1, known := s.known + {d},
               inFlight := s.inFlight + [Some(if d in s.known then Known(d, |c|) else New(d, c))])
  }

  /** The producer meets the stream's error after its last chunk. */
  ghost predicate DrawError(job: Job, s: State, t: State) {
    && s.producing && !s.sawError && s.taken == |job.chunks| && job.failing
    && t == s.(sawError := true, inFlight := s.inFlight + [None])
  }

  /** An encoder task dies. */
  ghost predicate EncoderFails(s: State, t: State, i: nat) {
    && i < |s.inFlight| && s.inFlight[i].Some? && s.inFlight[i].value.New?
    && t == s.(inFlight := s.inFlight[i := None])
  }

  /** The oldest item enters the channel; after an error the producer stops. */
  ghost predicate Send(s: State, t: State) {
    && s.producing && s.inFlight != [] && |s.channel| < CHANNEL_CAPACITY && s.phase.Receiving?
    && t == s.(inFlight := s.inFlight[1..], channel := s.channel + [s.inFlight[0]], producing := s.inFlight[0].Some?)
  }

  /** The stream is exhausted and everything was sent, or the receiver is gone. */
  ghost predicate Stop(job: Job, s: State, t: State) {
    && s.producing
    && (Exhausted(job, s) || s.phase.Aborted?)
    && t == s.(producing := false)
  }

  ghost predicate Receive(s: State, t: State) {
    && s.phase.Receiving? && s.channel != [] && s.channel[0].Some?
    && t == s.(channel := s.channel[1..], delivered := s.delivered + 1, consumer := Handle(s.consumer, s.channel[0].value))
  }

  /** The consumer gives up: on an error item, a failed upload or a failed registration. */
  ghost predicate Abort(s: State, t: State) {
    && s.phase.Receiving? && s.channel != []
    && var c := s.consumer;
       t == s.(channel := s.channel[1..], phase := Aborted)
       || (s.channel[0].Some? && t == s.(channel := s.channel[1..], phase := Aborted, consumer := Take(c, s.channel[0].value)))
  }

  /** The channel is closed and empty: the last batch is sent, or sending it fails. */
  ghost predicate Drain(s: State, t: State) {
    && s.phase.Receiving? && s.channel == [] && !s.producing
    && (t == s.(phase := Completed, consumer := Finish(s.consumer)) || t == s.(phase := Aborted))
  }

  ghost predicate Close(s: State, t: State) {
    && s.phase.Completed? && !s.producing && !s.closed
    && t == s.(closed := true,
               consumer := s.consumer.(log := s.consumer.log + [Closed(|s.consumer.entries|, s.consumer.endOffset)]))
  }

  ghost predicate Next(job: Job, s: State, t: State) {
    || Draw(job, s, t) || DrawError(job, s, t) || (exists i: nat :: EncoderFails(s, t, i))
    || Send(s, t) || Stop(job, s, t) || Receive(s, t) || Abort(s, t) || Drain(s, t) || Close(s, t)
  }

  /** An item of the pipeline is the message its chunk calls for, or an error; beyond the chunks, an error. */
  ghost predicate Fits(job: Job, item: Item, i: nat) {
    item.None? || (i < |job.chunks| && item == Some(MessageAt(job, i)))
  }

  /** The stream was read to its end without an error, and all of it has been sent. */
  ghost predicate Exhausted(job: Job, s: State) {
    s.inFlight == [] && s.taken == |job.chunks| && !job.failing
  }

  ghost predicate Pipeline(job: Job, s: State) {
    var items := s.channel + s.inFlight;
    && s.taken <= |job.chunks|
    && s.known == job.known + Digested(job, s.taken)
    && (s.sawError ==> job.failing && s.taken == |job.chunks|)
    && s.delivered + |items| == s.taken + (if s.sawError then 1 else 0)
    && (forall k :: 0 <= k < |items| ==> Fits(job, items[k], s.delivered + k))
    && (forall k :: 0 <= k < |s.channel| && s.channel[k].None? ==> k == |s.channel| - 1 && !s.producing)
    && (s.producing || Exhausted(job, s) || (s.channel != [] && s.channel[|s.channel| - 1].None?))
  }

  /** The consumer after `n` messages, or in the middle of handling the next one. */
  ghost predicate Handling(job: Job, c: Consumer, n: nat) {
    && n <= |job.chunks|
    && var done := HandleAll(Messages(job, n));
       c == done || (n < |job.chunks| && c == Take(done, MessageAt(job, n)))
  }

  /** What the server has been told comes from handling part of what the stream calls for. */
  ghost predicate Promise(job: Job, c: Consumer) {
    exists n: nat :: Handling(job, c, n)
  }

  lemma {:induction false} HandlingConsistently(job: Job, c: Consumer, n: nat) returns (m: nat)
    requires Handling(job, c, n)
    ensures m <= |job.chunks| && Consistent(c, job, m)
  {
    hide Consistent, HandleAll, Messages, MessageAt, Take;
    var done := HandleAll(Messages(job, n));
    HandledConsistently(job, n);
    if c == done {
      m := n;
    } else {
      TakeKeeps(done, job, n);
      m := n + 1;
    }
  }

  ghost predicate Inv(job: Job, s: State) {
    match s.phase
    case Receiving =>
      && !s.closed && Pipeline(job, s)
      && s.delivered <= |job.chunks| && s.consumer == HandleAll(Messages(job, s.delivered))
    case Aborted => !s.closed && Promise(job, s.consumer)
    case Completed =>
      && !job.failing && !s.producing && s.inFlight == [] && s.channel == []
      && var c := Finish(HandleAll(Messages(job, |job.chunks|)));
         s.consumer == if s.closed then c.(log := c.log + [Closed(|job.chunks|, TotalSize(Messages(job, |job.chunks|)))]) else c
  }

  lemma InitHolds(job: Job, s: State)
    requires Init(job, s)
    ensures Inv(job, s)
  {
  }

  lemma ProducerKeeps(job: Job, s: State, t: State)
    requires Pipeline(job, s)
    requires Draw(job, s, t) || DrawError(job, s, t) || (exists i: nat :: EncoderFails(s, t, i)) || (Stop(job, s, t) && !s.phase.Aborted?)
    ensures Pipeline(job, t)
  {
    if Draw(job, s, t) {
      DrawKeeps(job, s, t);
    } else if DrawError(job, s, t) {
      DrawErrorKeeps(job, s, t);
    } else if exists i: nat :: EncoderFails(s, t, i) {
      var i: nat :| EncoderFails(s, t, i);
      EncoderKeeps(job, s, t, i);
    } else {
      StopKeeps(job, s, t);
    }
  }

  lemma StopKeeps(job: Job, s: State, t: State)
    requires Pipeline(job, s) && Stop(job, s, t) && !s.phase.Aborted?
    ensures Pipeline(job, t)
  {
    hide MessageAt, Digested;
  }

  lemma DrawKeeps(job: Job, s: State, t: State)
    requires Pipeline(job, s) && Draw(job, s, t)
    ensures Pipeline(job, t)
  {
    DigestedStep(job, s.taken);
    DrawnMessage(job, s, t);
    hide Digested, MessageAt;
    assert t.channel + t.inFlight == (s.channel + s.inFlight) + [t.inFlight[|s.inFlight|]];
  }

  lemma DrawErrorKeeps(job: Job, s: State, t: State)
    requires Pipeline(job, s) && DrawError(job, s, t)
    ensures Pipeline(job, t)
  {
    hide MessageAt, Digested;
    assert t.channel + t.inFlight == (s.channel + s.inFlight) + [None];
  }

  lemma EncoderKeeps(job: Job, s: State, t: State, i: nat)
    requires Pipeline(job, s) && EncoderFails(s, t, i)
    ensures Pipeline(job, t)
  {
    hide MessageAt, Digested;
    assert t.channel + t.inFlight == (s.channel + s.inFlight)[|s.channel| + i := None];
  }

  lemma DrawnMessage(job: Job, s: State, t: State)
    requires Draw(job, s, t) && s.known == job.known + Digested(job, s.taken)
    ensures t.inFlight[|s.inFlight|] == Some(MessageAt(job, s.taken))
  {
  }

  lemma SendKeeps(job: Job, s: State, t: State)
    requires Pipeline(job, s) && Send(s, t)
    ensures Pipeline(job, t)
  {
    hide MessageAt, Digested;
    assert s.channel + s.inFlight == t.channel + t.inFlight;
  }

  lemma ReceiveKeeps(job: Job, s: State, t: State)
    requires Pipeline(job, s) && Receive(s, t)
    ensures Pipeline(job, t) && s.delivered < |job.chunks| && s.channel[0].value == MessageAt(job, s.delivered)
  {
    hide MessageAt, Digested;
    var items, next := s.channel + s.inFlight, t.channel + t.inFlight;
    assert next == items[1..];
    assert items[0] == s.channel[0];
    assert Fits(job, items[0], s.delivered);
    forall k | 0 <= k < |next|
      ensures Fits(job, next[k], t.delivered + k)
    {
      assert next[k] == items[k + 1];
      assert Fits(job, items[k + 1], s.delivered + (k + 1));
    }
  }

  /** An empty channel whose sender is gone means the stream was consumed whole and without error. */
  lemma DrainedAll(job: Job, s: State)
    requires Pipeline(job, s) && s.channel == [] && !s.producing
    ensures s.delivered == |job.chunks| && !job.failing && s.inFlight == []
  {
  }

  lemma AbortKeeps(job: Job, s: State, t: State)
    requires Inv(job, s) && Abort(s, t)
    ensures Inv(job, t)
  {
    hide Consistent, HandleAll, Messages, Take, MessageAt, Digested;
    if t.consumer != s.consumer {
      var m := s.channel[0];
      assert m == (s.channel + s.inFlight)[0];
      assert Fits(job, m, s.delivered + 0);
    }
    assert Handling(job, t.consumer, s.delivered);
  }

  lemma DrainKeeps(job: Job, s: State, t: State)
    requires Inv(job, s) && Drain(s, t)
    ensures Inv(job, t)
  {
    DrainedAll(job, s);
    hide Messages, HandleAll, Take, MessageAt, Digested;
    assert Handling(job, s.consumer, s.delivered);
  }

  lemma CloseKeeps(job: Job, s: State, t: State)
    requires Inv(job, s) && Close(s, t)
    ensures Inv(job, t)
  {
    FinishedConsistently(job);
    var c := Finish(HandleAll(Messages(job, |job.chunks|)));
    assert |c.entries| == |job.chunks| && c.endOffset == TotalSize(Messages(job, |job.chunks|)) by {
      hide LogSafe, Available, Covered, RegisteredDigests, RegisteredOffsets, MessageDigests, StartOffsets, HandleAll, TotalSize;
    }
    hide Finish, HandleAll, Messages, Consistent, TotalSize;
  }

  /** Every step of every interleaving keeps the invariant. */
  lemma {:induction false} NextKeeps(job: Job, s: State, t: State)
    requires Inv(job, s) && Next(job, s, t)
    ensures Inv(job, t)
  {
    hide Pipeline, Consistent, Messages, HandleAll, Finish, Handle;
    if Abort(s, t) {
      AbortKeeps(job, s, t);
    } else if Drain(s, t) {
      DrainKeeps(job, s, t);
    } else if Close(s, t) {
      CloseKeeps(job, s, t);
    } else if s.phase.Receiving? {
      if Send(s, t) {
        SendKeeps(job, s, t);
      } else if Receive(s, t) {
        ReceiveKeeps(job, s, t);
        HandledNext(job, s.delivered);
      } else {
        ProducerKeeps(job, s, t);
      }
    }
  }

  lemma HandledNext(job: Job, n: nat)
    requires n < |job.chunks|
    ensures HandleAll(Messages(job, n + 1)) == Handle(HandleAll(Messages(job, n)), MessageAt(job, n))
  {
    MessagesStep(job, n);
    MessageStep(Messages(job, n), MessageAt(job, n));
  }

  /** A run of the protocol: any interleaving of the two sides, with failures anywhere. */
  ghost predicate Run(job: Job, trace: seq<State>) {
    && trace != [] && Init(job, trace[0])
    && (forall i :: 0 < i < |trace| ==> Next(job, trace[i - 1], trace[i]))
  }

  lemma {:induction false} RunKeeps(job: Job, trace: seq<State>, i: nat)
    requires Run(job, trace) && i < |trace|
    ensures Inv(job, trace[i])
  {
    hide Inv, Next, Init;
    if i == 0 {
      InitHolds(job, trace[0]);
    } else {
      RunKeeps(job, trace, i - 1);
      NextKeeps(job, trace[i - 1], trace[i]);
    }
  }

  ghost predicate Prefix<T>(a: seq<T>, b: seq<T>) {
    |a| <= |b| && b[..|a|] == a
  }

  /** The server is never told of a chunk it cannot have, nor of chunks out of stream order. */
  ghost predicate Safe(job: Job, log: seq<Event>) {
    && LogSafe(log, job.known)
    && Prefix(RegisteredDigests(log), MessageDigests(Messages(job, |job.chunks|)))
    && Prefix(RegisteredOffsets(log), StartOffsets(Messages(job, |job.chunks|)))
  }

  lemma {:induction false} MessagePrefix(job: Job, n: nat, m: nat)
    requires n <= m <= |job.chunks|
    ensures Prefix(MessageDigests(Messages(job, n)), MessageDigests(Messages(job, m)))
    ensures Prefix(StartOffsets(Messages(job, n)), StartOffsets(Messages(job, m)))
    decreases m
  {
    hide *;
    PrefixRefl(MessageDigests(Messages(job, n)));
    PrefixRefl(StartOffsets(Messages(job, n)));
    if n < m {
      MessagePrefix(job, n, m - 1);
      MessagesStep(job, m - 1);
      var before := Messages(job, m - 1);
      MessageStep(before, MessageAt(job, m - 1));
      PrefixSnoc(MessageDigests(Messages(job, n)), MessageDigests(before), [MessageAt(job, m - 1).digest]);
      PrefixSnoc(StartOffsets(Messages(job, n)), StartOffsets(before), [TotalSize(before)]);
    }
  }

  lemma PrefixRefl<T>(a: seq<T>)
    ensures Prefix(a, a)
  {
  }

  lemma PrefixSnoc<T>(a: seq<T>, b: seq<T>, c: seq<T>)
    requires Prefix(a, b)
    ensures Prefix(a, b + c)
  {
  }

  lemma PrefixTrans<T>(a: seq<T>, b: seq<T>, c: seq<T>)
    requires Prefix(a + b, c)
    ensures Prefix(a, c)
  {
    assert a == c[..|a + b|][..|a|];
  }

  lemma ConsistentIsSafe(job: Job, c: Consumer, n: nat)
    requires n <= |job.chunks| && Consistent(c, job, n)
    ensures Safe(job, c.log)
  {
    hide Messages, LogSafe, Available, Covered, Prefix, MessageDigests, StartOffsets, RegisteredDigests, RegisteredOffsets, TotalSize;
    MessagePrefix(job, n, |job.chunks|);
    PrefixTrans(RegisteredDigests(c.log), c.digestList, MessageDigests(Messages(job, |job.chunks|)));
    PrefixTrans(RegisteredOffsets(c.log), c.offsetList, StartOffsets(Messages(job, |job.chunks|)));
  }

  /**
   In every reachable state of every run the log is safe. A close is posted
   only after the whole stream was read without error, all its chunks
   were registered in order, and with their number and total size.
   */
  lemma UploadSafety(job: Job, trace: seq<State>, i: nat)
    requires Run(job, trace) && i < |trace|
    ensures var log := trace[i].consumer.log;
      && Safe(job, log)
      && (!NotClosed(log) ==>
            && !job.failing
            && log[|log| - 1] == Closed(|job.chunks|, |Flatten(job.chunks)|) && NotClosed(log[..|log| - 1])
            && RegisteredDigests(log) == MessageDigests(Messages(job, |job.chunks|))
            && RegisteredOffsets(log) == StartOffsets(Messages(job, |job.chunks|)))
  {
    var s := trace[i];
    RunKeeps(job, trace, i);
    match s.phase {
      case Receiving =>
        HandledConsistently(job, s.delivered);
        hide *;
        UnfinishedIsSafe(job, s.consumer, s.delivered);
      case Aborted =>
        var n: nat :| Handling(job, s.consumer, n);
        hide *;
        var m := HandlingConsistently(job, s.consumer, n);
        UnfinishedIsSafe(job, s.consumer, m);
      case Completed =>
        FinishedConsistently(job);
        hide *;
        ClosedIsSafe(job);
    }
  }

  lemma UnfinishedIsSafe(job: Job, c: Consumer, n: nat)
    requires n <= |job.chunks| && Consistent(c, job, n)
    ensures Safe(job, c.log) && NotClosed(c.log)
  {
    hide *;
    ConsistentIsSafe(job, c, n);
    ConsistentNotClosed(c, job, n);
  }

  /** The log of a completed upload. */
  lemma ClosedIsSafe(job: Job)
    ensures var messages := Messages(job, |job.chunks|);
      var c := Finish(HandleAll(messages));
      var log := c.log + [Closed(|job.chunks|, TotalSize(messages))];
      && Safe(job, log)
      && log[|log| - 1] == Closed(|job.chunks|, |Flatten(job.chunks)|) && NotClosed(log[..|log| - 1])
      && RegisteredDigests(log) == MessageDigests(messages)
      && RegisteredOffsets(log) == StartOffsets(messages)
  {
    hide *;
    var n := |job.chunks|;
    var c := Finish(HandleAll(Messages(job, n)));
    var e := Closed(n, TotalSize(Messages(job, n)));
    FinishedConsistently(job);
    UnfinishedIsSafe(job, c, n);
    SafeClose(job, c.log, e);
    LogStep(c.log, e);
    Sizes(job, n);
    assert job.chunks[..n] == job.chunks;
    assert RegisteredDigests(c.log) + [] == RegisteredDigests(c.log);
    assert RegisteredOffsets(c.log) + [] == RegisteredOffsets(c.log);
    assert (c.log + [e])[..|c.log|] == c.log;
  }

  lemma ConsistentNotClosed(c: Consumer, job: Job, n: nat)
    requires n <= |job.chunks| && Consistent(c, job, n)
    ensures NotClosed(c.log)
  {
  }

  lemma SafeClose(job: Job, log: seq<Event>, e: Event)
    requires Safe(job, log) && e.Closed?
    ensures Safe(job, log + [e])
  {
    hide UploadedBefore, LogSafe, Messages, Prefix, RegisteredDigests, RegisteredOffsets;
    SafeStep(log, e, job.known);
    LogStep(log, e);
    assert RegisteredDigests(log) + [] == RegisteredDigests(log);
    assert RegisteredOffsets(log) + [] == RegisteredOffsets(log);
  }

  /** Offsets are positions in the stream. */
  lemma {:induction false} Sizes(job: Job, n: nat)
    requires n <= |job.chunks|
    ensures TotalSize(Messages(job, n)) == |Flatten(job.chunks[..n])|
  {
    if n > 0 {
      Sizes(job, n - 1);
      var m := MessageAt(job, n - 1);
      assert m.Size() == |job.chunks[n - 1]|;
      hide *;
      MessagesStep(job, n - 1);
      MessageStep(Messages(job, n - 1), m);
      FlattenAround(job.chunks, n - 1);
    }
  }

  lemma EntriesStep(job: Job, n: nat)
    requires n < |job.chunks|
    ensures HandleAll(Messages(job, n + 1)).entries
         == HandleAll(Messages(job, n)).entries + [Entry(|Flatten(job.chunks[..n + 1])|, job.sha256(job.chunks[n]))]
  {
    hide *;
    var c := HandleAll(Messages(job, n));
    HandledConsistently(job, n);
    Offset(c, job, n);
    Sizes(job, n);
    HandledNext(job, n);
    MessageFacts(job, n);
    HandleEntries(c, MessageAt(job, n));
    FlattenAround(job.chunks, n);
  }

  lemma MessageFacts(job: Job, n: nat)
    requires n < |job.chunks|
    ensures var m := MessageAt(job, n); m.digest == job.sha256(job.chunks[n]) && m.Size() == |job.chunks[n]|
  {
  }

  lemma HandleEntries(c: Consumer, m: Message)
    ensures Handle(c, m).entries == c.entries + [Entry(c.endOffset + m.Size(), m.digest)]
  {
  }

  lemma Offset(c: Consumer, job: Job, n: nat)
    requires n <= |job.chunks| && Consistent(c, job, n)
    ensures c.endOffset == TotalSize(Messages(job, n)) && |c.entries| == n
  {
    hide LogSafe, NotClosed, Available, Covered;
  }

  /** The index the consumer builds is the index of the stream that `DynamicIndex` lays out and reads back. */
  lemma {:induction false} EntriesAreIndex(job: Job, n: nat, i: nat)
    requires i < n <= |job.chunks|
    ensures var entries := HandleAll(Messages(job, n)).entries;
      |entries| == n && entries[i] == Entry(Ends(job.chunks, 0)[i], job.sha256(job.chunks[i]))
  {
    hide *;
    HandledConsistently(job, n);
    Offset(HandleAll(Messages(job, n)), job, n);
    EntriesStep(job, n - 1);
    if i < n - 1 {
      EntriesAreIndex(job, n - 1, i);
    } else {
      EndsAt(job.chunks, 0, n - 1);
    }
  }
}
