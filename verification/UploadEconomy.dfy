/** What an upload costs, and that it gets to its end: each chunk is sent once, batches are full, and nothing blocks for good. */
module UploadEconomy {
  import opened Bytes
  import opened DynamicIndex
  import opened Uploading

  // ----- each chunk once

  /** An upload in the log is of a chunk among the first `n`, under its digest, which the previous snapshot lacks. */
  ghost predicate Owed(e: Event, job: Job, n: nat)
    requires n <= |job.chunks|
  {
    e.Uploaded? ==> e.digest !in job.known && exists i :: 0 <= i < n && Sends(e, job, i)
  }

  ghost predicate Sends(e: Event, job: Job, i: nat)
    requires i < |job.chunks|
  {
    e.Uploaded? && e.data == job.chunks[i] && e.digest == job.sha256(job.chunks[i])
  }

  /** No digest is uploaded twice. */
  ghost predicate Once(log: seq<Event>) {
    forall j, k :: 0 <= j < k < |log| && log[j].Uploaded? && log[k].Uploaded? ==> log[j].digest != log[k].digest
  }

  /** Every batch up to here is a full one. */
  ghost predicate Full(log: seq<Event>) {
    forall e <- log :: e.Registered? ==> |e.digests| == INDEX_BATCH_SIZE
  }

  ghost predicate Sparing(log: seq<Event>, job: Job, n: nat)
    requires n <= |job.chunks|
  {
    Once(log) && Full(log) && forall e <- log :: Owed(e, job, n)
  }

  lemma OwedMore(e: Event, job: Job, n: nat)
    requires n < |job.chunks| && Owed(e, job, n)
    ensures Owed(e, job, n + 1)
  {
  }

  /** A fresh chunk's digest has not been uploaded before. */
  lemma FreshIsNew(log: seq<Event>, job: Job, n: nat, k: nat)
    requires n < |job.chunks| && Sparing(log, job, n) && Fresh(job, n) && k < |log| && log[k].Uploaded?
    ensures log[k].digest != job.sha256(job.chunks[n])
  {
    assert Owed(log[k], job, n);
  }

  /** The log with the upload of chunk `n` if it calls for one. */
  ghost function WithUpload(log: seq<Event>, job: Job, n: nat): seq<Event>
    requires n < |job.chunks|
  {
    if Fresh(job, n) then log + [Uploaded(job.sha256(job.chunks[n]), job.chunks[n])] else log
  }

  lemma UploadingSparing(log: seq<Event>, job: Job, n: nat)
    requires n < |job.chunks| && Sparing(log, job, n)
    ensures Sparing(WithUpload(log, job, n), job, n + 1)
  {
    var next := WithUpload(log, job, n);
    forall e | e in next
      ensures Owed(e, job, n + 1)
    {
      if e in log {
        OwedMore(e, job, n);
      } else {
        assert Sends(e, job, n);
      }
    }
    hide Owed;
    if Fresh(job, n) {
      forall k | 0 <= k < |log| && log[k].Uploaded?
        ensures log[k].digest != job.sha256(job.chunks[n])
      {
        FreshIsNew(log, job, n, k);
      }
    }
  }

  lemma TakeLog(c: Consumer, job: Job, n: nat)
    requires n < |job.chunks|
    ensures var t := Take(c, MessageAt(job, n));
      t.log == WithUpload(c.log, job, n) && |t.digestList| == |c.digestList| + 1
  {
    hide Fresh;
    NewIffFresh(job, n);
  }

  lemma RegisterSparing(log: seq<Event>, e: Event, job: Job, n: nat)
    requires n <= |job.chunks| && Sparing(log, job, n) && e.Registered? && |e.digests| == INDEX_BATCH_SIZE
    ensures Sparing(log + [e], job, n)
  {
    hide Owed;
    assert Owed(e, job, n) by { NotOwed(e, job, n); }
  }

  lemma NotOwed(e: Event, job: Job, n: nat)
    requires n <= |job.chunks| && !e.Uploaded?
    ensures Owed(e, job, n)
  {
  }

  lemma NothingSpent(job: Job)
    ensures Sparing(HandleAll(Messages(job, 0)).log, job, 0) && HandleAll(Messages(job, 0)).digestList == []
  {
  }

  lemma {:induction false} HandledSparingly(job: Job, n: nat)
    requires n <= |job.chunks|
    ensures var c := HandleAll(Messages(job, n));
      Sparing(c.log, job, n) && |c.digestList| < INDEX_BATCH_SIZE
  {
    hide Sparing, MessageAt, Messages, HandleAll, Take, WithUpload;
    if n == 0 {
      NothingSpent(job);
    } else {
      HandledSparingly(job, n - 1);
      HandledNext(job, n - 1);
      var c := HandleAll(Messages(job, n - 1));
      TakeLog(c, job, n - 1);
      UploadingSparing(c.log, job, n - 1);
      var taken := Take(c, MessageAt(job, n - 1));
      if |taken.digestList| >= INDEX_BATCH_SIZE {
        RegisterSparing(taken.log, Registered(taken.digestList, taken.offsetList), job, n);
      }
    }
  }

  /** Every batch that another one follows is a full one. */
  ghost predicate FullButLast(log: seq<Event>) {
    forall j, k :: 0 <= j < k < |log| && log[j].Registered? && log[k].Registered? ==> |log[j].digests| == INDEX_BATCH_SIZE
  }

  /** What the server is asked to take: nothing twice, nothing it had, and no more batches than needed. */
  ghost predicate Frugal(log: seq<Event>, job: Job) {
    && Once(log) && FullButLast(log)
    && forall e <- log :: Owed(e, job, |job.chunks|)
  }

  lemma {:induction false} OwedOfAll(e: Event, job: Job, n: nat)
    requires n <= |job.chunks| && Owed(e, job, n)
    ensures Owed(e, job, |job.chunks|)
    decreases |job.chunks| - n
  {
    if n < |job.chunks| {
      OwedMore(e, job, n);
      OwedOfAll(e, job, n + 1);
    }
  }

  lemma SparingIsFrugal(log: seq<Event>, job: Job, n: nat)
    requires n <= |job.chunks| && Sparing(log, job, n)
    ensures Frugal(log, job)
  {
    hide Owed;
    forall e | e in log
      ensures Owed(e, job, |job.chunks|)
    {
      OwedOfAll(e, job, n);
    }
    assert forall j :: 0 <= j < |log| ==> log[j] in log;
  }

  /** The last batch and the close cost no more. */
  lemma FrugalEnd(log: seq<Event>, e: Event, job: Job)
    requires Frugal(log, job) && !e.Uploaded? && (e.Registered? ==> Full(log))
    ensures Frugal(log + [e], job)
  {
    hide Owed;
    assert Owed(e, job, |job.chunks|) by { NotOwed(e, job, |job.chunks|); }
    assert forall j :: 0 <= j < |log| ==> log[j] in log;
  }

  lemma FinishedFrugally(job: Job)
    ensures var c := Finish(HandleAll(Messages(job, |job.chunks|)));
      Frugal(c.log, job) && forall count, size :: Frugal(c.log + [Closed(count, size)], job)
  {
    var n := |job.chunks|;
    var c := HandleAll(Messages(job, n));
    HandledSparingly(job, n);
    SparingIsFrugal(c.log, job, n);
    hide Frugal, Owed, Once, HandleAll, Messages;
    if c.digestList != [] {
      FrugalEnd(c.log, Registered(c.digestList, c.offsetList), job);
    }
    forall count, size
      ensures Frugal(Finish(c).log + [Closed(count, size)], job)
    {
      FrugalEnd(Finish(c).log, Closed(count, size), job);
    }
  }

  lemma HandlingFrugally(job: Job, c: Consumer, n: nat)
    requires Handling(job, c, n)
    ensures Frugal(c.log, job)
  {
    hide Sparing, Frugal, HandleAll, Messages, MessageAt, Take, WithUpload;
    var done := HandleAll(Messages(job, n));
    HandledSparingly(job, n);
    if c == done {
      SparingIsFrugal(c.log, job, n);
    } else {
      TakeLog(done, job, n);
      UploadingSparing(done.log, job, n);
      SparingIsFrugal(c.log, job, n + 1);
    }
  }

  /**
   In every reachable state of every run, failures included: no chunk is uploaded twice or
   although the server had it, and every batch but the last holds as many chunks as a batch can.
   */
  lemma UploadsAreFrugal(job: Job, trace: seq<State>, i: nat)
    requires Run(job, trace) && i < |trace|
    ensures Frugal(trace[i].consumer.log, job)
  {
    var s := trace[i];
    RunKeeps(job, trace, i);
    hide Frugal, Pipeline, HandleAll, Messages, Finish, Take, MessageAt;
    match s.phase {
      case Receiving =>
        assert Handling(job, s.consumer, s.delivered);
        HandlingFrugally(job, s.consumer, s.delivered);
      case Aborted =>
        var n: nat :| Handling(job, s.consumer, n);
        HandlingFrugally(job, s.consumer, n);
      case Completed => FinishedFrugally(job);
    }
  }

  lemma ChannelStep(job: Job, s: State, t: State)
    requires Next(job, s, t) && |s.channel| <= CHANNEL_CAPACITY
    ensures |t.channel| <= CHANNEL_CAPACITY
  {
    hide Handle, Take, Finish;
  }

  /** However far the producer is ahead, no more messages wait for the consumer than the channel holds. */
  lemma {:induction false} ChannelIsBounded(job: Job, trace: seq<State>, i: nat)
    requires Run(job, trace) && i < |trace|
    ensures |trace[i].channel| <= CHANNEL_CAPACITY
  {
    hide Next;
    if i > 0 {
      ChannelIsBounded(job, trace, i - 1);
      assert Next(job, trace[i - 1], trace[i]);
      ChannelStep(job, trace[i - 1], trace[i]);
    }
  }

  // ----- and to the end

  /** The steps of an upload in which nothing fails. */
  ghost predicate Smooth(job: Job, s: State, t: State) {
    || Draw(job, s, t) || Send(s, t) || Stop(job, s, t) || Receive(s, t) || Close(s, t)
    || (Drain(s, t) && t.phase.Completed?)
  }

  /** Nothing has failed so far. */
  ghost predicate Clean(job: Job, s: State) {
    && !s.phase.Aborted? && s.taken <= |job.chunks|
    && (forall item <- s.channel :: item.Some?)
    && (forall item <- s.inFlight :: item.Some?)
  }

  lemma StaysClean(job: Job, s: State, t: State)
    requires Clean(job, s) && Smooth(job, s, t)
    ensures Clean(job, t)
  {
    hide Handle, Finish;
    assert s.inFlight != [] ==> s.inFlight[0] in s.inFlight;
    assert forall item :: item in t.channel ==> item in s.channel || (s.inFlight != [] && item == s.inFlight[0]);
  }

  lemma SmoothIsNext(job: Job, s: State, t: State)
    requires Smooth(job, s, t)
    ensures Next(job, s, t)
  {
    hide Draw, Send, Stop, Receive, Close, Drain;
  }

  lemma SmoothKeeps(job: Job, s: State, t: State)
    requires Inv(job, s) && Clean(job, s) && Smooth(job, s, t)
    ensures Inv(job, t) && Clean(job, t)
  {
    hide *;
    SmoothIsNext(job, s, t);
    NextKeeps(job, s, t);
    StaysClean(job, s, t);
  }

  /** As long as it is not closed, an upload in which nothing fails can go on. */
  lemma NeverStuck(job: Job, s: State) returns (t: State)
    requires Inv(job, s) && Clean(job, s) && !s.closed && !job.failing
    ensures Smooth(job, s, t)
  {
    hide Fits, HandleAll, Messages, Handle, Finish, Digested;
    if s.phase.Completed? {
      t := s.(closed := true, consumer := s.consumer.(log := s.consumer.log + [Closed(|s.consumer.entries|, s.consumer.endOffset)]));
      assert Close(s, t);
    } else if s.channel != [] {
      assert s.channel[0] in s.channel && s.channel[|s.channel| - 1] in s.channel;
      t := s.(channel := s.channel[1..], delivered := s.delivered + 1, consumer := Handle(s.consumer, s.channel[0].value));
      assert Receive(s, t);
    } else if s.inFlight != [] {
      t := s.(inFlight := s.inFlight[1..], channel := s.channel + [s.inFlight[0]], producing := s.inFlight[0].Some?);
      assert Send(s, t);
    } else if s.taken < |job.chunks| {
      var c := job.chunks[s.taken];
      var d := job.sha256(c);
      t := s.(taken := s.taken + 1, known := s.known + {d},
              inFlight := s.inFlight + [Some(if d in s.known then Known(d, |c|) else New(d, c))]);
      assert Draw(job, s, t);
    } else if s.producing {
      t := s.(producing := false);
      assert Stop(job, s, t);
    } else {
      t := s.(phase := Completed, consumer := Finish(s.consumer));
      assert Drain(s, t);
    }
  }

  /** How many steps are left at most. */
  ghost function Left(job: Job, s: State): int {
    3 * (|job.chunks| - s.taken) + 2 * |s.inFlight| + |s.channel|
    + (if s.producing then 1 else 0) + (if s.phase.Receiving? then 1 else 0) + (if s.closed then 0 else 1)
  }

  lemma SmoothShrinks(job: Job, s: State, t: State)
    requires Smooth(job, s, t) && Inv(job, t) && Clean(job, s)
    ensures Left(job, t) < Left(job, s)
  {
    hide Inv, Handle, Finish;
    assert s.inFlight != [] ==> s.inFlight[0] in s.inFlight;
  }

  ghost predicate SmoothRun(job: Job, trace: seq<State>) {
    && trace != [] && Init(job, trace[0])
    && forall i :: 0 < i < |trace| ==> Smooth(job, trace[i - 1], trace[i])
  }

  lemma {:induction false} SmoothRunKeeps(job: Job, trace: seq<State>, i: nat)
    requires SmoothRun(job, trace) && i < |trace|
    ensures Inv(job, trace[i]) && Clean(job, trace[i]) && Left(job, trace[i]) + i <= 3 * |job.chunks| + 3
  {
    if i == 0 {
      InitHolds(job, trace[0]);
    } else {
      hide Inv, Clean, Smooth, Left;
      SmoothRunKeeps(job, trace, i - 1);
      SmoothKeeps(job, trace[i - 1], trace[i]);
      SmoothShrinks(job, trace[i - 1], trace[i]);
    }
  }

  /**
   An upload in which nothing fails comes to its end whatever the interleaving: its runs are no longer
   than three steps a chunk and three more, and one that cannot go on has posted the close.
   */
  lemma SmoothUploadsClose(job: Job, trace: seq<State>)
    requires SmoothRun(job, trace) && !job.failing
    ensures |trace| <= 3 * |job.chunks| + 4
    ensures var last := trace[|trace| - 1];
      (forall t :: !Smooth(job, last, t)) ==> last.closed
  {
    hide Inv, Smooth;
    var last := trace[|trace| - 1];
    SmoothRunKeeps(job, trace, |trace| - 1);
    if (forall t :: !Smooth(job, last, t)) && !last.closed {
      var t := NeverStuck(job, last);
    }
  }
}
