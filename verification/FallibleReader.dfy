/**
 A reader that reports a clean end of stream only once the producer has said
 that it succeeded. One read polls the pipe and then, separately, the signal;
 the producer may do anything in between.
 */
module FallibleReading {
  import opened Bytes

  /** The one-shot channel from producer to reader: `None` is success, `Some` a failure message. */
  datatype Signal = Unsent | Sent(failure: Option<string>) | Lost

  datatype Outcome = Waiting | Succeeded | Failed(message: string)

  /** What the wrapped reader answers to one poll with room for data. */
  datatype Answer = Data(bytes: seq<byte>) | AtEnd | NotReady | Broken

  datatype Poll = Filled(bytes: seq<byte>) | CleanEnd | Error(message: string) | InnerError | Pending | NoRoom

  const DROPPED := "producer was dropped without completing the stream"

  /** The outcome as far as the channel has settled it. */
  function Settle(o: Outcome, signal: Signal): Outcome {
    if !o.Waiting? then o
    else match signal
      case Unsent => Waiting
      case Sent(None) => Succeeded
      case Sent(Some(message)) => Failed(message)
      case Lost => Failed(DROPPED)
  }

  /** An answer that brings neither data nor an error leaves the verdict to the signal. */
  predicate Undecided(answer: Answer) {
    answer.AtEnd? || answer.NotReady?
  }

  /** Whether the read is a clean end, once the signal has been looked at. */
  predicate Ends(o: Outcome, requireEof: bool, answer: Answer) {
    o.Succeeded? && Undecided(answer) && (requireEof ==> answer.AtEnd?)
  }

  class FallibleReader {
    var outcome: Outcome
    const requireEof: bool

    constructor (requireEof: bool)
      ensures outcome == Waiting && this.requireEof == requireEof
    {
      outcome := Waiting;
      this.requireEof := requireEof;
    }

    /** `answer` is what the pipe says when it is polled, `signal` what the channel holds when it is polled after that. */
    method Read(room: nat, answer: Answer, signal: Signal) returns (r: Poll)
      modifies this
      // the channel is consulted only without data, and an outcome once settled stays
      ensures outcome == if room > 0 && Undecided(answer) then Settle(old(outcome), signal) else old(outcome)
      ensures !old(outcome).Waiting? ==> outcome == old(outcome)
      // what the caller can conclude from each result
      ensures r.Filled? <==> room > 0 && answer.Data?
      ensures r.Filled? ==> r.bytes == answer.bytes
      ensures r.CleanEnd? <==> room > 0 && Ends(outcome, requireEof, answer)
      ensures r.Error? <==> room > 0 && Undecided(answer) && outcome.Failed?
      ensures r.Error? ==> r.message == outcome.message
      ensures r.InnerError? <==> room > 0 && answer.Broken?
      ensures r.NoRoom? <==> room == 0
    {
      if room == 0 {
        return NoRoom;
      }
      match answer {
        case Data(bytes) => return Filled(bytes);
        case Broken => return InnerError;
        case _ =>
      }
      if outcome.Waiting? {
        match signal {
          case Unsent => return Pending;
          case Sent(None) => outcome := Succeeded;
          case Sent(Some(message)) => outcome := Failed(message);
          case Lost => outcome := Failed(DROPPED);
        }
      }
      match outcome {
        case Failed(message) => r := Error(message);
        case Succeeded => r := if !requireEof || answer.AtEnd? then CleanEnd else Pending;
      }
    }
  }

  // ----- producer and reader together

  /**
   How the reader was made, and whether its pipe is prompt: not ready only while it
   is open and empty. A pipe that is not prompt may also keep the reader waiting for nothing.
   */
  datatype Mode = Mode(requireEof: bool, prompt: bool)

  const PLAIN := Mode(false, true)

  datatype State = State(
    written: seq<byte>,       // everything the producer has put into the pipe
    closed: bool,             // the producer's end of the pipe is gone
    signal: Signal,
    outcome: Outcome,
    answered: Option<Answer>, // a read under way has this answer from the pipe and has not polled the signal yet
    delivered: seq<byte>,     // everything the reader has handed on
    ended: bool)              // the reader has reported a clean end

  const START := State([], false, Unsent, Waiting, None, [], false)

  ghost predicate Write(s: State, t: State, data: seq<byte>) {
    !s.closed && t == s.(written := s.written + data)
  }

  ghost predicate ClosePipe(s: State, t: State) {
    t == s.(closed := true)
  }

  /** `succeed`, `fail`, dropping the signal, or losing the channel: the sender is used at most once. */
  ghost predicate Resolve(s: State, t: State, signal: Signal) {
    s.signal.Unsent? && !signal.Unsent? && t == s.(signal := signal)
  }

  /** A pipe hands on what was written, in order, and is at its end only when closed and empty. */
  ghost predicate Possible(mode: Mode, s: State, room: nat, answer: Answer) {
    match answer
    case Data(bytes) => 1 <= |bytes| <= room && s.delivered + bytes <= s.written
    case AtEnd => s.closed && s.delivered == s.written
    case NotReady => mode.prompt ==> !s.closed && s.delivered == s.written
    case Broken => true
  }

  /** The first half of a read. Data and errors end it; any other answer is kept for the second half. */
  ghost predicate PollPipe(mode: Mode, s: State, t: State, room: nat, answer: Answer) {
    && s.answered.None? && room > 0 && Possible(mode, s, room, answer)
    && t == if answer.Data? then s.(delivered := s.delivered + answer.bytes)
            else if answer.Broken? then s
            else s.(answered := Some(answer))
  }

  /** The second half. */
  ghost predicate PollSignal(mode: Mode, s: State, t: State) {
    && s.answered.Some?
    && var o := Settle(s.outcome, s.signal);
       t == s.(outcome := o, answered := None, ended := s.ended || Ends(o, mode.requireEof, s.answered.value))
  }

  ghost predicate ProducerStep(s: State, t: State) {
    || (exists data :: Write(s, t, data))
    || ClosePipe(s, t)
    || (exists signal :: Resolve(s, t, signal))
  }

  ghost predicate Next(mode: Mode, s: State, t: State) {
    || ProducerStep(s, t)
    || (exists room: nat, answer :: PollPipe(mode, s, t, room, answer))
    || PollSignal(mode, s, t)
  }

  ghost predicate FailureRecorded(s: State) {
    s.signal.Lost? || (s.signal.Sent? && s.signal.failure.Some?)
  }

  ghost predicate Drained(s: State) {
    s.closed && s.delivered == s.written
  }

  ghost predicate Inv(mode: Mode, s: State) {
    && s.delivered <= s.written
    && (s.outcome.Succeeded? ==> s.signal == Sent(None))
    && (s.outcome.Failed? ==> FailureRecorded(s))
    && (s.answered.Some? ==> Undecided(s.answered.value))
    && (s.answered == Some(AtEnd) ==> Drained(s))
    && (s.ended ==> s.signal == Sent(None))
    && (s.ended && mode.requireEof ==> Drained(s))
  }

  /** What one step leaves of the past: the signal and the end, once there, and the bytes written. */
  ghost predicate Onward(s: State, t: State) {
    && (!s.signal.Unsent? ==> t.signal == s.signal)
    && (s.ended ==> t.ended)
    && s.written <= t.written
  }

  lemma ProducerKeeps(mode: Mode, s: State, t: State)
    requires Inv(mode, s) && ProducerStep(s, t)
    ensures Inv(mode, t) && Onward(s, t)
  {
  }

  lemma PipeKeeps(mode: Mode, s: State, t: State, room: nat, answer: Answer)
    requires Inv(mode, s) && PollPipe(mode, s, t, room, answer)
    ensures Inv(mode, t) && Onward(s, t)
  {
  }

  lemma SignalKeeps(mode: Mode, s: State, t: State)
    requires Inv(mode, s) && PollSignal(mode, s, t)
    ensures Inv(mode, t) && Onward(s, t)
  {
  }

  lemma NextKeeps(mode: Mode, s: State, t: State)
    requires Inv(mode, s) && Next(mode, s, t)
    ensures Inv(mode, t) && Onward(s, t)
  {
    hide Inv, Onward, ProducerStep, PollPipe, PollSignal;
    if ProducerStep(s, t) {
      ProducerKeeps(mode, s, t);
    } else if PollSignal(mode, s, t) {
      SignalKeeps(mode, s, t);
    } else {
      var room: nat, answer :| PollPipe(mode, s, t, room, answer);
      PipeKeeps(mode, s, t, room, answer);
    }
  }

  /** A run from any state, and one from the start. */
  ghost predicate RunFrom(mode: Mode, s: State, trace: seq<State>) {
    && trace != [] && trace[0] == s
    && (forall i :: 0 < i < |trace| ==> Next(mode, trace[i - 1], trace[i]))
  }

  ghost predicate Run(mode: Mode, trace: seq<State>) {
    RunFrom(mode, START, trace)
  }

  lemma {:induction false} RunKeeps(mode: Mode, trace: seq<State>, i: nat, j: nat)
    requires trace != [] && RunFrom(mode, trace[0], trace) && Inv(mode, trace[0]) && i <= j < |trace|
    ensures Inv(mode, trace[j]) && Onward(trace[i], trace[j])
    decreases j
  {
    hide Next;
    if i < j {
      RunKeeps(mode, trace, i, j - 1);
      NextKeeps(mode, trace[j - 1], trace[j]);
    } else if 0 < j {
      RunKeeps(mode, trace, j - 1, j - 1);
      NextKeeps(mode, trace[j - 1], trace[j]);
    }
  }

  /**
   In both modes, under every interleaving, also with the two polls of a read: a clean end needs the
   producer's success, and none is ever reported in a run that records a failure, before or after.
   With `require_eof` a clean end also means that every byte ever written was delivered, in order.
   */
  lemma CompleteOrFailed(mode: Mode, trace: seq<State>, i: nat, j: nat)
    requires Run(mode, trace) && i < |trace| && j < |trace|
    ensures trace[i].ended ==> trace[i].signal == Sent(None)
    ensures FailureRecorded(trace[i]) ==> !trace[j].ended
    ensures trace[i].delivered <= trace[i].written
    ensures mode.requireEof && trace[i].ended && i <= j ==> trace[j].delivered == trace[j].written
  {
    hide Next;
    RunKeeps(mode, trace, i, i);
    RunKeeps(mode, trace, j, j);
    if i <= j {
      RunKeeps(mode, trace, i, j);
    } else {
      RunKeeps(mode, trace, j, i);
    }
  }

  // ----- without `require_eof`

  /**
   What has to hold when success is signalled: the pipe is closed, and no read that found
   it empty beforehand, and has yet to look at the signal, has missed anything.
   */
  ghost predicate Settled(s: State) {
    s.closed && (s.answered == Some(NotReady) ==> s.delivered == s.written)
  }

  ghost predicate PlainInv(s: State) {
    && Inv(PLAIN, s)
    && (s.signal == Sent(None) ==> Settled(s))
    && (s.ended ==> Drained(s))
  }

  /** From the moment of success on, being settled lasts, and a clean end is a complete one. */
  lemma PlainStep(s: State, t: State)
    requires PlainInv(s) && Next(PLAIN, s, t)
    requires s.signal.Unsent? && t.signal == Sent(None) ==> Settled(t)
    ensures PlainInv(t)
  {
    NextKeeps(PLAIN, s, t);
  }

  /** No byte is ever missing after a clean end, however the run goes on from `s`. */
  ghost predicate CompleteFrom(s: State) {
    forall trace: seq<State>, i {:trigger RunFrom(PLAIN, s, trace), trace[i]} ::
      RunFrom(PLAIN, s, trace) && 0 <= i < |trace| && trace[i].ended ==> trace[i].delivered == trace[i].written
  }

  lemma {:induction false} SettledStaysComplete(trace: seq<State>, i: nat)
    requires trace != [] && RunFrom(PLAIN, trace[0], trace) && i < |trace|
    requires PlainInv(trace[0]) && trace[0].signal == Sent(None)
    ensures PlainInv(trace[i]) && trace[i].signal == Sent(None)
  {
    hide Next, PlainInv;
    if i > 0 {
      SettledStaysComplete(trace, i - 1);
      Signalled(trace[i - 1], trace[i]);
      PlainStep(trace[i - 1], trace[i]);
    }
  }

  lemma Signalled(s: State, t: State)
    requires PlainInv(s) && s.signal == Sent(None) && Next(PLAIN, s, t)
    ensures t.signal == Sent(None)
  {
    NextKeeps(PLAIN, s, t);
  }

  /** The reader's part of a truncated stream: it ends while the pipe is, or was, empty and open. */
  lemma EndsEarly(s: State) returns (t: State)
    requires Inv(PLAIN, s) && s.signal == Sent(None) && s.answered == Some(NotReady)
    ensures Next(PLAIN, s, t) && t == s.(outcome := Succeeded, answered := None, ended := true)
  {
    t := s.(outcome := Succeeded, answered := None, ended := true);
    assert PollSignal(PLAIN, s, t);
  }

  /** An open pipe can be emptied and found not ready. */
  lemma FoundEmpty(s: State) returns (trace: seq<State>)
    requires Inv(PLAIN, s) && s.signal == Sent(None) && !s.closed && s.answered.None?
    ensures RunFrom(PLAIN, s, trace)
    ensures trace[|trace| - 1] == s.(delivered := s.written, answered := Some(NotReady))
  {
    var t := s.(delivered := s.written);
    var u := t.(answered := Some(NotReady));
    assert PollPipe(PLAIN, t, u, 1, NotReady) && Next(PLAIN, t, u);
    if s.delivered == s.written {
      trace := [s, u];
    } else {
      var rest := s.written[|s.delivered|..];
      assert s.delivered + rest == s.written;
      assert PollPipe(PLAIN, s, t, |rest|, Data(rest)) && Next(PLAIN, s, t);
      trace := [s, t, u];
    }
  }

  lemma RunOn(s: State, trace: seq<State>, t: State)
    requires RunFrom(PLAIN, s, trace) && Next(PLAIN, trace[|trace| - 1], t)
    ensures RunFrom(PLAIN, s, trace + [t])
  {
    hide Next;
  }

  lemma WritesOn(s: State) returns (t: State)
    requires Inv(PLAIN, s) && !s.closed
    ensures Next(PLAIN, s, t) && t == s.(written := s.written + [0])
  {
    t := s.(written := s.written + [0]);
    assert Write(s, t, [0]);
  }

  /** Success signalled in any other state may truncate the stream. */
  lemma UnsettledMayTruncate(s: State) returns (trace: seq<State>)
    requires Inv(PLAIN, s) && s.signal == Sent(None) && !Settled(s)
    ensures RunFrom(PLAIN, s, trace)
    ensures var last := trace[|trace| - 1]; last.ended && last.delivered != last.written
  {
    trace := [s];
    if s.answered.None? {
      trace := FoundEmpty(s);
    }
    hide Next;
    var u := trace[|trace| - 1];
    var t := EndsEarly(u);
    RunOn(s, trace, t);
    trace := trace + [t];
    if !s.closed {
      var w := WritesOn(t);
      RunOn(s, trace, w);
      trace := trace + [w];
    }
  }

  /**
   Plain mode, exactly: when the producer signals success, every clean end that
   can follow is complete if and only if the state is settled.
   */
  lemma PlainModeIsCompleteIff(s: State, t: State)
    requires Inv(PLAIN, s) && Resolve(s, t, Sent(None))
    ensures CompleteFrom(t) <==> Settled(t)
  {
    assert Next(PLAIN, s, t);
    NextKeeps(PLAIN, s, t);
    hide Next;
    if Settled(t) {
      forall trace: seq<State>, i | RunFrom(PLAIN, t, trace) && 0 <= i < |trace| && trace[i].ended
        ensures trace[i].delivered == trace[i].written
      {
        SettledStaysComplete(trace, i);
      }
    } else {
      var trace := UnsettledMayTruncate(t);
      assert RunFrom(PLAIN, t, trace) && trace[|trace| - 1].ended;
    }
  }

  /** The producer lets go of the pipe before it signals success. */
  ghost predicate ClosedFirst(s: State) {
    s.signal == Sent(None) ==> s.closed
  }

  /** Closing first is enough as long as nothing is written between the two polls of a read ... */
  lemma {:induction false} UndividedPollsAreComplete(trace: seq<State>, i: nat)
    requires Run(PLAIN, trace) && i < |trace|
    requires forall k :: 0 <= k < |trace| ==> ClosedFirst(trace[k])
    requires forall k :: 0 < k < |trace| && trace[k - 1].answered.Some? ==> trace[k].written == trace[k - 1].written
    ensures PlainInv(trace[i]) && (trace[i].answered.Some? ==> trace[i].delivered == trace[i].written)
  {
    if i > 0 {
      UndividedPollsAreComplete(trace, i - 1);
      var s, t := trace[i - 1], trace[i];
      StaysUndivided(s, t);
      hide Next;
      PlainStep(s, t);
    }
  }

  lemma StaysUndivided(s: State, t: State)
    requires PlainInv(s) && (s.answered.Some? ==> s.delivered == s.written)
    requires Next(PLAIN, s, t) && (s.answered.Some? ==> t.written == s.written)
    ensures t.answered.Some? ==> t.delivered == t.written
  {
  }

  /**
   ... and not otherwise: the pipe is found empty, the producer writes, closes and
   succeeds, and the read then ends the stream without the last bytes.
   */
  lemma ClosedFirstMayTruncate(data: seq<byte>) returns (trace: seq<State>)
    requires data != []
    ensures Run(PLAIN, trace) && forall s <- trace :: ClosedFirst(s)
    ensures var last := trace[|trace| - 1]; last.ended && last.closed && last.written == data && last.delivered == []
  {
    var found := START.(answered := Some(NotReady));
    var wrote := found.(written := data);
    var shut := wrote.(closed := true);
    var done := shut.(signal := Sent(None));
    var last := done.(outcome := Succeeded, answered := None, ended := true);
    assert Next(PLAIN, START, found) by { assert PollPipe(PLAIN, START, found, 1, NotReady); }
    assert Next(PLAIN, found, wrote) by { assert Write(found, wrote, data); }
    assert Next(PLAIN, wrote, shut) by { assert ClosePipe(wrote, shut); }
    assert Next(PLAIN, shut, done) by { assert Resolve(shut, done, Sent(None)); }
    assert Next(PLAIN, done, last) by { assert PollSignal(PLAIN, done, last); }
    hide Next;
    trace := [START, found, wrote, shut, done, last];
  }
}
