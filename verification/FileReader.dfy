/**
 The polled reader over a window of an archive. A read that is under way keeps
 the size it was started with, whatever buffer the caller brings to later polls.
 */
module FileReading {
  import opened Bytes
  import opened DynamicIndex
  import opened ChunkReading

  /** The future a reader holds on to: a read under way, or one that has failed and not been let go. */
  datatype Fetch = InFlight(at: nat, want: nat) | Spent

  datatype Reader = Reader(offset: nat, remaining: nat, pending: Option<Fetch>)

  /** What a poll of that future comes to. */
  datatype Progress = Running | Finished | Broke(error: ReadError)

  /** What the caller gets; the last two are panics: data that does not fit, and a poll after a failure. */
  datatype Polled = Ready(bytes: seq<byte>) | NotReady | Failed(error: ReadError) | Overflow | Resumed

  /** What a reader limited to `remaining` bytes from `offset` has to deliver. */
  function Window(stream: seq<byte>, offset: nat, remaining: nat): seq<byte> {
    if offset >= |stream| then []
    else if offset + remaining <= |stream| then stream[offset..offset + remaining]
    else stream[offset..]
  }

  /** How much one read of up to `want` bytes yields: what its chunk still has. */
  function ReadLength(ends: seq<nat>, at: nat, want: nat): (n: nat)
    ensures n <= want
  {
    var idx := PartitionPoint(ends, at);
    if idx >= |ends| || ends[idx] < at then 0
    else if ends[idx] - at < want then ends[idx] - at else want
  }

  /** A read under way starts at the reader's offset and stays within what remains. */
  predicate Sound(s: Reader) {
    s.pending.Some? && s.pending.value.InFlight? ==>
      s.pending.value.at == s.offset && 1 <= s.pending.value.want <= s.remaining
  }

  /** The size of the read a poll works on. */
  function Wanted(s: Reader, room: nat): nat {
    if s.pending.Some? && s.pending.value.InFlight? then s.pending.value.want
    else if room < s.remaining then room else s.remaining
  }

  /** One poll. */
  function Poll(stream: seq<byte>, ends: seq<nat>, s: Reader, room: nat, progress: Progress): (Reader, Polled)
    requires Sound(s)
  {
    if s.pending == Some(Spent) then (s, Resumed)
    else if s.pending.None? && (s.remaining == 0 || room == 0) then (s, Ready([]))
    else
      match progress
      case Running => (s.(pending := Some(InFlight(s.offset, Wanted(s, room)))), NotReady)
      case Broke(e) => (s.(pending := Some(Spent)), Failed(e))
      case Finished =>
        var n := ReadLength(ends, s.offset, Wanted(s, room));
        (Reader(s.offset + n, s.remaining - n, None),
         if n > room then Overflow else Ready(Window(stream, s.offset, n)))
  }

  // ----- the reader

  class PbsFileReader {
    const contents: ChunkReader
    var offset: nat
    var remaining: nat
    var pending: Option<Fetch>

    ghost function State(): Reader
      reads this
    {
      Reader(offset, remaining, pending)
    }

    constructor (contents: ChunkReader, offset: nat, remaining: nat)
      ensures this.contents == contents && State() == Reader(offset, remaining, None)
    {
      this.contents := contents;
      this.offset := offset;
      this.remaining := remaining;
      this.pending := None;
    }

    /** The body of the future: a buffer of the wanted size, filled and cut to what was read. */
    method Fetched(at: nat, want: nat) returns (r: Result<seq<byte>, ReadError>)
      requires contents.Valid()
      modifies contents.cache
      ensures contents.Valid()
      ensures r.Ok? ==> r.value == Window(Flatten(contents.chunks), at, ReadLength(contents.ends, at, want))
      ensures r.Ok? ==> |r.value| == ReadLength(contents.ends, at, want)
      ensures Complete(contents.digests, contents.store) ==> r.Ok?
    {
      hide Flatten, Window, Ends, PartitionPoint;
      var chunk := new byte[want];
      ghost var before := chunk[..];
      var read := contents.ReadInto(chunk, at);
      if read.Err? {
        return Err(read.error);
      }
      ReadLengthFits(contents.chunks, at, want);
      ReadIs(contents.chunks, at, chunk[..], before, read.value);
      r := Ok(chunk[..read.value]);
    }

    /** `ready` says whether the read under way can be completed at this poll. */
    method PollRead(room: nat, ready: bool) returns (r: Polled, ghost progress: Progress)
      requires contents.Valid() && Sound(State())
      modifies this, contents.cache
      ensures contents.Valid() && Sound(State())
      ensures (State(), r) == Poll(Flatten(contents.chunks), contents.ends, old(State()), room, progress)
      ensures progress.Running? <==> !ready
      ensures ready && Complete(contents.digests, contents.store) ==> progress.Finished?
    {
      hide Flatten, Window, Ends, PartitionPoint, ReadLength;
      progress := if ready then Finished else Running;
      while true
        invariant contents.Valid() && Sound(State())
        invariant progress == if ready then Finished else Running
        invariant State() == old(State()) || (old(pending).None? && old(remaining) > 0 && room > 0
          && State() == old(State()).(pending := Some(InFlight(old(offset), Wanted(old(State()), room)))))
        decreases pending.None?
      {
        if pending.Some? {
          if pending.value.Spent? {
            return Resumed, progress;
          }
          if !ready {
            return NotReady, progress;
          }
          var data := Fetched(pending.value.at, pending.value.want);
          if data.Err? {
            pending := Some(Spent);
            progress := Broke(data.error);
            return Failed(data.error), progress;
          }
          pending := None;
          offset := offset + |data.value|;
          remaining := remaining - |data.value|;
          return if |data.value| > room then Overflow else Ready(data.value), progress;
        }
        if remaining == 0 || room == 0 {
          return Ready([]), progress;
        }
        var want := if room < remaining then room else remaining;
        pending := Some(InFlight(offset, want));
      }
    }

    /** A blocking read: the same buffer is polled until the read is through, after any number of waits. */
    method Read(room: nat, waits: nat) returns (r: Polled)
      requires contents.Valid() && pending.None?
      modifies this, contents.cache
      ensures contents.Valid()
      ensures r.Ready? || r.Failed?
      ensures r.Ready? ==>
        var before := Window(Flatten(contents.chunks), old(offset), old(remaining));
        && |r.bytes| <= room && pending.None?
        && before == r.bytes + Window(Flatten(contents.chunks), offset, remaining)
        && (r.bytes == [] <==> room == 0 || before == [])
        && offset == old(offset) + |r.bytes| && remaining == old(remaining) - |r.bytes|
      ensures Complete(contents.digests, contents.store) ==> r.Ready?
    {
      hide Flatten, Window, PartitionPoint, ReadLength, Poll, Ends;
      ghost var stream := Flatten(contents.chunks);
      ghost var progress: Progress;
      WindowEmpty(stream, offset, remaining);
      Delivers(contents.chunks, offset, remaining, Wanted(State(), room));
      var i := 0;
      while i < waits
        invariant contents.Valid() && Sound(State()) && UnderWay(old(State()), State(), room)
      {
        BlockingPoll(stream, contents.ends, old(State()), State(), room, Running);
        r, progress := PollRead(room, false);
        if !r.NotReady? {
          return;
        }
        i := i + 1;
      }
      ghost var s := State();
      r, progress := PollRead(room, true);
      BlockingPoll(stream, contents.ends, old(State()), s, room, progress);
    }

    /** Reading until nothing comes delivers exactly the window, whatever the buffers and waits. */
    method ReadToEnd(room: nat -> nat, waits: nat -> nat) returns (r: Result<seq<byte>, ReadError>)
      requires contents.Valid() && pending.None? && forall k :: room(k) > 0
      modifies this, contents.cache
      ensures contents.Valid()
      ensures r.Ok? ==> r.value == Window(Flatten(contents.chunks), old(offset), old(remaining))
      ensures Complete(contents.digests, contents.store) ==> r.Ok?
    {
      hide Flatten, Window;
      var out: seq<byte> := [];
      var k := 0;
      ghost var whole := Window(Flatten(contents.chunks), offset, remaining);
      while true
        invariant contents.Valid() && pending.None?
        invariant whole == out + Window(Flatten(contents.chunks), offset, remaining)
        decreases remaining
      {
        var part := Read(room(k), waits(k));
        if part.Failed? {
          return Err(part.error);
        }
        if part.bytes == [] {
          return Ok(out);
        }
        Associative(out, part.bytes, Window(Flatten(contents.chunks), offset, remaining));
        out := out + part.bytes;
        k := k + 1;
      }
    }
  }

  /** The state while a read that began in `s` with this much room has not got anywhere yet. */
  ghost predicate UnderWay(s: Reader, t: Reader, room: nat) {
    || t == s
    || (room > 0 && s.remaining > 0 && t == s.(pending := Some(InFlight(s.offset, Wanted(s, room)))))
  }

  /** A poll with the room that the read began with. */
  lemma BlockingPoll(stream: seq<byte>, ends: seq<nat>, s: Reader, t: Reader, room: nat, progress: Progress)
    requires s.pending.None? && Sound(t) && UnderWay(s, t, room)
    ensures var (u, r) := Poll(stream, ends, t, room, progress);
      if s.remaining == 0 || room == 0 then u == s && r == Ready([])
      else match progress
        case Running => r.NotReady? && UnderWay(s, u, room)
        case Broke(e) => r == Failed(e)
        case Finished =>
          var n := ReadLength(ends, s.offset, Wanted(s, room));
          n <= room && n <= s.remaining && u == Reader(s.offset + n, s.remaining - n, None) && r == Ready(Window(stream, s.offset, n))
    ensures Wanted(s, room) == 0 <==> s.remaining == 0 || room == 0
  {
    hide Window, PartitionPoint;
  }

  lemma WindowEmpty(stream: seq<byte>, offset: nat, remaining: nat)
    ensures Window(stream, offset, remaining) == [] <==> offset >= |stream| || remaining == 0
  {
  }

  lemma WindowSplit(stream: seq<byte>, offset: nat, remaining: nat, n: nat)
    requires n <= remaining && (n > 0 ==> offset + n <= |stream|)
    ensures Window(stream, offset, remaining) == Window(stream, offset, n) + Window(stream, offset + n, remaining - n)
    ensures |Window(stream, offset, n)| == n
  {
  }

  /** A read yields something exactly if there is something and it is wanted, and stays within the stream. */
  lemma ReadLengthFits(chunks: seq<seq<byte>>, at: nat, want: nat)
    ensures var n := ReadLength(Ends(chunks, 0), at, want);
      && (n > 0 ==> at + n <= |Flatten(chunks)|)
      && (n == 0 <==> want == 0 || at >= |Flatten(chunks)|)
  {
    hide Flatten, Ends, PartitionPoint;
    if at < |Flatten(chunks)| {
      Locate(chunks, at);
    } else {
      PastTheEnd(chunks, at);
    }
  }

  lemma PastTheEnd(chunks: seq<seq<byte>>, at: nat)
    requires at >= |Flatten(chunks)|
    ensures PartitionPoint(Ends(chunks, 0), at) >= |Ends(chunks, 0)|
  {
    hide Flatten, Ends, PartitionPoint;
    var idx := PartitionPoint(Ends(chunks, 0), at);
    if idx < |Ends(chunks, 0)| {
      EndsAt(chunks, 0, idx);
      FlattenAround(chunks, idx);
    }
  }

  /** What the buffer holds after a read is the part of the stream that the read's length says. */
  lemma ReadIs(chunks: seq<seq<byte>>, at: nat, buf: seq<byte>, before: seq<byte>, n: nat)
    requires n <= |before| && |buf| == |before|
    requires n > 0 ==> at + n <= |Flatten(chunks)|
    requires buf == (if n == 0 then [] else Flatten(chunks)[at..at + n]) + before[n..]
    ensures buf[..n] == Window(Flatten(chunks), at, n)
  {
  }

  lemma Delivers(chunks: seq<seq<byte>>, offset: nat, remaining: nat, want: nat)
    requires want <= remaining
    ensures var n := ReadLength(Ends(chunks, 0), offset, want);
      var stream := Flatten(chunks);
      && Window(stream, offset, remaining) == Window(stream, offset, n) + Window(stream, offset + n, remaining - n)
      && |Window(stream, offset, n)| == n
      && (n == 0 <==> want == 0 || offset >= |stream|)
  {
    hide *;
    ReadLengthFits(chunks, offset, want);
    WindowSplit(Flatten(chunks), offset, remaining, ReadLength(Ends(chunks, 0), offset, want));
  }

  /** A read yields all that was wanted, or what is left of its chunk, or of the stream. */
  lemma ReadLengthIs(ends: seq<nat>, at: nat, want: nat)
    ensures var n := ReadLength(ends, at, want);
      n == want || at + n in ends || forall end <- ends :: end <= at
  {
    var idx := PartitionPoint(ends, at);
    if idx < |ends| {
      assert ends[idx] in ends;
    }
  }

  /** A read that is started and completed by one poll asks for as much as there is room for and left to read. */
  lemma AsMuchAsFits(stream: seq<byte>, ends: seq<nat>, s: Reader, room: nat)
    requires s.pending.None? && s.remaining > 0 && room > 0
    ensures var want := if room < s.remaining then room else s.remaining;
      var n := ReadLength(ends, s.offset, want);
      Poll(stream, ends, s, room, Finished) == (Reader(s.offset + n, s.remaining - n, None), Ready(Window(stream, s.offset, n)))
  {
    hide PartitionPoint, Window;
  }

  // ----- any sequence of polls

  /** A poll as the caller and the transport make it. */
  datatype Turn = Turn(room: nat, progress: Progress)

  lemma PollKeeps(stream: seq<byte>, ends: seq<nat>, s: Reader, turn: Turn)
    requires Sound(s)
    ensures var t := Poll(stream, ends, s, turn.room, turn.progress).0;
      Sound(t) && t.offset + t.remaining == s.offset + s.remaining
  {
    hide PartitionPoint, ReadLength;
  }

  /** The state after a sequence of polls. */
  ghost function After(stream: seq<byte>, ends: seq<nat>, s: Reader, turns: seq<Turn>): (t: Reader)
    requires Sound(s)
    ensures Sound(t)
  {
    if turns == [] then s
    else
      var n := |turns| - 1;
      var t := After(stream, ends, s, turns[..n]);
      PollKeeps(stream, ends, t, turns[n]);
      Poll(stream, ends, t, turns[n].room, turns[n].progress).0
  }

  /** What its `k`-th poll returned. */
  ghost function Outcome(stream: seq<byte>, ends: seq<nat>, s: Reader, turns: seq<Turn>, k: nat): Polled
    requires Sound(s) && k < |turns|
  {
    Poll(stream, ends, After(stream, ends, s, turns[..k]), turns[k].room, turns[k].progress).1
  }

  /** The bytes handed to the caller. */
  ghost function Delivered(stream: seq<byte>, ends: seq<nat>, s: Reader, turns: seq<Turn>): seq<byte>
    requires Sound(s)
  {
    if turns == [] then []
    else
      var n := |turns| - 1;
      var r := Outcome(stream, ends, s, turns, n);
      Delivered(stream, ends, s, turns[..n]) + (if r.Ready? then r.bytes else [])
  }

  /** What is left of the window after the polls. */
  ghost function Left(chunks: seq<seq<byte>>, s: Reader): seq<byte> {
    Window(Flatten(chunks), s.offset, s.remaining)
  }

  lemma PollDelivers(chunks: seq<seq<byte>>, s: Reader, turn: Turn)
    requires Sound(s)
    ensures var (t, r) := Poll(Flatten(chunks), Ends(chunks, 0), s, turn.room, turn.progress);
      if r.Overflow? then |Left(chunks, t)| < |Left(chunks, s)|
      else Left(chunks, s) == (if r.Ready? then r.bytes else []) + Left(chunks, t)
  {
    hide Flatten, Ends, Window, ReadLength;
    Delivers(chunks, s.offset, s.remaining, if s.pending == Some(Spent) then 0 else Wanted(s, turn.room));
  }

  /** A delivery does not fit exactly if the read started earlier and yields more than there is room for now. */
  lemma OverflowIff(stream: seq<byte>, ends: seq<nat>, s: Reader, turn: Turn)
    requires Sound(s)
    ensures Poll(stream, ends, s, turn.room, turn.progress).1.Overflow?
        <==> turn.progress.Finished? && s.pending.Some? && s.pending.value.InFlight?
             && ReadLength(ends, s.offset, s.pending.value.want) > turn.room
  {
    hide PartitionPoint;
  }

  ghost predicate NoOverflow(stream: seq<byte>, ends: seq<nat>, s: Reader, turns: seq<Turn>)
    requires Sound(s)
  {
    forall k :: 0 <= k < |turns| ==> !Outcome(stream, ends, s, turns, k).Overflow?
  }

  lemma NoOverflowSnoc(stream: seq<byte>, ends: seq<nat>, s: Reader, turns: seq<Turn>)
    requires Sound(s) && turns != []
    ensures var n := |turns| - 1;
      NoOverflow(stream, ends, s, turns)
      <==> NoOverflow(stream, ends, s, turns[..n]) && !Outcome(stream, ends, s, turns, n).Overflow?
  {
    hide Poll, After;
    var n := |turns| - 1;
    forall k | 0 <= k < n
      ensures Outcome(stream, ends, s, turns[..n], k) == Outcome(stream, ends, s, turns, k)
    {
      assert turns[..n][..k] == turns[..k];
    }
  }

  /** Bytes handed over and bytes left, against what there was to deliver. */
  ghost predicate Accounted(chunks: seq<seq<byte>>, s: Reader, turns: seq<Turn>)
    requires Sound(s)
  {
    var stream, ends := Flatten(chunks), Ends(chunks, 0);
    var t := After(stream, ends, s, turns);
    var got := Delivered(stream, ends, s, turns);
    && t.offset + t.remaining == s.offset + s.remaining
    && (if NoOverflow(stream, ends, s, turns) then Left(chunks, s) == got + Left(chunks, t)
        else |got| + |Left(chunks, t)| < |Left(chunks, s)|)
  }

  lemma {:induction false} PollsAccounted(chunks: seq<seq<byte>>, s: Reader, turns: seq<Turn>)
    requires Sound(s)
    ensures Accounted(chunks, s, turns)
    decreases |turns|
  {
    if turns != [] {
      var stream, ends := Flatten(chunks), Ends(chunks, 0);
      var n := |turns| - 1;
      var t := After(stream, ends, s, turns[..n]);
      PollsAccounted(chunks, s, turns[..n]);
      NoOverflowSnoc(stream, ends, s, turns);
      PollKeeps(stream, ends, t, turns[n]);
      PollDelivers(chunks, t, turns[n]);
      hide Flatten, Ends, Poll, Left, NoOverflow;
      var u := After(stream, ends, s, turns);
      var r := Outcome(stream, ends, s, turns, n);
      Associative(Delivered(stream, ends, s, turns[..n]), if r.Ready? then r.bytes else [], Left(chunks, u));
    }
  }

  /**
   Over any sequence of polls, with any buffers: offset and remaining always add up, and what was
   handed over followed by what is left is the window, exactly if no delivery failed to fit.
   */
  lemma PollsConserveIff(chunks: seq<seq<byte>>, s: Reader, turns: seq<Turn>)
    requires Sound(s)
    ensures var stream, ends := Flatten(chunks), Ends(chunks, 0);
      var t := After(stream, ends, s, turns);
      && t.offset + t.remaining == s.offset + s.remaining
      && (Left(chunks, s) == Delivered(stream, ends, s, turns) + Left(chunks, t) <==> NoOverflow(stream, ends, s, turns))
  {
    hide Flatten, Ends, After, Delivered, Left, NoOverflow;
    PollsAccounted(chunks, s, turns);
  }

  /** As long as a read is under way, each poll brings at least as much room as the one before. */
  ghost predicate Steady(stream: seq<byte>, ends: seq<nat>, s: Reader, turns: seq<Turn>)
    requires Sound(s)
  {
    forall k :: 0 < k < |turns| && After(stream, ends, s, turns[..k]).pending.Some? ==> turns[k - 1].room <= turns[k].room
  }

  predicate Fits(s: Reader, room: nat) {
    s.pending.Some? && s.pending.value.InFlight? ==> s.pending.value.want <= room
  }

  lemma FittingPoll(stream: seq<byte>, ends: seq<nat>, s: Reader, turn: Turn)
    requires Sound(s) && Fits(s, turn.room)
    ensures var (t, r) := Poll(stream, ends, s, turn.room, turn.progress);
      Fits(t, turn.room) && !r.Overflow?
  {
    hide PartitionPoint;
  }

  lemma SteadyFront(stream: seq<byte>, ends: seq<nat>, s: Reader, turns: seq<Turn>, n: nat)
    requires Sound(s) && n <= |turns| && Steady(stream, ends, s, turns)
    ensures Steady(stream, ends, s, turns[..n])
  {
    hide After;
    assert forall k :: 0 <= k < n ==> turns[..n][..k] == turns[..k];
  }

  /** Buffers that do not shrink under a read always hold what it delivers. */
  lemma {:induction false} SteadyBuffersFit(stream: seq<byte>, ends: seq<nat>, s: Reader, turns: seq<Turn>)
    requires Sound(s) && s.pending.None? && Steady(stream, ends, s, turns)
    ensures NoOverflow(stream, ends, s, turns)
    ensures turns != [] ==> Fits(After(stream, ends, s, turns), turns[|turns| - 1].room)
    decreases |turns|
  {
    if turns != [] {
      var n := |turns| - 1;
      var t := After(stream, ends, s, turns[..n]);
      assert n > 0 && t.pending.Some? ==> turns[n - 1].room <= turns[n].room;
      SteadyFront(stream, ends, s, turns, n);
      SteadyBuffersFit(stream, ends, s, turns[..n]);
      NoOverflowSnoc(stream, ends, s, turns);
      hide Steady, NoOverflow, Poll;
      if n > 0 {
        assert turns[..n][n - 1] == turns[n - 1];
      }
      FittingPoll(stream, ends, t, turns[n]);
    }
  }

  /** And one that shrinks may not: started with a larger buffer, a read that yields more than the next one holds. */
  lemma ShrunkBufferOverflows(stream: seq<byte>, ends: seq<nat>, s: Reader, room: nat, smaller: nat)
    requires Sound(s) && s.pending.None? && s.remaining > 0
    requires smaller < ReadLength(ends, s.offset, Wanted(s, room))
    ensures var turns := [Turn(room, Running), Turn(smaller, Finished)];
      Outcome(stream, ends, s, turns, 0).NotReady? && Outcome(stream, ends, s, turns, 1).Overflow?
  {
    hide PartitionPoint, ReadLength;
    var turns := [Turn(room, Running), Turn(smaller, Finished)];
    assert turns[..0] == [] && turns[..1] == [turns[0]] && turns[..1][..0] == [];
    assert After(stream, ends, s, turns[..1]) == s.(pending := Some(InFlight(s.offset, Wanted(s, room))));
  }

  /** A failed read is not let go: whatever follows it is a panic. */
  lemma {:induction false} FailureIsFinal(stream: seq<byte>, ends: seq<nat>, s: Reader, turns: seq<Turn>, i: nat, j: nat)
    requires Sound(s) && i < j < |turns| && Outcome(stream, ends, s, turns, i).Failed?
    ensures Outcome(stream, ends, s, turns, j).Resumed?
    ensures After(stream, ends, s, turns[..j]).pending == Some(Spent)
    decreases j
  {
    hide ReadLength;
    assert turns[..j][..j - 1] == turns[..j - 1];
    if i + 1 < j {
      FailureIsFinal(stream, ends, s, turns, i, j - 1);
    }
  }
}
