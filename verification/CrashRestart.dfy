/**
 Automatic restarts after a crash: the handling of a stopped process, as the
 steps of any number of status tasks over shared flags and the last recorded crash.
 Times are nanoseconds of a clock that does not go back.
 */
module CrashRestarts {
  import opened Bytes

  const SECOND: nat := 1_000_000_000

  /** The last recorded crash is less than `timeout` whole seconds ago. */
  predicate TooSoon(lastCrash: Option<nat>, now: nat, timeout: nat) {
    lastCrash.Some? && lastCrash.value <= now && (now - lastCrash.value) / SECOND < timeout
  }

  /** What is decided under the crash lock. */
  class CrashRecord {
    var lastCrash: Option<nat>

    constructor ()
      ensures lastCrash == None
    {
      lastCrash := None;
    }

    /** `now` is when the elapsed time is taken, `later` when a restart is recorded. */
    method Admit(now: nat, later: nat, timeout: nat) returns (restart: bool)
      requires now <= later && (lastCrash.Some? ==> lastCrash.value <= now)
      modifies this
      ensures restart <==> old(lastCrash).None? || now >= old(lastCrash).value + timeout * SECOND
      ensures lastCrash == if restart then Some(later) else old(lastCrash)
    {
      if lastCrash.Some? {
        ElapsedSeconds(lastCrash.value, now, timeout);
        if (now - lastCrash.value) / SECOND < timeout {
          return false;
        }
      }
      lastCrash := Some(later);
      restart := true;
    }
  }

  lemma ElapsedSeconds(last: nat, now: nat, timeout: nat)
    requires last <= now
    ensures (now - last) / SECOND < timeout <==> now < last + timeout * SECOND
  {
  }

  // ----- all status tasks together

  type Task = nat

  /** How far a task has come with the stop it is handling. */
  datatype Phase =
    | Unhandled          // saw that the crash is not handled yet
    | Crashed            // has marked it handled, on its way to the crash lock
    | Holding            // holds the lock
    | Allowed(at: nat)   // holds the lock, found at that time that a restart may go ahead
    | Restarting         // has recorded the restart and let go
    | Ended

  datatype Server = Server(
    restarting: bool,
    stopping: bool,
    destroying: bool,
    crashHandled: bool,
    lastCrash: Option<nat>,
    holder: Option<Task>,
    tasks: map<Task, Phase>,
    clock: nat,
    restarts: seq<nat>)   // when crash restarts were recorded

  ghost predicate Init(s: Server) {
    s.lastCrash.None? && s.holder.None? && s.tasks == map[] && s.restarts == []
  }

  ghost predicate Tick(s: Server, t: Server, now: nat) {
    s.clock <= now && t == s.(clock := now)
  }

  /** Starts, stops, restarts, container set-up and re-attachment change the flags at any time. */
  ghost predicate Interfere(s: Server, t: Server) {
    t == s.(restarting := t.restarting, stopping := t.stopping, destroying := t.destroying, crashHandled := t.crashHandled)
  }

  /** A task receives a stop. Only an unrequested one, with crash detection on, goes further. */
  ghost predicate Stopped(s: Server, t: Server, k: Task, enabled: bool) {
    && k !in s.tasks
    && t == if s.destroying then s.(tasks := s.tasks[k := Ended])
            else if s.restarting then s.(crashHandled := true, restarting := false, stopping := false, tasks := s.tasks[k := Ended])
            else if s.stopping then s.(crashHandled := true, stopping := false, tasks := s.tasks[k := Ended])
            else if enabled && !s.crashHandled then s.(tasks := s.tasks[k := Unhandled])
            else s.(tasks := s.tasks[k := Ended])
  }

  /** The crash is marked handled; a clean exit may end the matter there. */
  ghost predicate MarkHandled(s: Server, t: Server, k: Task, ignored: bool) {
    && k in s.tasks && s.tasks[k].Unhandled?
    && t == s.(crashHandled := true, tasks := s.tasks[k := if ignored then Ended else Crashed])
  }

  ghost predicate LockCrash(s: Server, t: Server, k: Task) {
    && k in s.tasks && s.tasks[k].Crashed? && s.holder.None?
    && t == s.(holder := Some(k), tasks := s.tasks[k := Holding])
  }

  ghost predicate Decide(s: Server, t: Server, k: Task, timeout: nat) {
    && k in s.tasks && s.tasks[k].Holding?
    && t == if TooSoon(s.lastCrash, s.clock, timeout) then s.(holder := None, tasks := s.tasks[k := Ended])
            else s.(tasks := s.tasks[k := Allowed(s.clock)])
  }

  ghost predicate RecordCrash(s: Server, t: Server, k: Task) {
    && k in s.tasks && s.tasks[k].Allowed?
    && t == s.(lastCrash := Some(s.clock), restarts := s.restarts + [s.clock], holder := None, tasks := s.tasks[k := Restarting])
  }

  ghost predicate TaskStep(s: Server, t: Server, k: Task, timeout: nat) {
    || (exists enabled :: Stopped(s, t, k, enabled))
    || (exists ignored :: MarkHandled(s, t, k, ignored))
    || LockCrash(s, t, k) || Decide(s, t, k, timeout) || RecordCrash(s, t, k)
  }

  ghost predicate Next(s: Server, t: Server, timeout: nat) {
    || (exists now :: Tick(s, t, now))
    || Interfere(s, t)
    || (exists k :: TaskStep(s, t, k, timeout))
  }

  ghost predicate Spaced(times: seq<nat>, gap: nat) {
    forall i :: 0 < i < |times| ==> times[i - 1] + gap <= times[i]
  }

  /** Only the holder of the crash lock can be about to record, and only if the wait is over. */
  ghost predicate TaskOk(s: Server, gap: nat, k: Task) {
    k in s.tasks ==>
      && (s.tasks[k].Holding? || s.tasks[k].Allowed? <==> s.holder == Some(k))
      && (s.tasks[k].Allowed? ==> s.tasks[k].at <= s.clock)
      && (s.tasks[k].Allowed? && s.lastCrash.Some? ==> s.lastCrash.value + gap <= s.tasks[k].at)
  }

  ghost predicate RecordOk(s: Server, gap: nat) {
    && Spaced(s.restarts, gap)
    && s.lastCrash == (if s.restarts == [] then None else Some(s.restarts[|s.restarts| - 1]))
    && (s.lastCrash.Some? ==> s.lastCrash.value <= s.clock)
    && (s.holder.Some? ==> s.holder.value in s.tasks)
  }

  ghost predicate Inv(s: Server, timeout: nat) {
    RecordOk(s, timeout * SECOND) && forall k: Task :: TaskOk(s, timeout * SECOND, k)
  }

  /** A decision to go ahead means the timeout has passed. */
  lemma NotTooSoon(s: Server, timeout: nat)
    requires s.lastCrash.Some? ==> s.lastCrash.value <= s.clock
    ensures !TooSoon(s.lastCrash, s.clock, timeout) ==>
      s.lastCrash.None? || s.lastCrash.value + timeout * SECOND <= s.clock
  {
    if s.lastCrash.Some? {
      ElapsedSeconds(s.lastCrash.value, s.clock, timeout);
    }
  }

  /** A holder of the crash lock goes ahead exactly if no restart is recorded or the timeout has passed, as `Admit` does. */
  lemma DecideIff(s: Server, t: Server, k: Task, timeout: nat)
    requires Inv(s, timeout) && Decide(s, t, k, timeout)
    ensures t.tasks[k] == (if s.lastCrash.None? || s.clock >= s.lastCrash.value + timeout * SECOND then Allowed(s.clock) else Ended)
    ensures t.tasks[k].Ended? ==> t.holder.None?
  {
    if s.lastCrash.Some? {
      ElapsedSeconds(s.lastCrash.value, s.clock, timeout);
    }
  }

  /** What a step of one task leaves for another task, or for itself. */
  ghost predicate Kept(s: Server, gap: nat, j: Task) {
    RecordOk(s, gap) && TaskOk(s, gap, j)
  }

  lemma StoppedKeeps(s: Server, t: Server, k: Task, enabled: bool, j: Task, gap: nat)
    requires Stopped(s, t, k, enabled) && Kept(s, gap, j)
    ensures Kept(t, gap, j)
  {
    hide Spaced;
  }

  lemma MarkHandledKeeps(s: Server, t: Server, k: Task, ignored: bool, j: Task, gap: nat)
    requires MarkHandled(s, t, k, ignored) && Kept(s, gap, k) && Kept(s, gap, j)
    ensures Kept(t, gap, j)
  {
    hide Spaced;
  }

  lemma LockCrashKeeps(s: Server, t: Server, k: Task, j: Task, gap: nat)
    requires LockCrash(s, t, k) && Kept(s, gap, j)
    ensures Kept(t, gap, j)
  {
    hide Spaced;
  }

  lemma DecideKeeps(s: Server, t: Server, k: Task, j: Task, timeout: nat, gap: nat)
    requires Decide(s, t, k, timeout) && Kept(s, gap, k) && Kept(s, gap, j)
    requires !TooSoon(s.lastCrash, s.clock, timeout) ==> s.lastCrash.None? || s.lastCrash.value + gap <= s.clock
    ensures Kept(t, gap, j)
  {
    hide Spaced, TooSoon;
  }

  lemma RecordCrashKeeps(s: Server, t: Server, k: Task, j: Task, gap: nat)
    requires RecordCrash(s, t, k) && Kept(s, gap, k) && Kept(s, gap, j)
    ensures Kept(t, gap, j)
  {
    SpacedSnoc(s.restarts, gap, s.clock);
    hide Spaced;
  }

  lemma TaskStepKeeps(s: Server, t: Server, k: Task, j: Task, timeout: nat, gap: nat)
    requires TaskStep(s, t, k, timeout) && Kept(s, gap, k) && Kept(s, gap, j)
    requires !TooSoon(s.lastCrash, s.clock, timeout) ==> s.lastCrash.None? || s.lastCrash.value + gap <= s.clock
    ensures Kept(t, gap, j)
  {
    hide Stopped, MarkHandled, LockCrash, Decide, RecordCrash, Kept, TooSoon;
    if enabled :| Stopped(s, t, k, enabled) {
      StoppedKeeps(s, t, k, enabled, j, gap);
    } else if ignored :| MarkHandled(s, t, k, ignored) {
      MarkHandledKeeps(s, t, k, ignored, j, gap);
    } else if LockCrash(s, t, k) {
      LockCrashKeeps(s, t, k, j, gap);
    } else if Decide(s, t, k, timeout) {
      DecideKeeps(s, t, k, j, timeout, gap);
    } else {
      RecordCrashKeeps(s, t, k, j, gap);
    }
  }

  lemma TickKeeps(s: Server, t: Server, now: nat, j: Task, gap: nat)
    requires Tick(s, t, now) && Kept(s, gap, j)
    ensures Kept(t, gap, j)
  {
    hide Spaced;
  }

  lemma InterfereKeeps(s: Server, t: Server, j: Task, gap: nat)
    requires Interfere(s, t) && Kept(s, gap, j)
    ensures Kept(t, gap, j)
  {
    hide Spaced;
  }

  lemma StepKeeps(s: Server, t: Server, timeout: nat, j: Task)
    requires Inv(s, timeout) && Next(s, t, timeout)
    ensures Kept(t, timeout * SECOND, j)
  {
    var gap := timeout * SECOND;
    assert Kept(s, gap, j);
    NotTooSoon(s, timeout);
    hide TaskStep, Tick, Interfere, TooSoon, RecordOk, TaskOk;
    if k :| TaskStep(s, t, k, timeout) {
      assert TaskOk(s, gap, k);
      TaskStepKeeps(s, t, k, j, timeout, gap);
    } else if now :| Tick(s, t, now) {
      TickKeeps(s, t, now, j, gap);
    } else {
      InterfereKeeps(s, t, j, gap);
    }
  }

  lemma NextKeeps(s: Server, t: Server, timeout: nat)
    requires Inv(s, timeout) && Next(s, t, timeout)
    ensures Inv(t, timeout)
  {
    hide Next, RecordOk, TaskOk;
    StepKeeps(s, t, timeout, 0);
    forall j: Task
      ensures TaskOk(t, timeout * SECOND, j)
    {
      StepKeeps(s, t, timeout, j);
    }
  }

  lemma SpacedSnoc(times: seq<nat>, gap: nat, time: nat)
    requires Spaced(times, gap) && (times != [] ==> times[|times| - 1] + gap <= time)
    ensures Spaced(times + [time], gap)
  {
  }

  ghost predicate Run(trace: seq<Server>, timeout: nat) {
    && trace != [] && Init(trace[0])
    && (forall i :: 0 < i < |trace| ==> Next(trace[i - 1], trace[i], timeout))
  }

  lemma {:induction false} RunKeeps(trace: seq<Server>, timeout: nat, i: nat)
    requires Run(trace, timeout) && i < |trace|
    ensures Inv(trace[i], timeout)
  {
    if i > 0 {
      hide Next, Inv;
      RunKeeps(trace, timeout, i - 1);
      NextKeeps(trace[i - 1], trace[i], timeout);
    }
  }

  /** A stop nobody asked for, with crash detection on, that no task has dealt with yet. */
  ghost predicate Unrequested(s: Server) {
    !s.destroying && !s.restarting && !s.stopping && !s.crashHandled
  }

  lemma StopHandling(s: Server, t: Server, k: Task, enabled: bool)
    requires Stopped(s, t, k, enabled)
    ensures t.tasks[k] == (if enabled && Unrequested(s) then Unhandled else Ended)
    // a stop that was asked for uses the request up, and is not a crash
    ensures !s.destroying && (s.restarting || s.stopping) ==> t.crashHandled && !t.restarting && !t.stopping
    ensures s.destroying || (enabled && Unrequested(s)) ==> t == s.(tasks := t.tasks)
  {
  }

  /** A task begins with a stop, and once it has ended it stays so. */
  ghost predicate Continues(s: Server, t: Server, k: Task) {
    k in t.tasks && !t.tasks[k].Ended? ==>
      if k in s.tasks then !s.tasks[k].Ended? else Stopped(s, t, k, true) && Unrequested(s)
  }

  lemma StopContinues(s: Server, t: Server, j: Task, enabled: bool, k: Task)
    requires Stopped(s, t, j, enabled)
    ensures Continues(s, t, k)
  {
  }

  lemma WorkContinues(s: Server, t: Server, j: Task, timeout: nat, k: Task)
    requires (exists ignored :: MarkHandled(s, t, j, ignored)) || LockCrash(s, t, j) || Decide(s, t, j, timeout) || RecordCrash(s, t, j)
    ensures Continues(s, t, k)
  {
    hide Stopped, TooSoon;
  }

  lemma NextContinues(s: Server, t: Server, k: Task, timeout: nat)
    requires Next(s, t, timeout)
    ensures Continues(s, t, k)
  {
    hide Stopped, MarkHandled, LockCrash, Decide, RecordCrash;
    if j, enabled :| Stopped(s, t, j, enabled) {
      StopContinues(s, t, j, enabled, k);
    } else if j :| TaskStep(s, t, j, timeout) {
      WorkContinues(s, t, j, timeout, k);
    }
  }

  /** Every restart after a crash goes back to a stop that was not asked for. */
  lemma {:induction false} RestartsFollowCrashes(trace: seq<Server>, timeout: nat, i: nat, k: Task) returns (j: nat)
    requires Run(trace, timeout) && i < |trace| && k in trace[i].tasks && !trace[i].tasks[k].Ended?
    ensures j < i && Unrequested(trace[j]) && Stopped(trace[j], trace[j + 1], k, true)
  {
    hide Next;
    if i == 0 {
      assert false;
    } else {
      assert Next(trace[i - 1], trace[i], timeout);
      NextContinues(trace[i - 1], trace[i], k, timeout);
      if k in trace[i - 1].tasks {
        j := RestartsFollowCrashes(trace, timeout, i - 1, k);
      } else {
        j := i - 1;
      }
    }
  }

  /** How many of `times` fall in the closed interval `lo..=hi`. */
  function CountIn(times: seq<nat>, lo: nat, hi: nat): nat {
    if times == [] then 0
    else
      var last := times[|times| - 1];
      CountIn(times[..|times| - 1], lo, hi) + (if lo <= last <= hi then 1 else 0)
  }

  lemma {:induction false} SpacedOrder(times: seq<nat>, gap: nat, i: nat)
    requires Spaced(times, gap) && i + 1 < |times|
    ensures times[i] + gap <= times[|times| - 1]
    decreases |times|
  {
    var n := |times| - 1;
    if i + 1 < n {
      assert forall k :: 0 <= k < n ==> times[..n][k] == times[k];
      SpacedOrder(times[..n], gap, i);
    }
  }

  lemma {:induction false} CountBelow(times: seq<nat>, lo: nat, hi: nat, top: nat)
    requires top <= hi && forall i :: 0 <= i < |times| ==> times[i] <= top
    ensures CountIn(times, lo, hi) == CountIn(times, lo, top)
  {
    if times != [] {
      CountBelow(times[..|times| - 1], lo, hi, top);
    }
  }

  lemma {:induction false} CountEmpty(times: seq<nat>, lo: nat, hi: nat)
    requires forall i :: 0 <= i < |times| ==> times[i] < lo
    ensures CountIn(times, lo, hi) == 0
  {
    if times != [] {
      CountEmpty(times[..|times| - 1], lo, hi);
    }
  }

  /** All but one of the times in an interval account for a gap of its length each. */
  lemma {:induction false} SpacedCount(times: seq<nat>, gap: nat, lo: nat, hi: nat)
    requires Spaced(times, gap) && lo <= hi
    ensures CountIn(times, lo, hi) >= 1 ==> (CountIn(times, lo, hi) - 1) * gap <= hi - lo
    decreases |times|
  {
    hide CountIn, Spaced;
    if times == [] {
      CountNone(lo, hi);
    } else {
      var n := |times| - 1;
      var front, last := times[..n], times[n];
      SpacedFront(times, gap);
      CountLast(times, lo, hi);
      if lo <= last <= hi {
        forall k | 0 <= k < n
          ensures front[k] + gap <= last
        {
          SpacedOrder(times, gap, k);
        }
        if last < lo + gap {
          CountEmpty(front, lo, hi);
        } else {
          CountBelow(front, lo, hi, last - gap);
          SpacedCount(front, gap, lo, last - gap);
          OneMore(CountIn(front, lo, hi), gap, last - lo);
        }
      } else {
        SpacedCount(front, gap, lo, hi);
      }
    }
  }

  lemma CountNone(lo: nat, hi: nat)
    ensures CountIn([], lo, hi) == 0
  {
  }

  lemma CountLast(times: seq<nat>, lo: nat, hi: nat)
    requires times != []
    ensures var n := |times| - 1;
      CountIn(times, lo, hi) == CountIn(times[..n], lo, hi) + (if lo <= times[n] <= hi then 1 else 0)
  {
  }

  lemma OneMore(c: nat, gap: nat, length: nat)
    requires gap <= length && (c >= 1 ==> (c - 1) * gap <= length - gap)
    ensures c * gap <= length
  {
    assert c >= 1 ==> c * gap == (c - 1) * gap + gap;
  }

  lemma SpacedFront(times: seq<nat>, gap: nat)
    requires times != [] && Spaced(times, gap)
    ensures Spaced(times[..|times| - 1], gap)
  {
  }

  lemma Quotient(k: nat, gap: nat, length: nat)
    requires gap > 0 && k * gap <= length
    ensures k <= length / gap
  {
    var q := length / gap;
    assert length == q * gap + length % gap;
    assert (q + 1) * gap == q * gap + gap;
    if k > q {
      Monotone(q + 1, k, gap);
    }
  }

  lemma Monotone(a: nat, b: nat, gap: nat)
    requires a <= b
    ensures a * gap <= b * gap
  {
  }

  /**
   Across all tasks and however flags and stops interleave, crash restarts are recorded at least
   `timeout` seconds apart, so a closed interval of `length` holds at most one a timeout and one more.
   */
  lemma CrashRestartsAreSpaced(trace: seq<Server>, timeout: nat, i: nat, lo: nat, length: nat)
    requires Run(trace, timeout) && i < |trace| && timeout > 0
    ensures Spaced(trace[i].restarts, timeout * SECOND)
    ensures CountIn(trace[i].restarts, lo, lo + length) <= length / (timeout * SECOND) + 1
  {
    RunKeeps(trace, timeout, i);
    var gap := timeout * SECOND;
    hide Run, Spaced;
    SpacedCount(trace[i].restarts, gap, lo, lo + length);
    var c := CountIn(trace[i].restarts, lo, lo + length);
    if c >= 1 {
      Quotient(c - 1, gap, length);
    }
  }
}
