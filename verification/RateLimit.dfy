/**
 Rate limiting by windows of one second. Times are nanoseconds; clock readings
 and the amounts the wrapped stream moves are inputs, and a sleep lasts at
 least as long as asked.
 */
module RateLimiting {
  import opened Bytes

  const WINDOW: nat := 1_000_000_000

  /** Bytes moved by one call, at the time the call completed. */
  datatype Transfer = Transfer(time: nat, bytes: nat)

  /** A budget window and what was moved on its budget. */
  datatype Window = Window(start: nat, transfers: seq<Transfer>)

  function Total(transfers: seq<Transfer>): nat {
    if transfers == [] then 0 else Total(transfers[..|transfers| - 1]) + transfers[|transfers| - 1].bytes
  }

  /** A window's transfers lie between its start and the next window's. */
  ghost predicate Timed(w: Window, end: nat) {
    forall x <- w.transfers :: w.start <= x.time <= end
  }

  /** Windows start at least a window length apart and keep within their budget; `clock` is the time by now. */
  ghost predicate Paced(windows: seq<Window>, limit: nat, origin: nat, clock: nat) {
    && windows != [] && windows[0].start == origin
    && (forall k :: 0 <= k < |windows| ==> Total(windows[k].transfers) <= limit)
    && (forall k :: 0 < k < |windows| ==> windows[k - 1].start + WINDOW <= windows[k].start)
    && (forall k :: 0 < k < |windows| ==> Timed(windows[k - 1], windows[k].start))
    && windows[|windows| - 1].start <= clock && Timed(windows[|windows| - 1], clock)
  }

  /** The limiter's own bookkeeping agrees with the history of its current window. */
  ghost predicate Tracks(windows: seq<Window>, limit: nat, origin: nat, clock: nat, windowStart: nat, used: nat) {
    && Paced(windows, limit, origin, clock)
    && windows != [] && windows[|windows| - 1].start == windowStart <= clock
    && Total(windows[|windows| - 1].transfers) == used
  }

  lemma Behind(windows: seq<Window>, limit: nat, origin: nat, clock: nat, windowStart: nat, used: nat)
    requires Tracks(windows, limit, origin, clock, windowStart, used)
    ensures windowStart <= clock
  {
  }

  /** A new window may open once the current one is a window length old. */
  lemma OpenWindow(windows: seq<Window>, limit: nat, origin: nat, clock: nat, windowStart: nat, used: nat, now: nat)
    requires Tracks(windows, limit, origin, clock, windowStart, used)
    requires clock <= now && windowStart + WINDOW <= now
    ensures Tracks(windows + [Window(now, [])], limit, origin, now, now, 0)
    ensures Moved(windows + [Window(now, [])]) == Moved(windows)
  {
    MovedOpen(windows, now);
    hide Moved;
    var n := |windows|;
    var next := windows + [Window(now, [])];
    assert forall k :: 0 <= k < n ==> next[k] == windows[k];
    assert next[n] == Window(now, []);
  }

  /** A transfer within the budget goes on the current window's account. */
  lemma Account(windows: seq<Window>, limit: nat, origin: nat, clock: nat, windowStart: nat, used: nat, time: nat, bytes: nat)
    requires Tracks(windows, limit, origin, clock, windowStart, used)
    requires clock <= time && used + bytes <= limit
    ensures Moved(Charged(windows, time, bytes)) == Moved(windows) + bytes
    ensures Tracks(Charged(windows, time, bytes), limit, origin, time, windowStart, used + bytes)
  {
    MovedCharged(windows, time, bytes);
    ChargedPaced(windows, limit, origin, clock, used, time, bytes);
  }

  lemma TotalSnoc(transfers: seq<Transfer>, x: Transfer)
    ensures Total(transfers + [x]) == Total(transfers) + x.bytes
  {
    assert (transfers + [x])[..|transfers|] == transfers;
  }

  lemma ChargedPaced(windows: seq<Window>, limit: nat, origin: nat, clock: nat, used: nat, time: nat, bytes: nat)
    requires Paced(windows, limit, origin, clock) && clock <= time && used + bytes <= limit
    requires Total(windows[|windows| - 1].transfers) == used
    ensures Paced(Charged(windows, time, bytes), limit, origin, time)
    ensures Total(Charged(windows, time, bytes)[|windows| - 1].transfers) == used + bytes
  {
    hide Total;
    var n := |windows| - 1;
    var w := windows[n];
    TotalSnoc(w.transfers, Transfer(time, bytes));
    var next := Charged(windows, time, bytes);
    assert Timed(next[n], time);
    assert forall k :: 0 <= k < n ==> next[k] == windows[k];
    assert next[n].start == w.start;
  }

  ghost function Charged(windows: seq<Window>, time: nat, bytes: nat): seq<Window> {
    if windows == [] then []
    else
      var n := |windows| - 1;
      windows[n := Window(windows[n].start, windows[n].transfers + [Transfer(time, bytes)])]
  }

  function Min(a: nat, b: nat): nat { if a < b then a else b }

  /** A window and how much of its budget is used. */
  datatype Budget = Budget(start: nat, used: nat)

  /** When a call gets to move bytes: at once, or with its budget used up when the window is over, `late` by what the sleep took longer. */
  function CalledAt(b: Budget, limit: nat, now: nat, late: nat): nat {
    if now < b.start + WINDOW && b.used >= limit then b.start + WINDOW + late else now
  }

  /** The budget it works with: the current one, or a fresh one from then on. */
  function Admitted(b: Budget, limit: nat, now: nat, late: nat): Budget {
    if now < b.start + WINDOW && b.used < limit then b else Budget(CalledAt(b, limit, now, late), 0)
  }

  /** The history after a call that worked with budget `b`, and moved `bytes` or failed. */
  ghost function Extended(windows: seq<Window>, was: Budget, b: Budget, time: nat, bytes: Option<nat>): seq<Window> {
    var current := if b.start == was.start then windows else windows + [Window(b.start, [])];
    if bytes.Some? then Charged(current, time, bytes.value) else current
  }

  /** The blocking reader; the writer keeps the same account of what it writes. */
  class LimitedStream {
    const bytesPerSecond: nat
    var windowStart: nat
    var used: nat
    ghost const origin: nat
    ghost var clock: nat
    ghost var windows: seq<Window>

    ghost predicate Valid()
      reads this
    {
      && used <= bytesPerSecond
      && (bytesPerSecond > 0 ==> Tracks(windows, bytesPerSecond, origin, clock, windowStart, used))
    }

    constructor (bytesPerSecond: nat, now: nat)
      ensures Valid() && this.bytesPerSecond == bytesPerSecond && windowStart == now && used == 0
      ensures origin == clock == now && windows == [Window(now, [])]
    {
      this.bytesPerSecond := bytesPerSecond;
      windowStart, used := now, 0;
      origin, clock := now, now;
      windows := [Window(now, [])];
    }

    /**
     One call: `now` is the clock on entry, `late` how much longer than asked a sleep lasts if there is one, `took`
     how long the wrapped stream needs to move up to `moved` bytes of what it is offered, or to fail.
     */
    method Transact(len: nat, now: nat, late: nat, took: nat, moved: nat, fails: bool) returns (r: Option<nat>, ghost at: nat)
      requires Valid() && clock <= now
      modifies this
      ensures Valid()
      ensures len == 0 ==> r == Some(0) && windowStart == old(windowStart) && used == old(used) && windows == old(windows)
      ensures len > 0 && bytesPerSecond == 0 ==> r == if fails then None else Some(Min(moved, len))
      // a call waits only with its budget used up, and then no longer than the window lasts
      ensures len > 0 && bytesPerSecond > 0 ==>
        at == if old(used) == bytesPerSecond && now < old(windowStart) + WINDOW then old(windowStart) + WINDOW + late else now
      // and it has the whole budget, except within a window that was used before
      ensures len > 0 && bytesPerSecond > 0 ==>
        var left := if now < old(windowStart) + WINDOW && old(used) < bytesPerSecond then bytesPerSecond - old(used) else bytesPerSecond;
        r == if fails then None else Some(Min(moved, Min(len, left)))
      ensures len > 0 && bytesPerSecond > 0 ==>
        var before := Budget(old(windowStart), old(used));
        var b := Admitted(before, bytesPerSecond, now, late);
        && windowStart == b.start && used == b.used + (if r.Some? then r.value else 0)
        && windows == Extended(old(windows), before, b, at + took, r) && clock <= at + took
    {
      hide Tracks, Moved, Charged;
      at := now;
      if len == 0 {
        return Some(0), at;
      }
      if bytesPerSecond == 0 {
        return if fails then None else Some(Min(moved, len)), at;
      }
      Behind(windows, bytesPerSecond, origin, clock, windowStart, used);
      if now - windowStart >= WINDOW {
        OpenWindow(windows, bytesPerSecond, origin, clock, windowStart, used, now);
        windowStart, used := now, 0;
        windows, clock := windows + [Window(now, [])], now;
      }
      var budget := bytesPerSecond - used;
      if budget == 0 {
        var sleep := WINDOW - (now - windowStart);
        var woken := now + sleep + late;
        at := woken;
        OpenWindow(windows, bytesPerSecond, origin, clock, windowStart, used, woken);
        windowStart, used := woken, 0;
        windows, clock := windows + [Window(woken, [])], woken;
        budget := bytesPerSecond;
      }
      if fails {
        return None, at;
      }
      var offered := Min(len, budget);
      var n := Min(moved, offered);
      Account(windows, bytesPerSecond, origin, clock, windowStart, used, at + took, n);
      used := used + n;
      windows, clock := Charged(windows, at + took, n), at + took;
      r := Some(n);
    }
  }

  /** What one poll of the asynchronous reader does. */
  datatype Polled = Ready(bytes: nat) | NotReady | Failed

  /**
   The clock readings of one poll, in their order: a delay in progress is polled, `woken` and `now`
   are read, a new delay is created, polled, and `armed` is read. The timer's own clock may lag behind.
   */
  datatype Clocks = Clocks(timer: nat, woken: nat, now: nat, created: nat, timerAgain: nat, armed: nat)

  predicate InOrder(from: nat, c: Clocks) {
    from <= c.woken <= c.now <= c.created <= c.armed && c.timer <= c.woken && c.timerAgain <= c.armed
  }

  /** The budget after a poll's window handling, or the delay it leaves behind. */
  datatype Gate = Open(budget: Budget, at: nat) | Shut(budget: Budget, deadline: nat)

  function Gated(b: Budget, limit: nat, delay: Option<nat>, c: Clocks): Gate
    requires InOrder(b.start, c)
  {
    if delay.Some? && c.timer < delay.value then Shut(b, delay.value)
    else
      var rested := if delay.Some? then Budget(c.woken, 0) else b;
      var current := if rested.start + WINDOW <= c.now then Budget(c.now, 0) else rested;
      var deadline := c.created + (WINDOW - (c.now - current.start));
      if current.used < limit then Open(current, c.now)
      else if c.timerAgain < deadline then Shut(current, deadline)
      else Open(Budget(c.armed, 0), c.armed)
  }

  /** The asynchronous reader: instead of sleeping it keeps a delay and reports that it is not ready. */
  class AsyncLimitedReader {
    const bytesPerSecond: nat
    var windowStart: nat
    var used: nat
    /** The deadline of a delay in progress. */
    var delay: Option<nat>
    /** How much later than the window's end that is: the time between the clock reading it was computed from and its creation. */
    ghost var slack: nat
    ghost const origin: nat
    ghost var clock: nat
    ghost var windows: seq<Window>

    ghost predicate Valid()
      reads this
    {
      && used <= bytesPerSecond && windowStart <= clock
      && (bytesPerSecond > 0 ==> Tracks(windows, bytesPerSecond, origin, clock, windowStart, used))
      && (delay.Some? ==> used == bytesPerSecond && delay.value == windowStart + WINDOW + slack)
    }

    constructor (bytesPerSecond: nat, now: nat)
      ensures Valid() && this.bytesPerSecond == bytesPerSecond
      ensures origin == clock == now && windows == [Window(now, [])] && delay == None
    {
      this.bytesPerSecond := bytesPerSecond;
      windowStart, used, delay, slack := now, 0, None, 0;
      origin, clock := now, now;
      windows := [Window(now, [])];
    }

    /** There is budget left, or the window is over and with it any delay. */
    ghost predicate Due(c: Clocks)
      reads this
    {
      if delay.Some? then c.timer >= windowStart + WINDOW + slack
      else used < bytesPerSecond || c.now >= windowStart + WINDOW
    }

    /** A fresh budget, once the current window is over. */
    method Reset(time: nat)
      requires Valid() && bytesPerSecond > 0 && clock <= time && windowStart + WINDOW <= time
      modifies this
      ensures Valid() && windowStart == clock == time && used == 0 && delay == None
      ensures Moved(windows) == Moved(old(windows))
    {
      hide Tracks, Moved;
      OpenWindow(windows, bytesPerSecond, origin, clock, windowStart, used, time);
      delay, windowStart, used := None, time, 0;
      windows, clock := windows + [Window(time, [])], time;
    }

    /** What was read goes on the account. */
    method Charge(ghost time: nat, bytes: nat)
      requires Valid() && bytesPerSecond > 0 && clock <= time && used + bytes <= bytesPerSecond && delay.None?
      modifies this
      ensures Valid() && clock == time && windows == Charged(old(windows), time, bytes)
      ensures windowStart == old(windowStart) && used == old(used) + bytes && delay == None
      ensures Moved(windows) == Moved(old(windows)) + bytes
    {
      hide Tracks, Moved, Charged;
      Account(windows, bytesPerSecond, origin, clock, windowStart, used, time, bytes);
      used := used + bytes;
      windows, clock := Charged(windows, time, bytes), time;
    }

    /** The window handling of a poll: says whether the wrapped reader is polled, and from when. */
    method Admit(c: Clocks) returns (passed: bool, ghost at: nat)
      requires Valid() && bytesPerSecond > 0 && InOrder(clock, c)
      modifies this
      ensures Valid() && clock <= at && Moved(windows) == Moved(old(windows))
      // with a delay, a poll passes exactly once the timer has reached it; and it lasts as long as the window does
      ensures old(delay).Some? ==> (passed <==> c.timer >= old(windowStart) + WINDOW + old(slack))
      // without one, exactly if there is budget left or the window is over
      ensures old(delay).None? ==>
        (passed <==> old(used) < bytesPerSecond || c.now >= old(windowStart) + WINDOW
                     || c.timerAgain >= old(windowStart) + WINDOW + (c.created - c.now))
      ensures !passed ==> windowStart == old(windowStart) && used == old(used) == bytesPerSecond
      ensures !passed ==> slack == if old(delay).Some? then old(slack) else c.created - c.now
      // whoever passes has a fresh budget, except within a window that was used before
      ensures passed ==> used == if old(delay).None? && old(used) < bytesPerSecond && c.now < old(windowStart) + WINDOW then old(used) else 0
      ensures match Gated(Budget(old(windowStart), old(used)), bytesPerSecond, old(delay), c)
              case Shut(b, deadline) => !passed && Budget(windowStart, used) == b && delay == Some(deadline)
              case Open(b, from) => passed && Budget(windowStart, used) == b && used < bytesPerSecond && delay == None && at == from
    {
      hide Tracks, Moved;
      if delay.Some? {
        if c.timer < delay.value {
          return false, clock;
        }
        Reset(c.woken);
      }
      if c.now - windowStart >= WINDOW {
        Reset(c.now);
      }
      if bytesPerSecond - used == 0 {
        var sleep := WINDOW - (c.now - windowStart);
        if c.timerAgain < c.created + sleep {
          delay, slack := Some(c.created + sleep), c.created - c.now;
          return false, clock;
        }
        Reset(c.armed);
        return true, c.armed;
      }
      return true, c.now;
    }

    /**
     One poll. The wrapped reader takes `took` to answer with up to `moved` bytes, with
     not-ready, or with a failure.
     */
    method PollRead(room: nat, c: Clocks, took: nat, moved: nat, answer: Polled) returns (r: Polled)
      requires Valid() && InOrder(clock, c)
      modifies this
      ensures Valid()
      ensures room == 0 ==> r == Ready(0) && used == old(used) && windows == old(windows)
      ensures room > 0 && bytesPerSecond == 0 ==> r == if answer.Ready? then Ready(Min(moved, room)) else answer
      // the limiter holds back nobody who is due, and cuts what is read only by using the budget up
      ensures room > 0 && bytesPerSecond > 0 && old(Due(c)) ==>
        if answer.Ready? then r.Ready? && (r.bytes == Min(moved, room) || used == bytesPerSecond) else r == answer
      ensures room > 0 && bytesPerSecond > 0 ==>
        match Gated(Budget(old(windowStart), old(used)), bytesPerSecond, old(delay), c)
        case Shut(b, deadline) =>
          r == NotReady && windowStart == b.start && used == b.used && delay == Some(deadline)
        case Open(b, at) =>
          && r == (if answer.Ready? then Ready(Min(moved, Min(room, bytesPerSecond - b.used))) else answer)
          && windowStart == b.start && used == b.used + (if r.Ready? then r.bytes else 0) && delay == None
          // and it is booked when it completes
          && (r.Ready? ==> clock == at + took && LastTransfer(windows) == Some(Transfer(at + took, r.bytes)))
      // the history grows by exactly what was handed on
      ensures bytesPerSecond > 0 ==> Moved(windows) == Moved(old(windows)) + (if r.Ready? then r.bytes else 0)
    {
      hide Tracks, Moved, Charged, LastTransfer;
      if room == 0 {
        return Ready(0);
      }
      if bytesPerSecond == 0 {
        return if answer.Ready? then Ready(Min(moved, room)) else answer;
      }
      ghost var at;
      var passed;
      passed, at := Admit(c);
      if !passed {
        return NotReady;
      }
      if !answer.Ready? {
        return answer;
      }
      var offered := Min(room, bytesPerSecond - used);
      var n := Min(moved, offered);
      HasWindow(windows, bytesPerSecond, origin, clock, windowStart, used);
      ChargedLast(windows, at + took, n);
      Charge(at + took, n);
      r := Ready(n);
    }
  }

  ghost function LastTransfer(windows: seq<Window>): Option<Transfer> {
    if windows == [] then None
    else
      var transfers := windows[|windows| - 1].transfers;
      if transfers == [] then None else Some(transfers[|transfers| - 1])
  }

  lemma ChargedLast(windows: seq<Window>, time: nat, bytes: nat)
    requires windows != []
    ensures LastTransfer(Charged(windows, time, bytes)) == Some(Transfer(time, bytes))
  {
  }

  lemma HasWindow(windows: seq<Window>, limit: nat, origin: nat, clock: nat, windowStart: nat, used: nat)
    requires Tracks(windows, limit, origin, clock, windowStart, used)
    ensures windows != []
  {
  }

  /** Everything moved on limited budget. */
  ghost function Moved(windows: seq<Window>): nat {
    if windows == [] then 0
    else Moved(windows[..|windows| - 1]) + Total(windows[|windows| - 1].transfers)
  }

  lemma MovedOpen(windows: seq<Window>, start: nat)
    ensures Moved(windows + [Window(start, [])]) == Moved(windows)
  {
    assert (windows + [Window(start, [])])[..|windows|] == windows;
  }

  lemma MovedCharged(windows: seq<Window>, time: nat, bytes: nat)
    requires windows != []
    ensures Moved(Charged(windows, time, bytes)) == Moved(windows) + bytes
  {
    var n := |windows| - 1;
    assert Charged(windows, time, bytes)[..n] == windows[..n];
    var transfers := windows[n].transfers;
    assert (transfers + [Transfer(time, bytes)])[..|transfers|] == transfers;
  }

  // ----- what pacing means in real time

  /** Bytes of one window's transfers that completed in `lo..hi`. */
  function During(transfers: seq<Transfer>, lo: nat, hi: nat): nat {
    if transfers == [] then 0
    else
      var x := transfers[|transfers| - 1];
      During(transfers[..|transfers| - 1], lo, hi) + (if lo <= x.time < hi then x.bytes else 0)
  }

  /** Bytes moved in `lo..hi`, over all windows. */
  function MovedDuring(windows: seq<Window>, lo: nat, hi: nat): nat {
    if windows == [] then 0
    else
      MovedDuring(windows[..|windows| - 1], lo, hi) + During(windows[|windows| - 1].transfers, lo, hi)
  }

  lemma {:induction false} DuringBounds(transfers: seq<Transfer>, lo: nat, hi: nat)
    ensures During(transfers, lo, hi) <= Total(transfers)
    ensures (forall x <- transfers :: x.time < lo || hi <= x.time) ==> During(transfers, lo, hi) == 0
  {
    if transfers != [] {
      DuringBounds(transfers[..|transfers| - 1], lo, hi);
    }
  }

  lemma {:induction false} StartsApart(windows: seq<Window>, limit: nat, origin: nat, clock: nat, i: nat, j: nat)
    requires Paced(windows, limit, origin, clock) && i <= j < |windows|
    ensures windows[i].start + (j - i) * WINDOW <= windows[j].start
    decreases j
  {
    if i < j {
      StartsApart(windows, limit, origin, clock, i, j - 1);
    }
  }

  lemma WindowTotal(windows: seq<Window>, limit: nat, origin: nat, clock: nat, k: nat, lo: nat, hi: nat)
    requires Paced(windows, limit, origin, clock) && k < |windows|
    ensures During(windows[k].transfers, lo, hi) <= limit
  {
    DuringBounds(windows[k].transfers, lo, hi);
  }

  /** Up to window `n`, at most `limit` a window. */
  lemma {:induction false} PerWindow(windows: seq<Window>, limit: nat, origin: nat, clock: nat, n: nat, lo: nat, hi: nat)
    requires Paced(windows, limit, origin, clock) && n <= |windows|
    ensures MovedDuring(windows[..n], lo, hi) <= limit * n
  {
    if n == 0 {
      assert windows[..0] == [];
    } else {
      hide *;
      PerWindow(windows, limit, origin, clock, n - 1, lo, hi);
      Split(windows, n, lo, hi);
      WindowTotal(windows, limit, origin, clock, n - 1, lo, hi);
      assert limit * n == limit * (n - 1) + limit;
    }
  }

  lemma Split(windows: seq<Window>, n: nat, lo: nat, hi: nat)
    requires 0 < n <= |windows|
    ensures MovedDuring(windows[..n], lo, hi)
         == MovedDuring(windows[..n - 1], lo, hi) + During(windows[n - 1].transfers, lo, hi)
  {
    assert windows[..n][..n - 1] == windows[..n - 1];
  }

  /** A window that starts at `hi` or later contributes nothing before. */
  lemma WindowIdle(windows: seq<Window>, limit: nat, origin: nat, clock: nat, k: nat, lo: nat, hi: nat)
    requires Paced(windows, limit, origin, clock) && k < |windows| && hi <= windows[k].start
    ensures During(windows[k].transfers, lo, hi) == 0
  {
    hide Total;
    assert Timed(windows[k], if k + 1 < |windows| then windows[k + 1].start else clock) by {
      if k + 1 < |windows| {
        assert Timed(windows[k + 1 - 1], windows[k + 1].start);
      }
    }
    DuringBounds(windows[k].transfers, lo, hi);
  }

  /** Windows from `m` on that have not started by `hi` contribute nothing. */
  lemma {:induction false} LaterWindowsIdle(windows: seq<Window>, limit: nat, origin: nat, clock: nat, m: nat, n: nat, lo: nat, hi: nat)
    requires Paced(windows, limit, origin, clock) && m <= n <= |windows|
    requires m < |windows| ==> hi <= windows[m].start
    ensures MovedDuring(windows[..n], lo, hi) == MovedDuring(windows[..m], lo, hi)
    decreases n
  {
    hide *;
    if m < n {
      LaterWindowsIdle(windows, limit, origin, clock, m, n - 1, lo, hi);
      Split(windows, n, lo, hi);
      StartsApart(windows, limit, origin, clock, m, n - 1);
      assert (n - 1 - m) * WINDOW >= 0;
      WindowIdle(windows, limit, origin, clock, n - 1, lo, hi);
    }
  }

  /**
   The rate bound: by time `t` after creation, the current window and every full one
   before it account for all bytes moved.
   */
  lemma RateBound(windows: seq<Window>, limit: nat, origin: nat, clock: nat, t: nat)
    requires Paced(windows, limit, origin, clock)
    ensures MovedDuring(windows, origin, origin + t + 1) <= limit * (t / WINDOW + 1)
  {
    assert windows[0].start == origin;
    var m := t / WINDOW + 1;
    assert t < m * WINDOW;
    hide *;
    var n := |windows|;
    var hi := origin + t + 1;
    assert windows[..n] == windows;
    if n <= m {
      PerWindow(windows, limit, origin, clock, n, origin, hi);
      Scale(limit, n, m);
    } else {
      StartsApart(windows, limit, origin, clock, 0, m);
      LaterWindowsIdle(windows, limit, origin, clock, m, n, origin, hi);
      PerWindow(windows, limit, origin, clock, m, origin, hi);
    }
  }

  lemma Scale(limit: nat, n: nat, m: nat)
    requires n <= m
    ensures limit * n <= limit * m
  {
  }

  /** Windows before `m` whose transfers all came before `lo` contribute nothing. */
  lemma {:induction false} EarlierWindowsIdle(windows: seq<Window>, limit: nat, origin: nat, clock: nat, m: nat, lo: nat, hi: nat)
    requires Paced(windows, limit, origin, clock) && m < |windows|
    requires windows[m].start < lo
    ensures MovedDuring(windows[..m], lo, hi) == 0
    decreases m
  {
    if m > 0 {
      assert Timed(windows[m - 1], windows[m].start);
      EarlierWindowsIdle(windows, limit, origin, clock, m - 1, lo, hi);
      Split(windows, m, lo, hi);
      DuringBounds(windows[m - 1].transfers, lo, hi);
    } else {
      assert windows[..0] == [];
    }
  }

  /** The first window, from `m` on, that starts at `lo` or later. */
  lemma {:induction false} FirstFrom(windows: seq<Window>, lo: nat, m: nat) returns (k: nat)
    requires m <= |windows|
    requires forall i :: 0 <= i < m ==> windows[i].start < lo
    ensures m <= k <= |windows|
    ensures forall i :: 0 <= i < k ==> windows[i].start < lo
    ensures k < |windows| ==> lo <= windows[k].start
    decreases |windows| - m
  {
    if m < |windows| && windows[m].start < lo {
      k := FirstFrom(windows, lo, m + 1);
    } else {
      k := m;
    }
  }

  /** Any half-open interval of one window length sees at most two windows' budgets. */
  lemma TwoWindowBound(windows: seq<Window>, limit: nat, origin: nat, clock: nat, lo: nat)
    requires Paced(windows, limit, origin, clock)
    ensures MovedDuring(windows, lo, lo + WINDOW) <= 2 * limit
  {
    var n := |windows|;
    var hi := lo + WINDOW;
    var k := FirstFrom(windows, lo, 0);
    assert windows[..n] == windows;
    var m := if k + 1 < n then k + 1 else n;
    if k + 1 < n {
      assert windows[k].start + WINDOW <= windows[k + 1].start;
    }
    LaterWindowsIdle(windows, limit, origin, clock, m, n, lo, hi);
    if k > 0 {
      EarlierWindowsIdle(windows, limit, origin, clock, k - 1, lo, hi);
      Split(windows, k, lo, hi);
      DuringBounds(windows[k - 1].transfers, lo, hi);
    } else {
      assert windows[..0] == [];
    }
    if k < n {
      Split(windows, k + 1, lo, hi);
      DuringBounds(windows[k].transfers, lo, hi);
    }
  }

  lemma OneTransfer(start: nat, time: nat, bytes: nat, lo: nat, hi: nat)
    ensures Total(Window(start, [Transfer(time, bytes)]).transfers) == bytes
    ensures During(Window(start, [Transfer(time, bytes)]).transfers, lo, hi) == if lo <= time < hi then bytes else 0
  {
    assert [Transfer(time, bytes)][..0] == [];
  }

  /**
   With both end points included, three budgets can meet in an interval of one window:
   one spent late, one at once, and one after the wait.
   */
  method ThreeBudgetsMeet(limit: nat) returns (stream: LimitedStream)
    requires limit > 0
    ensures stream.Valid() && stream.bytesPerSecond == limit
    ensures MovedDuring(stream.windows, WINDOW, 2 * WINDOW + 1) == 3 * limit
  {
    hide Paced, Moved, MovedDuring;
    stream := new LimitedStream(limit, 0);
    var late, at0 := stream.Transact(limit, 0, 0, WINDOW, limit, false);
    var atOnce, at1 := stream.Transact(limit, WINDOW, 0, 0, limit, false);
    var waited, at2 := stream.Transact(limit, WINDOW, 0, 0, limit, false);
    assert stream.windows == [Window(0, [Transfer(WINDOW, limit)]), Window(WINDOW, [Transfer(WINDOW, limit)]),
                              Window(2 * WINDOW, [Transfer(2 * WINDOW, limit)])];
    ClosedIntervalSees(limit);
  }

  lemma ClosedIntervalSees(limit: nat)
    ensures MovedDuring([Window(0, [Transfer(WINDOW, limit)]), Window(WINDOW, [Transfer(WINDOW, limit)]),
                         Window(2 * WINDOW, [Transfer(2 * WINDOW, limit)])], WINDOW, 2 * WINDOW + 1) == 3 * limit
  {
    var lo, hi := WINDOW, 2 * WINDOW + 1;
    var windows := [Window(0, [Transfer(WINDOW, limit)]), Window(WINDOW, [Transfer(WINDOW, limit)]),
                    Window(2 * WINDOW, [Transfer(2 * WINDOW, limit)])];
    OneTransfer(0, WINDOW, limit, lo, hi);
    OneTransfer(WINDOW, WINDOW, limit, lo, hi);
    OneTransfer(2 * WINDOW, 2 * WINDOW, limit, lo, hi);
    hide During;
    assert windows[..3] == windows && windows[..0] == [];
    Split(windows, 3, lo, hi);
    Split(windows, 2, lo, hi);
    Split(windows, 1, lo, hi);
  }
}
