/**
 The server's state, its pending-restart mark and the lock around power
 actions. Each method is one step, except `execute_action`, whose steps are
 entry, locking, setting the state, running the body, and writing the old state back.
 */
module PowerActions {
  import opened Bytes

  datatype ServerState = Offline | Starting | Stopping | Running

  /** State and pending restart together, as the methods change them. */
  datatype Marks = Marks(state: ServerState, pendingRestart: bool)

  function SetState(m: Marks, state: ServerState): Marks {
    if m.state == state then m
    else Marks(state, m.pendingRestart && !(state == Offline || state == Starting))
  }

  function SetPendingRestart(m: Marks, pending: bool): Marks {
    if pending && (m.pendingRestart || m.state == Offline) then m else m.(pendingRestart := pending)
  }

  /** The lock object's own fields, changed in place by its methods. */
  class ServerStateLock {
    var state: ServerState
    var pendingRestart: bool

    ghost function State(): Marks
      reads this
    {
      Marks(state, pendingRestart)
    }

    ghost predicate Valid()
      reads this
    {
      pendingRestart ==> state != Offline
    }

    constructor ()
      ensures Valid() && State() == Marks(Offline, false)
    {
      state, pendingRestart := Offline, false;
    }

    method UpdateState(to: ServerState)
      requires Valid()
      modifies this
      ensures Valid() && State() == SetState(old(State()), to)
      // a change to offline or starting clears the mark, no other change touches it
      ensures state == to
      ensures pendingRestart <==> old(pendingRestart) && (old(state) == to || (to != Offline && to != Starting))
    {
      if state == to {
        return;
      }
      state := to;
      if (to == Offline || to == Starting) && pendingRestart {
        UpdatePendingRestart(false);
      }
    }

    method UpdatePendingRestart(pending: bool)
      requires pending ==> Valid()
      modifies this
      ensures State() == SetPendingRestart(old(State()), pending)
      ensures Valid() && state == old(state)
      ensures pendingRestart <==> pending && (old(pendingRestart) || state != Offline)
    {
      if pending && (pendingRestart || state == Offline) {
        return;
      }
      pendingRestart := pending;
    }
  }

  // ----- all callers together

  /** One call of `execute_action`. */
  type Call = nat

  /** Where a call is; `seen` is the state it read at entry. */
  datatype Phase =
    | Waiting(seen: ServerState, target: ServerState)
    | Locked(seen: ServerState, target: ServerState)
    | InBody(seen: ServerState, target: ServerState)
    | Failing(seen: ServerState, target: ServerState)
    | Executed(seen: ServerState, target: ServerState)
    | Refused(seen: ServerState, target: ServerState)
    | Errored(seen: ServerState, target: ServerState)

  /** A write of the state by a call, or by someone outside. */
  datatype Write = Write(writer: Option<Call>, value: ServerState)

  datatype World = World(
    marks: Marks,
    holder: Option<Call>,
    calls: map<Call, Phase>,
    writes: seq<Write>,
    bodies: seq<Call>)

  const START := World(Marks(Offline, false), None, map[], [], [])

  function Wrote(w: World, writer: Option<Call>, value: ServerState): World {
    w.(marks := SetState(w.marks, value), writes := w.writes + [Write(writer, value)])
  }

  ghost predicate Enter(w: World, v: World, c: Call, target: ServerState) {
    c !in w.calls && v == w.(calls := w.calls[c := Waiting(w.marks.state, target)])
  }

  /** `try_lock` fails, or waiting for the lock times out. */
  ghost predicate Refuse(w: World, v: World, c: Call) {
    && c in w.calls && w.calls[c].Waiting?
    && v == w.(calls := w.calls[c := Refused(w.calls[c].seen, w.calls[c].target)])
  }

  ghost predicate Lock(w: World, v: World, c: Call) {
    && c in w.calls && w.calls[c].Waiting? && w.holder.None?
    && v == w.(holder := Some(c), calls := w.calls[c := Locked(w.calls[c].seen, w.calls[c].target)])
  }

  ghost predicate Begin(w: World, v: World, c: Call) {
    && c in w.calls && w.calls[c].Locked?
    && var p := w.calls[c];
       v == Wrote(w, Some(c), p.target).(calls := w.calls[c := InBody(p.seen, p.target)], bodies := w.bodies + [c])
  }

  ghost predicate Succeed(w: World, v: World, c: Call) {
    && c in w.calls && w.calls[c].InBody?
    && v == w.(holder := None, calls := w.calls[c := Executed(w.calls[c].seen, w.calls[c].target)])
  }

  ghost predicate Fail(w: World, v: World, c: Call) {
    && c in w.calls && w.calls[c].InBody?
    && v == w.(calls := w.calls[c := Failing(w.calls[c].seen, w.calls[c].target)])
  }

  /** The failed action's caller writes back the state it read at entry, and lets go of the lock. */
  ghost predicate Revert(w: World, v: World, c: Call) {
    && c in w.calls && w.calls[c].Failing?
    && var p := w.calls[c];
       v == Wrote(w, Some(c), p.seen).(holder := None, calls := w.calls[c := Errored(p.seen, p.target)])
  }

  ghost predicate Outside(w: World, v: World, value: ServerState) {
    v == Wrote(w, None, value)
  }

  ghost predicate Mark(w: World, v: World, pending: bool) {
    v == w.(marks := SetPendingRestart(w.marks, pending))
  }

  ghost predicate CallStep(w: World, v: World, c: Call) {
    || (exists target :: Enter(w, v, c, target))
    || Refuse(w, v, c) || Lock(w, v, c) || Begin(w, v, c) || Succeed(w, v, c) || Fail(w, v, c) || Revert(w, v, c)
  }

  ghost predicate Next(w: World, v: World) {
    || (exists c :: CallStep(w, v, c))
    || (exists value :: Outside(w, v, value))
    || (exists pending :: Mark(w, v, pending))
  }

  /** The values a call has written, in order. */
  function WritesOf(writes: seq<Write>, c: Call): seq<ServerState> {
    if writes == [] then []
    else
      var last := writes[|writes| - 1];
      WritesOf(writes[..|writes| - 1], c) + (if last.writer == Some(c) then [last.value] else [])
  }

  predicate Active(p: Phase) {
    p.Locked? || p.InBody? || p.Failing?
  }

  /** What a call has written, and whether its body has run, by the phase it is in. */
  ghost predicate Record(w: World, c: Call) {
    && (c in w.calls ==>
          var p := w.calls[c];
          && WritesOf(w.writes, c) == (if p.Waiting? || p.Locked? || p.Refused? then []
                                       else if p.Errored? then [p.target, p.seen] else [p.target])
          && (c in w.bodies <==> !p.Waiting? && !p.Locked? && !p.Refused?)
          && (Active(p) <==> w.holder == Some(c)))
    && (c !in w.calls ==> WritesOf(w.writes, c) == [] && c !in w.bodies && w.holder != Some(c))
  }

  ghost predicate Inv(w: World) {
    && (w.marks.pendingRestart ==> w.marks.state != Offline)
    && forall c: Call :: Record(w, c)
  }

  lemma WritesStep(writes: seq<Write>, x: Write, c: Call)
    ensures WritesOf(writes + [x], c) == WritesOf(writes, c) + (if x.writer == Some(c) then [x.value] else [])
  {
    assert (writes + [x])[..|writes|] == writes;
  }

  lemma RecordKeeps(w: World, v: World, c: Call, d: Call)
    requires Record(w, c) && Record(w, d) && CallStep(w, v, c)
    ensures Record(v, d)
  {
    if Begin(w, v, c) {
      BeginKeeps(w, v, c, d);
    } else if Revert(w, v, c) {
      RevertKeeps(w, v, c, d);
    } else {
      QuietKeeps(w, v, c, d);
    }
  }

  /** The steps that write nothing. */
  lemma QuietKeeps(w: World, v: World, c: Call, d: Call)
    requires Record(w, c) && Record(w, d)
    requires (exists target :: Enter(w, v, c, target)) || Refuse(w, v, c) || Lock(w, v, c) || Succeed(w, v, c) || Fail(w, v, c)
    ensures Record(v, d)
  {
    hide WritesOf;
  }

  lemma BeginKeeps(w: World, v: World, c: Call, d: Call)
    requires Record(w, c) && Record(w, d) && Begin(w, v, c)
    ensures Record(v, d)
  {
    hide WritesOf, SetState;
    WritesStep(w.writes, Write(Some(c), w.calls[c].target), d);
    assert [] + [w.calls[c].target] == [w.calls[c].target];
    assert WritesOf(w.writes, d) + [] == WritesOf(w.writes, d);
  }

  lemma RevertKeeps(w: World, v: World, c: Call, d: Call)
    requires Record(w, c) && Record(w, d) && Revert(w, v, c)
    ensures Record(v, d)
  {
    hide WritesOf, SetState;
    WritesStep(w.writes, Write(Some(c), w.calls[c].seen), d);
    assert [w.calls[c].target] + [w.calls[c].seen] == [w.calls[c].target, w.calls[c].seen];
    assert WritesOf(w.writes, d) + [] == WritesOf(w.writes, d);
  }

  lemma MarksKeep(w: World, v: World)
    requires Next(w, v) && (w.marks.pendingRestart ==> w.marks.state != Offline)
    ensures v.marks.pendingRestart ==> v.marks.state != Offline
  {
  }

  lemma NextKeeps(w: World, v: World)
    requires Inv(w) && Next(w, v)
    ensures Inv(v)
  {
    MarksKeep(w, v);
    forall d: Call
      ensures Record(v, d)
    {
      assert Record(w, d);
      if c :| CallStep(w, v, c) {
        assert Record(w, c);
        RecordKeeps(w, v, c, d);
      } else if value :| Outside(w, v, value) {
        WritesStep(w.writes, Write(None, value), d);
        assert WritesOf(w.writes, d) + [] == WritesOf(w.writes, d);
      }
    }
  }

  ghost predicate Run(trace: seq<World>) {
    && trace != [] && trace[0] == START
    && (forall i :: 0 < i < |trace| ==> Next(trace[i - 1], trace[i]))
  }

  lemma {:induction false} RunKeeps(trace: seq<World>, i: nat)
    requires Run(trace) && i < |trace|
    ensures Inv(trace[i])
  {
    if i > 0 {
      hide Next, Inv;
      RunKeeps(trace, i - 1);
      NextKeeps(trace[i - 1], trace[i]);
    }
  }

  /**
   In every reachable state: at most one action is under way; a refused caller has written nothing and run
   nothing; a failed action's caller wrote its target and then the state it read at entry; and no restart is pending while offline.
   */
  lemma PowerActionSafety(trace: seq<World>, i: nat, c: Call, d: Call)
    requires Run(trace) && i < |trace|
    ensures var w := trace[i];
      && (c in w.calls && d in w.calls && Active(w.calls[c]) && Active(w.calls[d]) ==> c == d)
      && (c in w.calls && w.calls[c].Refused? ==> WritesOf(w.writes, c) == [] && c !in w.bodies)
      && (c in w.calls && w.calls[c].Errored? ==> WritesOf(w.writes, c) == [w.calls[c].target, w.calls[c].seen])
      && (c in w.calls && w.calls[c].Executed? ==> WritesOf(w.writes, c) == [w.calls[c].target] && c in w.bodies)
      && (w.marks.pendingRestart ==> w.marks.state != Offline)
  {
    RunKeeps(trace, i);
    assert Record(trace[i], c) && Record(trace[i], d);
  }

  /** A step that takes the server offline or starts it leaves no restart pending. */
  lemma ChangeClearsMark(w: World, v: World)
    requires Next(w, v) && v.marks.state != w.marks.state && (v.marks.state == Offline || v.marks.state == Starting)
    ensures !v.marks.pendingRestart
  {
  }

  /** And no step but one that says so clears or sets it otherwise. */
  lemma MarkChanges(w: World, v: World)
    requires Next(w, v) && v.marks.pendingRestart != w.marks.pendingRestart
    ensures if v.marks.pendingRestart then Mark(w, v, true) && w.marks.state != Offline
            else Mark(w, v, false) || (v.marks.state != w.marks.state && (v.marks.state == Offline || v.marks.state == Starting))
  {
  }

  /** A restart pending on a server that was started since was asked for since: the start had cleared any before it. */
  lemma {:induction false} MarkIsNewerThanStart(trace: seq<World>, k: nat, i: nat) returns (j: nat)
    requires Run(trace) && k < i < |trace| && trace[i].marks.pendingRestart
    requires trace[k].marks.state != trace[k + 1].marks.state && trace[k + 1].marks.state in {Offline, Starting}
    ensures k < j < i && Mark(trace[j], trace[j + 1], true) && !trace[j].marks.pendingRestart
    decreases i
  {
    hide Next;
    if i == k + 1 || !trace[i - 1].marks.pendingRestart {
      assert Next(trace[i - 1], trace[i]);
      if i == k + 1 {
        ChangeClearsMark(trace[k], trace[i]);
      }
      MarkChanges(trace[i - 1], trace[i]);
      j := i - 1;
    } else {
      j := MarkIsNewerThanStart(trace, k, i - 1);
    }
  }

  lemma SeenStep(w: World, v: World, c: Call)
    requires Next(w, v) && c in w.calls
    ensures c in v.calls && v.calls[c].seen == w.calls[c].seen
  {
  }

  /** What a caller read at entry stays what it goes by. */
  lemma {:induction false} SeenPersists(trace: seq<World>, i: nat, j: nat, c: Call)
    requires Run(trace) && i <= j < |trace| && c in trace[i].calls
    ensures c in trace[j].calls && trace[j].calls[c].seen == trace[i].calls[c].seen
    decreases j
  {
    hide Next;
    if i < j {
      SeenPersists(trace, i, j - 1, c);
      SeenStep(trace[j - 1], trace[j], c);
    }
  }

  /**
   The state is read before the lock is waited for. A failed action restores the state
   it found when it got the lock exactly if that is still what its caller read at entry.
   */
  lemma RevertRestoresIff(trace: seq<World>, i: nat, j: nat, c: Call)
    requires Run(trace) && i < j && j + 1 < |trace|
    requires Lock(trace[i], trace[i + 1], c) && Revert(trace[j], trace[j + 1], c)
    ensures trace[j + 1].marks.state == trace[i].marks.state <==> trace[i].calls[c].seen == trace[i].marks.state
  {
    hide Next;
    SeenPersists(trace, i, j, c);
  }

  /**
   In terms of the run: it restores what it found exactly if the state when its caller
   got the lock is the state when the call was entered, so always if nothing changed it in between.
   */
  lemma RevertRestoresEntryIff(trace: seq<World>, e: nat, i: nat, j: nat, c: Call, target: ServerState)
    requires Run(trace) && e < i < j && j + 1 < |trace|
    requires Enter(trace[e], trace[e + 1], c, target) && Lock(trace[i], trace[i + 1], c) && Revert(trace[j], trace[j + 1], c)
    ensures trace[j + 1].marks.state == trace[i].marks.state <==> trace[e].marks.state == trace[i].marks.state
    ensures (forall k :: e < k <= i ==> trace[k].marks.state == trace[k - 1].marks.state) ==>
              trace[j + 1].marks.state == trace[i].marks.state
  {
    hide Next;
    SeenPersists(trace, e + 1, i, c);
    RevertRestoresIff(trace, i, j, c);
    if forall k :: e < k <= i ==> trace[k].marks.state == trace[k - 1].marks.state {
      Unchanged(trace, e, i);
    }
  }

  lemma {:induction false} Unchanged(trace: seq<World>, e: nat, i: nat)
    requires e <= i < |trace| && forall k :: e < k <= i ==> trace[k].marks.state == trace[k - 1].marks.state
    ensures trace[i].marks.state == trace[e].marks.state
    decreases i
  {
    if e < i {
      Unchanged(trace, e, i - 1);
    }
  }

  /** A call entered while the server is offline waits until it is up, begins, fails and reverts. */
  lemma StaleSteps() returns (w1: World, w2: World, w3: World, w4: World, w5: World, w6: World)
    ensures Enter(START, w1, 0, Stopping) && Outside(w1, w2, Running) && Lock(w2, w3, 0)
    ensures Begin(w3, w4, 0) && Fail(w4, w5, 0) && Revert(w5, w6, 0)
    ensures w2.marks.state == Running && w6.marks.state == Offline
  {
    w1 := START.(calls := START.calls[0 := Waiting(Offline, Stopping)]);
    w2 := Wrote(w1, None, Running);
    w3 := w2.(holder := Some(0), calls := w2.calls[0 := Locked(Offline, Stopping)]);
    w4 := Wrote(w3, Some(0), Stopping).(calls := w3.calls[0 := InBody(Offline, Stopping)], bodies := w3.bodies + [0]);
    w5 := w4.(calls := w4.calls[0 := Failing(Offline, Stopping)]);
    w6 := Wrote(w5, Some(0), Offline).(holder := None, calls := w5.calls[0 := Errored(Offline, Stopping)]);
  }

  /** And it may not be: an action entered while offline takes a server that came up meanwhile offline again by failing. */
  lemma StaleRevert() returns (trace: seq<World>)
    ensures Run(trace) && |trace| == 7
    ensures Lock(trace[2], trace[3], 0) && trace[2].marks.state == Running
    ensures Revert(trace[5], trace[6], 0) && trace[6].marks.state == Offline
  {
    hide *;
    var w1, w2, w3, w4, w5, w6 := StaleSteps();
    EntryIsStep(START, w1, 0, Stopping);
    OutsideIsStep(w1, w2, Running);
    CallIsStep(w2, w3, 0);
    CallIsStep(w3, w4, 0);
    CallIsStep(w4, w5, 0);
    CallIsStep(w5, w6, 0);
    RunStarts();
    RunOn([START], w1);
    RunOn([START] + [w1], w2);
    RunOn([START] + [w1] + [w2], w3);
    RunOn([START] + [w1] + [w2] + [w3], w4);
    RunOn([START] + [w1] + [w2] + [w3] + [w4], w5);
    RunOn([START] + [w1] + [w2] + [w3] + [w4] + [w5], w6);
    trace := [START] + [w1] + [w2] + [w3] + [w4] + [w5] + [w6];
  }

  lemma RunStarts()
    ensures Run([START])
  {
  }

  lemma RunOn(trace: seq<World>, v: World)
    requires Run(trace) && Next(trace[|trace| - 1], v)
    ensures Run(trace + [v])
  {
    hide Next;
  }

  lemma EntryIsStep(w: World, v: World, c: Call, target: ServerState)
    requires Enter(w, v, c, target)
    ensures Next(w, v)
  {
    assert CallStep(w, v, c);
  }

  lemma OutsideIsStep(w: World, v: World, value: ServerState)
    requires Outside(w, v, value)
    ensures Next(w, v)
  {
  }

  lemma CallIsStep(w: World, v: World, c: Call)
    requires Lock(w, v, c) || Begin(w, v, c) || Fail(w, v, c) || Revert(w, v, c)
    ensures Next(w, v)
  {
    hide Lock, Begin, Fail, Revert;
    assert CallStep(w, v, c);
  }
}
