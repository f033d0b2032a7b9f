/**
 The pending-restart mark when the methods that change it overlap: a state change first sets the state and
 only later clears the mark, and marking first looks at the state and only then stores the mark.
 */
module PendingRestarts {
  import opened PowerActions

  type Task = nat

  /** A state change that has yet to clear the mark, and a marking that has yet to store it. */
  datatype Stage = Clearing | Marking

  datatype Overlap = Overlap(state: ServerState, pending: bool, tasks: map<Task, Stage>)

  const BEGIN := Overlap(Offline, false, map[])

  ghost predicate ChangeState(w: Overlap, v: Overlap, k: Task, to: ServerState) {
    && k !in w.tasks && w.state != to
    && v == w.(state := to, tasks := if to == Offline || to == Starting then w.tasks[k := Clearing] else w.tasks)
  }

  ghost predicate ClearMark(w: Overlap, v: Overlap, k: Task) {
    k in w.tasks && w.tasks[k].Clearing? && v == w.(pending := false, tasks := w.tasks - {k})
  }

  ghost predicate CheckMark(w: Overlap, v: Overlap, k: Task) {
    k !in w.tasks && !w.pending && w.state != Offline && v == w.(tasks := w.tasks[k := Marking])
  }

  ghost predicate StoreMark(w: Overlap, v: Overlap, k: Task) {
    k in w.tasks && w.tasks[k].Marking? && v == w.(pending := true, tasks := w.tasks - {k})
  }

  ghost predicate Unmark(w: Overlap, v: Overlap) {
    v == w.(pending := false)
  }

  ghost predicate Next(w: Overlap, v: Overlap) {
    || (exists k, to :: ChangeState(w, v, k, to))
    || (exists k :: ClearMark(w, v, k) || CheckMark(w, v, k) || StoreMark(w, v, k))
    || Unmark(w, v)
  }

  ghost predicate SomeClearing(w: Overlap) {
    exists k :: k in w.tasks && w.tasks[k].Clearing?
  }

  /** A mark on an offline server is about to be cleared. */
  ghost predicate Transient(w: Overlap) {
    w.pending && w.state == Offline ==> SomeClearing(w)
  }

  /** The mark is stored on a server that went offline, and was cleared of it, since the state was looked at. */
  ghost predicate StoredLate(w: Overlap, v: Overlap) {
    (exists k :: StoreMark(w, v, k)) && w.state == Offline && !SomeClearing(w)
  }

  lemma StoreKeepsIff(w: Overlap, v: Overlap, k: Task)
    requires Transient(w) && StoreMark(w, v, k)
    ensures Transient(v) <==> !StoredLate(w, v)
  {
    if SomeClearing(w) {
      var j :| j in w.tasks && w.tasks[j].Clearing?;
      assert j in v.tasks && v.tasks[j].Clearing?;
    }
  }

  lemma OtherKeeps(w: Overlap, v: Overlap, k: Task, to: ServerState)
    requires Transient(w)
    requires ChangeState(w, v, k, to) || ClearMark(w, v, k) || CheckMark(w, v, k) || Unmark(w, v)
    ensures Transient(v)
  {
    if CheckMark(w, v, k) && SomeClearing(w) {
      var j :| j in w.tasks && w.tasks[j].Clearing?;
      assert j in v.tasks && v.tasks[j].Clearing?;
    } else if ChangeState(w, v, k, to) && to == Offline {
      assert k in v.tasks && v.tasks[k].Clearing?;
    }
  }

  /** A step is to blame for a lasting mark on an offline server exactly if it stores the mark late. */
  lemma StepKeepsIff(w: Overlap, v: Overlap)
    requires Transient(w) && Next(w, v)
    ensures Transient(v) <==> !StoredLate(w, v)
  {
    hide Transient, StoredLate, ClearMark, CheckMark, ChangeState, Unmark;
    if k :| StoreMark(w, v, k) {
      StoreKeepsIff(w, v, k);
    } else {
      assert !StoredLate(w, v) by { NotStored(w, v); }
      if k, to :| ChangeState(w, v, k, to) {
        OtherKeeps(w, v, k, to);
      } else if k :| ClearMark(w, v, k) || CheckMark(w, v, k) {
        OtherKeeps(w, v, k, Offline);
      } else {
        OtherKeeps(w, v, 0, Offline);
      }
    }
  }

  lemma NotStored(w: Overlap, v: Overlap)
    requires forall k :: !StoreMark(w, v, k)
    ensures !StoredLate(w, v)
  {
  }

  ghost predicate Run(trace: seq<Overlap>) {
    && trace != [] && trace[0] == BEGIN
    && (forall i :: 0 < i < |trace| ==> Next(trace[i - 1], trace[i]))
  }

  ghost predicate NeverLate(trace: seq<Overlap>, n: nat) {
    forall i :: 0 < i <= n && i < |trace| ==> !StoredLate(trace[i - 1], trace[i])
  }

  lemma {:induction false} PromptMarksAreTransient(trace: seq<Overlap>, n: nat)
    requires Run(trace) && n < |trace| && NeverLate(trace, n)
    ensures Transient(trace[n])
  {
    hide Next, StoredLate;
    if n > 0 {
      hide Transient;
      PromptMarksAreTransient(trace, n - 1);
      StepKeepsIff(trace[n - 1], trace[n]);
    }
  }

  /**
   Over every run with the methods' parts apart: a mark on an offline server is on its way
   out in every state of the run, exactly if no mark was stored late.
   */
  lemma MarkedOfflineIff(trace: seq<Overlap>)
    requires Run(trace)
    ensures (forall i :: 0 <= i < |trace| ==> Transient(trace[i])) <==> NeverLate(trace, |trace|)
  {
    hide Next, StoredLate, Transient;
    if NeverLate(trace, |trace|) {
      forall i | 0 <= i < |trace|
        ensures Transient(trace[i])
      {
        PromptMarksAreTransient(trace, i);
      }
    } else if forall i :: 0 <= i < |trace| ==> Transient(trace[i]) {
      var i :| 0 < i < |trace| && StoredLate(trace[i - 1], trace[i]);
      StepKeepsIff(trace[i - 1], trace[i]);
    }
  }

  lemma MarkingStep(w: Overlap, v: Overlap, k: Task)
    requires Next(w, v) && k in v.tasks && v.tasks[k].Marking?
    ensures (k in w.tasks && w.tasks[k].Marking?) || (CheckMark(w, v, k) && w.state != Offline)
  {
  }

  /** A mark about to be stored was checked before, on a server that was not offline then. */
  lemma {:induction false} MarkingWasChecked(trace: seq<Overlap>, i: nat, k: Task) returns (c: nat)
    requires Run(trace) && i < |trace| && k in trace[i].tasks && trace[i].tasks[k].Marking?
    ensures c < i && CheckMark(trace[c], trace[c + 1], k) && trace[c].state != Offline
  {
    hide Next;
    if i == 0 {
      assert false;
    } else {
      assert Next(trace[i - 1], trace[i]);
      MarkingStep(trace[i - 1], trace[i], k);
      if k in trace[i - 1].tasks && trace[i - 1].tasks[k].Marking? {
        c := MarkingWasChecked(trace, i - 1, k);
      } else {
        c := i - 1;
      }
    }
  }

  lemma OffSince(w: Overlap, v: Overlap) returns (k: Task)
    requires Next(w, v) && w.state != Offline && v.state == Offline
    ensures ChangeState(w, v, k, Offline)
  {
    k :| ChangeState(w, v, k, Offline);
  }

  lemma {:induction false} WentOffline(trace: seq<Overlap>, c: nat, i: nat) returns (j: nat, k: Task)
    requires Run(trace) && c <= i < |trace| && trace[c].state != Offline && trace[i].state == Offline
    ensures c <= j < i && ChangeState(trace[j], trace[j + 1], k, Offline)
    decreases i
  {
    hide Next, ChangeState;
    assert c < i;
    if trace[i - 1].state != Offline {
      assert Next(trace[i - 1], trace[i]);
      k := OffSince(trace[i - 1], trace[i]);
      j := i - 1;
    } else {
      j, k := WentOffline(trace, c, i - 1);
    }
  }

  /** A mark stored late is one whose check a change to offline has come after. */
  lemma LateMarkWasOvertaken(trace: seq<Overlap>, i: nat, k: Task) returns (c: nat, j: nat, other: Task)
    requires Run(trace) && i + 1 < |trace| && StoreMark(trace[i], trace[i + 1], k) && trace[i].state == Offline
    ensures c <= j < i && CheckMark(trace[c], trace[c + 1], k)
    ensures ChangeState(trace[j], trace[j + 1], other, Offline)
  {
    hide Next, ChangeState, CheckMark;
    c := MarkingWasChecked(trace, i, k);
    j, other := WentOffline(trace, c, i);
  }

  /** Neither goes offline nor starts with a mark that stays: a change to either is followed by clearing. */
  lemma {:induction false} ChangeIsCleared(trace: seq<Overlap>, k: nat, i: nat, task: Task, to: ServerState)
    requires Run(trace) && k < i < |trace|
    requires ChangeState(trace[k], trace[k + 1], task, to) && to in {Offline, Starting}
    ensures (task in trace[i].tasks && trace[i].tasks[task].Clearing?) || exists j :: k < j <= i && !trace[j].pending
    decreases i
  {
    hide Next;
    if i > k + 1 {
      ChangeIsCleared(trace, k, i - 1, task, to);
      assert Next(trace[i - 1], trace[i]);
      if task in trace[i - 1].tasks && trace[i - 1].tasks[task].Clearing? {
        ClearingStays(trace[i - 1], trace[i], task);
      } else {
        var j :| k < j <= i - 1 && !trace[j].pending;
      }
    }
  }

  lemma ClearingStays(w: Overlap, v: Overlap, k: Task)
    requires Next(w, v) && k in w.tasks && w.tasks[k].Clearing?
    ensures (k in v.tasks && v.tasks[k].Clearing?) || !v.pending
  {
  }

  /** It can happen: the server goes offline, mark cleared and all, between the look at its state and the store. */
  lemma LateMark() returns (trace: seq<Overlap>)
    ensures Run(trace)
    ensures var last := trace[|trace| - 1]; last.pending && last.state == Offline && last.tasks == map[]
  {
    var up := BEGIN.(state := Running);
    var checked := up.(tasks := map[0 := Marking]);
    var down := checked.(state := Offline, tasks := map[0 := Marking, 1 := Clearing]);
    var cleared := down.(tasks := map[0 := Marking]);
    var stored := cleared.(pending := true, tasks := map[]);
    assert Next(BEGIN, up) by { assert ChangeState(BEGIN, up, 0, Running); }
    assert Next(up, checked) by { assert CheckMark(up, checked, 0); }
    assert Next(checked, down) by { assert ChangeState(checked, down, 1, Offline); }
    assert Next(down, cleared) by { assert ClearMark(down, cleared, 1); }
    assert Next(cleared, stored) by { assert StoreMark(cleared, stored, 0); }
    hide Next;
    trace := [BEGIN, up, checked, down, cleared, stored];
  }
}
