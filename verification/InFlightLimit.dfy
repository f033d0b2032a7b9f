/**
 The blocking counting semaphore behind a mutex and a condition variable, as the
 steps its threads take. What happens under the mutex is one step; dropping a
 permit is two, because the notification follows the unlock.
 */
module InFlightLimits {

  type Thread = nat
  type Permit = nat

  datatype State = State(
    limit: nat,
    count: nat,
    permits: set<Permit>,     // handed out and not yet dropped
    unnotified: set<Permit>,  // dropped: counted out, the notification still to come
    parked: set<Thread>,      // waiting on the condition variable
    woken: set<Thread>)       // notified, not yet back under the mutex

  ghost predicate Init(limit: nat, s: State) {
    s == State(if limit < 1 then 1 else limit, 0, {}, {}, {}, {})
  }

  ghost predicate Idle(s: State, t: Thread) {
    t !in s.parked && t !in s.woken
  }

  ghost predicate Fresh(s: State, p: Permit) {
    p !in s.permits && p !in s.unnotified
  }

  /** `acquire` by a thread that finds a free slot. */
  ghost predicate Acquire(s: State, s': State, t: Thread, p: Permit) {
    && Idle(s, t) && Fresh(s, p) && s.count < s.limit
    && s' == s.(count := s.count + 1, permits := s.permits + {p})
  }

  /** `acquire` by a thread that finds none, and waits. */
  ghost predicate Park(s: State, s': State, t: Thread) {
    && Idle(s, t) && s.count >= s.limit
    && s' == s.(parked := s.parked + {t})
  }

  /** A woken thread is back under the mutex and rechecks the loop condition. */
  ghost predicate Recheck(s: State, s': State, t: Thread, p: Permit) {
    && t in s.woken && Fresh(s, p)
    && s' == if s.count < s.limit
             then s.(woken := s.woken - {t}, count := s.count + 1, permits := s.permits + {p})
             else s.(woken := s.woken - {t}, parked := s.parked + {t})
  }

  /** The first half of dropping a permit. */
  ghost predicate Release(s: State, s': State, p: Permit) {
    && p in s.permits && s.count > 0
    && s' == s.(count := s.count - 1, permits := s.permits - {p}, unnotified := s.unnotified + {p})
  }

  /** The second half: `notify_one` wakes a parked thread if there is one. */
  ghost predicate Notify(s: State, s': State, p: Permit, t: Thread) {
    && p in s.unnotified
    && (s.parked != {} ==> t in s.parked)
    && s' == s.(unnotified := s.unnotified - {p},
                parked := s.parked - {t},
                woken := if s.parked != {} then s.woken + {t} else s.woken)
  }

  ghost predicate Internal(s: State, s': State) {
    (exists t, p :: Recheck(s, s', t, p)) || (exists p, t :: Notify(s, s', p, t))
  }

  ghost predicate Next(s: State, s': State) {
    || (exists t, p :: Acquire(s, s', t, p))
    || (exists t :: Park(s, s', t))
    || (exists p :: Release(s, s', p))
    || Internal(s, s')
  }

  /**
   The count is the number of live permits and within the limit; and if anyone
   is parked, every free slot is owed to a thread already woken or to a notification still to come.
   */
  ghost predicate Inv(s: State) {
    && s.limit >= 1
    && s.count == |s.permits| <= s.limit
    && s.permits !! s.unnotified
    && s.parked !! s.woken
    && (s.parked != {} ==> s.limit - s.count <= |s.woken| + |s.unnotified|)
  }

  lemma RecheckKeeps(s: State, s': State, t: Thread, p: Permit)
    requires Inv(s) && Recheck(s, s', t, p)
    ensures Inv(s') && |s'.woken| == |s.woken| - 1 && s'.unnotified == s.unnotified
  {
  }

  lemma NotifyKeeps(s: State, s': State, p: Permit, t: Thread)
    requires Inv(s) && Notify(s, s', p, t)
    ensures Inv(s') && |s'.unnotified| == |s.unnotified| - 1 && |s'.woken| <= |s.woken| + 1
  {
    assert |s.unnotified - {p}| == |s.unnotified| - 1;
  }

  lemma ReleaseKeeps(s: State, s': State, p: Permit)
    requires Inv(s) && Release(s, s', p)
    ensures Inv(s')
  {
    assert |s.permits - {p}| == |s.permits| - 1;
  }

  lemma {:induction false} NextKeeps(s: State, s': State)
    requires Inv(s) && Next(s, s')
    ensures Inv(s') && s'.limit == s.limit
  {
    if t, p :| Recheck(s, s', t, p) {
      RecheckKeeps(s, s', t, p);
    } else if p, t :| Notify(s, s', p, t) {
      NotifyKeeps(s, s', p, t);
    } else if p :| Release(s, s', p) {
      ReleaseKeeps(s, s', p);
    }
  }

  /** A thread that asks gets a permit exactly if a slot is free, and waits exactly if none is; so does one that was woken. */
  lemma AcquiresIff(s: State, t: Thread)
    requires Inv(s)
    ensures Idle(s, t) ==> ((exists s', p :: Acquire(s, s', t, p)) <==> |s.permits| < s.limit)
    ensures Idle(s, t) ==> ((exists s' :: Park(s, s', t)) <==> |s.permits| == s.limit)
    ensures forall s', p :: Recheck(s, s', t, p) ==> (p in s'.permits <==> |s.permits| < s.limit) && (t in s'.parked <==> |s.permits| == s.limit)
    ensures t in s.woken ==> exists s', p :: Recheck(s, s', t, p)
  {
    var p := FreshPermit(s.permits + s.unnotified);
    var s' := s.(count := s.count + 1, permits := s.permits + {p});
    assert Idle(s, t) && s.count < s.limit ==> Acquire(s, s', t, p);
    assert Idle(s, t) && s.count >= s.limit ==> Park(s, s.(parked := s.parked + {t}), t);
    if t in s.woken {
      var u := if s.count < s.limit
               then s.(woken := s.woken - {t}, count := s.count + 1, permits := s.permits + {p})
               else s.(woken := s.woken - {t}, parked := s.parked + {t});
      assert Recheck(s, u, t, p);
    }
  }

  ghost predicate Run(limit: nat, trace: seq<State>) {
    && trace != [] && Init(limit, trace[0])
    && (forall i :: 0 < i < |trace| ==> Next(trace[i - 1], trace[i]))
  }

  lemma InitHolds(limit: nat, s: State)
    requires Init(limit, s)
    ensures Inv(s)
  {
  }

  lemma {:induction false} RunKeeps(limit: nat, trace: seq<State>, i: nat)
    requires Run(limit, trace) && i < |trace|
    ensures Inv(trace[i]) && trace[i].limit == (if limit < 1 then 1 else limit)
  {
    hide Next, Inv;
    if i == 0 {
      InitHolds(limit, trace[0]);
    } else {
      RunKeeps(limit, trace, i - 1);
      NextKeeps(trace[i - 1], trace[i]);
    }
  }

  /** In every reachable state with a waiter, free slots never outnumber the wake-ups on their way. */
  lemma NoLostWakeup(limit: nat, trace: seq<State>, i: nat)
    requires Run(limit, trace) && i < |trace|
    ensures var s := trace[i];
      && s.count == |s.permits| <= s.limit
      && (s.parked != {} ==> s.limit - s.count <= |s.woken| + |s.unnotified|)
      && (s.parked != {} && s.woken == {} && s.unnotified == {} ==> s.count == s.limit)
  {
    RunKeeps(limit, trace, i);
  }

  ghost function Debt(s: State): nat {
    2 * |s.unnotified| + |s.woken|
  }

  ghost predicate InternalRun(trace: seq<State>) {
    trace != [] && forall i :: 0 < i < |trace| ==> Internal(trace[i - 1], trace[i])
  }

  lemma InternalStep(s: State, s': State)
    requires Inv(s) && Internal(s, s')
    ensures Inv(s') && Debt(s') < Debt(s)
  {
    if t, p :| Recheck(s, s', t, p) {
      RecheckKeeps(s, s', t, p);
    } else {
      var p, t :| Notify(s, s', p, t);
      NotifyKeeps(s, s', p, t);
    }
  }

  lemma {:induction false} InternalRunShrinks(trace: seq<State>, i: nat)
    requires InternalRun(trace) && Inv(trace[0]) && i < |trace|
    ensures Inv(trace[i]) && Debt(trace[i]) + i <= Debt(trace[0])
  {
    if i > 0 {
      InternalRunShrinks(trace, i - 1);
      InternalStep(trace[i - 1], trace[i]);
    }
  }

  /**
   Left to themselves, the pending notifications and wake-ups are used up after
   a bounded number of steps; where no further one is possible, nobody is
   parked beside a free slot.
   */
  lemma WakeupsSettle(trace: seq<State>)
    requires InternalRun(trace) && Inv(trace[0])
    ensures |trace| - 1 <= Debt(trace[0])
    ensures var last := trace[|trace| - 1];
      (forall s' :: !Internal(last, s')) ==> last.parked == {} || last.count == last.limit
  {
    var last := trace[|trace| - 1];
    InternalRunShrinks(trace, |trace| - 1);
    if forall s' :: !Internal(last, s') {
      NothingPending(last);
    }
  }

  lemma NothingPending(s: State)
    requires forall s' :: !Internal(s, s')
    ensures s.woken == {} && s.unnotified == {}
  {
    if s.woken != {} {
      var t :| t in s.woken;
      var p := FreshPermit(s.permits + s.unnotified);
      var s' := if s.count < s.limit
                then s.(woken := s.woken - {t}, count := s.count + 1, permits := s.permits + {p})
                else s.(woken := s.woken - {t}, parked := s.parked + {t});
      assert Recheck(s, s', t, p);
      assert Internal(s, s');
    }
    if s.unnotified != {} {
      var p :| p in s.unnotified;
      var t: Thread := if s.parked != {} then var x :| x in s.parked; x else 0;
      var s' := s.(unnotified := s.unnotified - {p}, parked := s.parked - {t},
                   woken := if s.parked != {} then s.woken + {t} else s.woken);
      assert Notify(s, s', p, t);
      assert Internal(s, s');
    }
  }

  lemma {:induction false} FreshPermit(used: set<Permit>) returns (p: Permit)
    ensures p !in used
    ensures forall q <- used :: q < p
  {
    if used == {} {
      p := 0;
    } else {
      var x :| x in used;
      var y := FreshPermit(used - {x});
      p := if x >= y then x + 1 else y;
      assert forall q <- used :: q == x || q in used - {x};
    }
  }
}
