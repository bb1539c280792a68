/** `lai_mutex_lock` and `lai_mutex_unlock` (`core/exec_impl.h`) under every interleaving of any number
    of threads. One step is one atomic access of `sync->val`, or one call of the host. */
module Mutexes {
  const LOCKED := 1
  const CONTENDED := 2

  predicate IsLocked(v: nat) {
    v % 2 == 1
  }

  predicate IsContended(v: nat) {
    v / 2 % 2 == 1
  }

  /** Where a thread is, with its local `v`. */
  datatype Thread =
    | Idle
    | Trying(v: nat)    // at the head of the loop
    | Blocking(v: nat)  // about to call laihost_sync_wait
    | Parked(v: nat)    // inside laihost_sync_wait
    | Owner             // lai_mutex_lock has returned 0
    | Waking            // has unlocked and is about to call laihost_sync_wake
    | Panicked          // a LAI_ENSURE has failed

  datatype Mutex = Mutex(val: nat, threads: seq<Thread>)

  /** What the host does with a waiting thread. */
  datatype Choice = Go | Return | TimeOut

  /** The next step of one thread. */
  datatype Move = Move(thread: nat, choice: Choice)

  function Put(s: Mutex, t: nat, thread: Thread): Mutex
    requires t < |s.threads|
  {
    s.(threads := s.threads[t := thread])
  }

  /** `laihost_sync_wake` lets all parked threads return. */
  function Wake(threads: seq<Thread>): (after: seq<Thread>)
    ensures |after| == |threads|
  {
    seq(|threads|, i requires 0 <= i < |threads| =>
      if threads[i].Parked? then Trying(threads[i].v) else threads[i])
  }

  /** One round of the loop of `lai_mutex_lock`, up to the call of the host. */
  function TryStep(s: Mutex, t: nat, v: nat): Mutex
    requires t < |s.threads|
  {
    if v > LOCKED + CONTENDED then Put(s, t, Panicked)
    else if !IsLocked(v) then
      if s.val == v then Put(s.(val := LOCKED), t, Owner) else Put(s, t, Trying(s.val))
    else if IsContended(v) then Put(s, t, Blocking(v))
    else if s.val == v then Put(s.(val := LOCKED + CONTENDED), t, Blocking(v))
    else Put(s, t, Trying(s.val))
  }

  /** `lai_mutex_unlock`, up to the call of the host. */
  function UnlockStep(s: Mutex, t: nat): Mutex
    requires t < |s.threads|
  {
    var v := s.val;
    var unlocked := s.(val := 0);
    if v > LOCKED + CONTENDED || !IsLocked(v) then Put(unlocked, t, Panicked)
    else Put(unlocked, t, if IsContended(v) then Waking else Idle)
  }

  /** The host parks a thread only while the value is the expected one. */
  function Step(s: Mutex, m: Move): (after: Mutex)
    requires m.thread < |s.threads|
    ensures |after.threads| == |s.threads|
  {
    var t := m.thread;
    match s.threads[t]
    case Idle => Put(s, t, Trying(s.val))
    case Trying(v) => TryStep(s, t, v)
    case Blocking(v) =>
      if m.choice == TimeOut then Put(s, t, Idle)
      else if m.choice == Go && s.val == LOCKED + CONTENDED then Put(s, t, Parked(v))
      else Put(s, t, Trying(v))
    case Parked(v) =>
      if m.choice == TimeOut then Put(s, t, Idle) else if m.choice == Return then Put(s, t, Trying(v)) else s
    case Owner => UnlockStep(s, t)
    case Waking => Put(s.(threads := Wake(s.threads)), t, Idle)
    case Panicked => s
  }

  predicate Fits(n: nat, schedule: seq<Move>) {
    forall i :: 0 <= i < |schedule| ==> schedule[i].thread < n
  }

  function Run(s: Mutex, schedule: seq<Move>): (after: Mutex)
    requires Fits(|s.threads|, schedule)
    ensures |after.threads| == |s.threads|
    decreases |schedule|
  {
    if schedule == [] then s else Run(Step(s, schedule[0]), schedule[1..])
  }

  /** A mutex nobody has touched. */
  function Initial(n: nat): Mutex {
    Mutex(0, seq(n, _ => Idle))
  }

  // ------------------------------------------------------------------------------------
  // Safety.
  // ------------------------------------------------------------------------------------

  predicate Seen(v: nat) {
    v in {0, LOCKED, LOCKED + CONTENDED}
  }

  predicate GoodThread(thread: Thread) {
    match thread
    case Trying(v) => Seen(v)
    case Blocking(v) => Seen(v) && v != 0
    case Parked(v) => Seen(v) && v != 0
    case Panicked => false
    case _ => true
  }

  predicate HasOwner(s: Mutex) {
    exists i :: 0 <= i < |s.threads| && s.threads[i].Owner?
  }

  predicate HasParked(s: Mutex) {
    exists i :: 0 <= i < |s.threads| && s.threads[i].Parked?
  }

  predicate HasWaker(s: Mutex) {
    exists i :: 0 <= i < |s.threads| && s.threads[i].Waking?
  }

  predicate AtMostOneOwner(s: Mutex) {
    forall i, j :: 0 <= i < j < |s.threads| ==> !(s.threads[i].Owner? && s.threads[j].Owner?)
  }

  predicate Safe(s: Mutex) {
    && Seen(s.val)
    && (forall i :: 0 <= i < |s.threads| ==> GoodThread(s.threads[i]))
    && AtMostOneOwner(s)
    && (IsLocked(s.val) <==> HasOwner(s))
    && (HasParked(s) ==> s.val == LOCKED + CONTENDED || HasWaker(s))
  }

  /** A step that changes the value and one thread keeps the mutex safe if it respects ownership and
      does not forget a parked thread. */
  lemma PutIsSafe(s: Mutex, t: nat, val: nat, thread: Thread)
    requires t < |s.threads| && Safe(s) && !s.threads[t].Waking?
    requires Seen(val) && GoodThread(thread)
    requires thread.Owner? ==> !IsLocked(s.val)
    requires IsLocked(val) <==> thread.Owner? || (IsLocked(s.val) && !s.threads[t].Owner?)
    requires thread.Parked? ==> val == LOCKED + CONTENDED
    requires s.val == LOCKED + CONTENDED && val != s.val ==> thread.Waking?
    ensures Safe(Put(s.(val := val), t, thread))
  {
    var after := Put(s.(val := val), t, thread);
    assert after.threads[t] == thread;
    if HasOwner(s) {
      var o :| 0 <= o < |s.threads| && s.threads[o].Owner?;
      if o != t { assert after.threads[o].Owner?; }
    }
    if HasOwner(after) {
      var o :| 0 <= o < |s.threads| && after.threads[o].Owner?;
      if o != t { assert s.threads[o].Owner?; }
    }
    if HasWaker(s) {
      var w :| 0 <= w < |s.threads| && s.threads[w].Waking?;
      assert after.threads[w].Waking?;
    }
    if HasParked(after) {
      var p :| 0 <= p < |s.threads| && after.threads[p].Parked?;
      if p != t { assert s.threads[p].Parked?; }
    }
  }

  lemma WakeIsSafe(s: Mutex, t: nat)
    requires t < |s.threads| && Safe(s) && s.threads[t].Waking?
    ensures Safe(Put(s.(threads := Wake(s.threads)), t, Idle))
  {
    var after := Put(s.(threads := Wake(s.threads)), t, Idle);
    forall i | 0 <= i < |s.threads|
      ensures GoodThread(after.threads[i]) && !after.threads[i].Parked?
              && (after.threads[i].Owner? <==> s.threads[i].Owner?)
    {
    }
    if HasOwner(s) {
      var o :| 0 <= o < |s.threads| && s.threads[o].Owner?;
      assert after.threads[o].Owner?;
    }
  }

  lemma StepIsSafe(s: Mutex, m: Move)
    requires m.thread < |s.threads| && Safe(s)
    ensures Safe(Step(s, m))
  {
    hide Safe;
    var t, after := m.thread, Step(s, m);
    if s.threads[t].Waking? {
      WakeIsSafe(s, t);
    } else if after != s {
      SafeFacts(s, t);
      PutIsSafe(s, t, after.val, after.threads[t]);
      assert after == Put(s.(val := after.val), t, after.threads[t]);
    }
  }

  lemma SafeFacts(s: Mutex, t: nat)
    requires t < |s.threads| && Safe(s)
    ensures Seen(s.val) && GoodThread(s.threads[t])
    ensures s.threads[t].Owner? ==> IsLocked(s.val)
  {
  }

  /** Whatever the schedule, at most one thread owns the mutex, the LOCKED bit says whether there is
      one, no assertion fails, and a parked thread still has an owner or a wake-up to wait for. */
  lemma {:induction false} MutexIsSafe(n: nat, schedule: seq<Move>)
    requires Fits(n, schedule)
    ensures Safe(Run(Initial(n), schedule))
  {
    RunIsSafe(Initial(n), schedule);
  }

  lemma {:induction false} RunIsSafe(s: Mutex, schedule: seq<Move>)
    requires Fits(|s.threads|, schedule) && Safe(s)
    ensures Safe(Run(s, schedule))
    decreases |schedule|
  {
    if schedule != [] {
      StepIsSafe(s, schedule[0]);
      RunIsSafe(Step(s, schedule[0]), schedule[1..]);
    }
  }

  // ------------------------------------------------------------------------------------
  // What the lock does not promise.
  // ------------------------------------------------------------------------------------

  /** A thread in `lai_mutex_lock` whose `v` has LOCKED and CONTENDED set: it never loads `v` again. */
  predicate Stale(thread: Thread) {
    (thread.Trying? || thread.Blocking? || thread.Parked?) && thread.v == LOCKED + CONTENDED
  }

  /** A thread inside `lai_mutex_lock`. */
  predicate Locking(thread: Thread) {
    thread.Trying? || thread.Blocking? || thread.Parked?
  }

  /** The deadline of thread `t` does not pass during the schedule. */
  predicate NoTimeOut(schedule: seq<Move>, t: nat) {
    forall i :: 0 <= i < |schedule| && schedule[i].thread == t ==> schedule[i].choice != TimeOut
  }

  /** Some schedule without a timeout gives thread `t` the mutex. */
  ghost predicate CanAcquire(s: Mutex, t: nat)
    requires t < |s.threads|
  {
    exists schedule ::
      Fits(|s.threads|, schedule) && NoTimeOut(schedule, t) && Run(s, schedule).threads[t].Owner?
  }

  /** A locker that has seen the contended value stays in the loop until its deadline passes,
      whatever the other threads do. */
  lemma {:induction false} StaleLockerStarves(s: Mutex, t: nat, schedule: seq<Move>)
    requires t < |s.threads| && Fits(|s.threads|, schedule)
    requires Stale(s.threads[t]) && NoTimeOut(schedule, t)
    ensures Stale(Run(s, schedule).threads[t])
    decreases |schedule|
  {
    if schedule != [] {
      var next := Step(s, schedule[0]);
      assert Stale(next.threads[t]);
      StaleLockerStarves(next, t, schedule[1..]);
    }
  }

  /** One more step in front of a schedule that gives thread `t` the mutex. */
  lemma AcquireAfter(s: Mutex, m: Move, t: nat)
    requires t < |s.threads| && m.thread < |s.threads| && (m.thread == t ==> m.choice != TimeOut)
    requires CanAcquire(Step(s, m), t)
    ensures CanAcquire(s, t)
  {
    hide Step;
    var next := Step(s, m);
    var rest :| Fits(|next.threads|, rest) && NoTimeOut(rest, t) && Run(next, rest).threads[t].Owner?;
    var schedule := [m] + rest;
    assert schedule[1..] == rest;
    assert Fits(|s.threads|, schedule) && NoTimeOut(schedule, t);
  }

  /** While the mutex is free, a locker at the head of its loop takes it by its own steps. */
  lemma AcquireFree(s: Mutex, t: nat)
    requires t < |s.threads| && s.val == 0
    requires s.threads[t].Trying? && Seen(s.threads[t].v) && !Stale(s.threads[t])
    ensures CanAcquire(s, t)
    decreases s.threads[t].v
  {
    var go := Move(t, Go);
    if s.threads[t].v == 0 {
      assert Fits(|s.threads|, [go]) && NoTimeOut([go], t) && [go][1..] == [];
      assert Run(Step(s, go), []).threads[t].Owner?;
    } else {
      AcquireFree(Step(s, go), t);
      AcquireAfter(s, go, t);
    }
  }

  /** A locker at the head of its loop takes the mutex once its owner, if there is one, lets it go. */
  lemma AcquireAfterOwner(s: Mutex, t: nat)
    requires t < |s.threads| && Safe(s) && s.threads[t].Trying? && !Stale(s.threads[t])
    ensures CanAcquire(s, t)
  {
    SafeFacts(s, t);
    if IsLocked(s.val) {
      var o :| 0 <= o < |s.threads| && s.threads[o].Owner?;
      AcquireFree(Step(s, Move(o, Go)), t);
      AcquireAfter(s, Move(o, Go), t);
    } else {
      AcquireFree(s, t);
    }
  }

  /** A thread in `lai_mutex_lock` can still get the mutex before its deadline exactly when the value
      it holds is not LOCKED with CONTENDED. */
  lemma AcquiresUnlessStale(s: Mutex, t: nat)
    requires t < |s.threads| && Safe(s) && Locking(s.threads[t])
    ensures CanAcquire(s, t) <==> !Stale(s.threads[t])
  {
    hide Safe, Run;
    if Stale(s.threads[t]) {
      if CanAcquire(s, t) {
        var schedule :|
          Fits(|s.threads|, schedule) && NoTimeOut(schedule, t) && Run(s, schedule).threads[t].Owner?;
        StaleLockerStarves(s, t, schedule);
      }
    } else if s.threads[t].Trying? {
      AcquireAfterOwner(s, t);
    } else {
      var back := Move(t, Return);
      StepIsSafe(s, back);
      AcquireAfterOwner(Step(s, back), t);
      AcquireAfter(s, back, t);
    }
  }

  /** So a call of `lai_mutex_lock` can succeed before its deadline exactly when its first load does
      not find the mutex contended. */
  lemma LockSucceedsUnlessContended(s: Mutex, t: nat)
    requires t < |s.threads| && Safe(s) && s.threads[t].Idle?
    ensures CanAcquire(Step(s, Move(t, Go)), t) <==> s.val != LOCKED + CONTENDED
  {
    StepIsSafe(s, Move(t, Go));
    AcquiresUnlessStale(Step(s, Move(t, Go)), t);
  }

  ghost predicate Reachable(s: Mutex) {
    exists schedule :: Fits(|s.threads|, schedule) && Run(Initial(|s.threads|), schedule) == s
  }

  lemma ReachFirst(s: Mutex)
    requires s.(threads := []) == Initial(0) && forall i :: 0 <= i < |s.threads| ==> s.threads[i] == Idle
    ensures Reachable(s)
  {
    assert s.threads == Initial(|s.threads|).threads;
    assert Fits(|s.threads|, []) && Run(s, []) == s;
  }

  lemma {:induction false} RunLast(s: Mutex, schedule: seq<Move>, m: Move)
    requires Fits(|s.threads|, schedule) && m.thread < |s.threads|
    ensures Fits(|s.threads|, schedule + [m]) && Run(s, schedule + [m]) == Step(Run(s, schedule), m)
    decreases |schedule|
  {
    hide Step;
    if schedule == [] {
      assert schedule + [m] == [m] && [m][1..] == [];
    } else {
      RunLast(Step(s, schedule[0]), schedule[1..], m);
      assert (schedule + [m])[1..] == schedule[1..] + [m];
    }
  }

  lemma ReachNext(s: Mutex, m: Move, next: Mutex)
    requires Reachable(s) && m.thread < |s.threads| && next == Step(s, m)
    ensures Reachable(next)
  {
    hide Step, Run;
    var schedule :| Fits(|s.threads|, schedule) && Run(Initial(|s.threads|), schedule) == s;
    RunLast(Initial(|s.threads|), schedule, m);
  }

  lemma MutexStateIsSafe(s: Mutex)
    requires Reachable(s)
    ensures Safe(s)
  {
    hide Safe;
    var schedule :| Fits(|s.threads|, schedule) && Run(Initial(|s.threads|), schedule) == s;
    MutexIsSafe(|s.threads|, schedule);
  }

  /** Three threads reach a state in which the mutex is free, nobody is about to wake anyone, and
      one locker is stale: only its deadline ends its loop. */
  lemma FreeMutexWithStaleLocker()
    ensures exists s :: Reachable(s) && |s.threads| == 3 && s.val == 0
              && !HasOwner(s) && !HasWaker(s) && Stale(s.threads[2]) && !CanAcquire(s, 2)
  {
    hide Run;
    var a, b, c := Move(0, Go), Move(1, Go), Move(2, Go);
    var s0 := Mutex(0, [Idle, Idle, Idle]);
    ReachFirst(s0);
    var s1 := Mutex(0, [Trying(0), Idle, Idle]);
    ReachNext(s0, a, s1);
    var s2 := Mutex(1, [Owner, Idle, Idle]);
    ReachNext(s1, a, s2);
    var s3 := Mutex(1, [Owner, Trying(1), Idle]);
    ReachNext(s2, b, s3);
    var s4 := Mutex(3, [Owner, Blocking(1), Idle]);
    ReachNext(s3, b, s4);
    var s5 := Mutex(3, [Owner, Blocking(1), Trying(3)]);
    ReachNext(s4, c, s5);
    var s6 := Mutex(0, [Waking, Blocking(1), Trying(3)]);
    ReachNext(s5, a, s6);
    var s7 := Mutex(0, [Idle, Blocking(1), Trying(3)]);
    assert Wake(s6.threads) == s6.threads;
    ReachNext(s6, a, s7);
    MutexStateIsSafe(s7);
    AcquiresUnlessStale(s7, 2);
  }
}
