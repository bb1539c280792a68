/** `lai_event_wait`, `lai_event_signal` and `lai_event_reset` (`core/exec_impl.h`) under every
    interleaving of any number of threads. The counters record what has been completed so far. */
module Events {
  const COUNT := 0x7FFF_FFFF
  const WAITERS := 0x8000_0000

  /** The value the host is told to expect: the constant of the mutex, not one of the event. */
  const EXPECTED := 3

  function CountOf(v: nat): nat {
    v % WAITERS
  }

  predicate HasWaitersBit(v: nat) {
    v / WAITERS % 2 == 1
  }

  datatype Thread =
    | Idle
    | Waiting(v: nat)    // at the head of the loop of lai_event_wait
    | Blocking(v: nat)   // about to call laihost_sync_wait
    | Parked(v: nat)     // inside laihost_sync_wait
    | Signalling(v: nat) // at the head of the loop of lai_event_signal
    | Waking             // has signalled and is about to call laihost_sync_wake
    | Resetting(v: nat)  // at the head of the loop of lai_event_reset
    | Overflowed         // the counter is at its maximum: lai_event_signal panics
    | Panicked           // any other LAI_ENSURE has failed

  datatype Event = Event(val: nat, threads: seq<Thread>, signals: nat, waits: nat, discarded: nat)

  /** What an idle thread calls next, or what the host does with a waiting one. */
  datatype Choice = Wait | Signal | Reset | Return | TimeOut

  datatype Move = Move(thread: nat, choice: Choice)

  function Put(s: Event, t: nat, thread: Thread): Event
    requires t < |s.threads|
  {
    s.(threads := s.threads[t := thread])
  }

  function Wake(threads: seq<Thread>): (after: seq<Thread>)
    ensures |after| == |threads|
  {
    seq(|threads|, i requires 0 <= i < |threads| =>
      if threads[i].Parked? then Waiting(threads[i].v) else threads[i])
  }

  function Begin(s: Event, t: nat, choice: Choice): Event
    requires t < |s.threads|
  {
    match choice
    case Wait => Put(s, t, Waiting(s.val))
    case Signal => Put(s, t, Signalling(s.val))
    case Reset => Put(s, t, Resetting(s.val))
    case _ => s
  }

  /** One round of the loop of `lai_event_wait`, up to the call of the host. */
  function WaitStep(s: Event, t: nat, v: nat): Event
    requires t < |s.threads|
  {
    if CountOf(v) > 0 then
      if HasWaitersBit(v) then Put(s, t, Panicked)
      else if s.val == v then Put(s.(val := v - 1, waits := s.waits + 1), t, Idle)
      else Put(s, t, Waiting(s.val))
    else if HasWaitersBit(v) then Put(s, t, Blocking(v))
    else if s.val == v then Put(s.(val := WAITERS), t, Blocking(v))
    else Put(s, t, Waiting(s.val))
  }

  /** One round of the loop of `lai_event_signal`, up to the call of the host. */
  function SignalStep(s: Event, t: nat, v: nat): Event
    requires t < |s.threads|
  {
    if !HasWaitersBit(v) then
      if v + 1 > COUNT then Put(s, t, Overflowed)
      else if s.val == v then Put(s.(val := v + 1, signals := s.signals + 1), t, Idle)
      else Put(s, t, Signalling(s.val))
    else if CountOf(v) > 0 then Put(s, t, Panicked)
    else if s.val == v then Put(s.(val := 1, signals := s.signals + 1), t, Waking)
    else Put(s, t, Signalling(s.val))
  }

  /** One round of the loop of `lai_event_reset`. */
  function ResetStep(s: Event, t: nat, v: nat): Event
    requires t < |s.threads|
  {
    if !HasWaitersBit(v) then
      if CountOf(v) == 0 then Put(s, t, Idle)
      else if s.val == v then Put(s.(val := 0, discarded := s.discarded + CountOf(v)), t, Idle)
      else Put(s, t, Resetting(s.val))
    else if CountOf(v) > 0 then Put(s, t, Panicked)
    else Put(s, t, Idle)
  }

  function Step(s: Event, m: Move): (after: Event)
    requires m.thread < |s.threads|
    ensures |after.threads| == |s.threads|
  {
    var t := m.thread;
    match s.threads[t]
    case Idle => Begin(s, t, m.choice)
    case Waiting(v) => WaitStep(s, t, v)
    case Blocking(v) =>
      if m.choice == TimeOut then Put(s, t, Idle)
      else if m.choice != Return && s.val == EXPECTED then Put(s, t, Parked(v))
      else Put(s, t, Waiting(v))
    case Parked(v) =>
      if m.choice == TimeOut then Put(s, t, Idle) else if m.choice == Return then Put(s, t, Waiting(v)) else s
    case Signalling(v) => SignalStep(s, t, v)
    case Waking => Put(s.(threads := Wake(s.threads)), t, Idle)
    case Resetting(v) => ResetStep(s, t, v)
    case _ => s
  }

  predicate Fits(n: nat, schedule: seq<Move>) {
    forall i :: 0 <= i < |schedule| ==> schedule[i].thread < n
  }

  function Run(s: Event, schedule: seq<Move>): (after: Event)
    requires Fits(|s.threads|, schedule)
    ensures |after.threads| == |s.threads|
    decreases |schedule|
  {
    if schedule == [] then s else Run(Step(s, schedule[0]), schedule[1..])
  }

  function Initial(n: nat): Event {
    Event(0, seq(n, _ => Idle), 0, 0, 0)
  }

  // ------------------------------------------------------------------------------------
  // Conservation.
  // ------------------------------------------------------------------------------------

  /** A count, or the waiters bit, never both. */
  predicate Seen(v: nat) {
    v <= COUNT || v == WAITERS
  }

  predicate GoodThread(thread: Thread) {
    match thread
    case Waiting(v) => Seen(v)
    case Blocking(v) => Seen(v)
    case Parked(v) => Seen(v)
    case Signalling(v) => Seen(v)
    case Resetting(v) => Seen(v)
    case Panicked => false
    case _ => true
  }

  predicate Conserved(s: Event) {
    && Seen(s.val)
    && (forall i :: 0 <= i < |s.threads| ==> GoodThread(s.threads[i]))
    && s.signals == s.waits + s.discarded + CountOf(s.val)
  }

  lemma StepConserves(s: Event, m: Move)
    requires m.thread < |s.threads| && Conserved(s)
    ensures Conserved(Step(s, m))
  {
    hide Step, Wake, CountOf, GoodThread, Seen;
    var t, after := m.thread, Step(s, m);
    assert GoodThread(s.threads[t]);
    StepCounts(s, m);
    forall i | 0 <= i < |s.threads| ensures GoodThread(after.threads[i]) {
      if i != t { OthersStayGood(s, m, i); }
    }
  }

  lemma StepCounts(s: Event, m: Move)
    requires m.thread < |s.threads| && GoodThread(s.threads[m.thread]) && Seen(s.val)
    requires s.signals == s.waits + s.discarded + CountOf(s.val)
    ensures var after := Step(s, m);
            && GoodThread(after.threads[m.thread]) && Seen(after.val)
            && after.signals == after.waits + after.discarded + CountOf(after.val)
  {
    hide Wake, WaitStep, SignalStep, ResetStep, CountOf, HasWaitersBit;
    match s.threads[m.thread]
    case Waiting(v) => WaitCounts(s, m.thread, v);
    case Signalling(v) => SignalCounts(s, m.thread, v);
    case Resetting(v) => ResetCounts(s, m.thread, v);
    case _ =>
  }

  predicate Balanced(s: Event, t: nat)
    requires t < |s.threads|
  {
    GoodThread(s.threads[t]) && Seen(s.val) && s.signals == s.waits + s.discarded + CountOf(s.val)
  }

  lemma WaitCounts(s: Event, t: nat, v: nat)
    requires t < |s.threads| && Balanced(s, t) && s.threads[t] == Waiting(v)
    ensures Balanced(WaitStep(s, t, v), t)
  {
    CountsOfSeen(s.val);
    CountsOfSeen(v);
  }

  lemma SignalCounts(s: Event, t: nat, v: nat)
    requires t < |s.threads| && Balanced(s, t) && s.threads[t] == Signalling(v)
    ensures Balanced(SignalStep(s, t, v), t)
  {
    CountsOfSeen(s.val);
    CountsOfSeen(v);
  }

  lemma ResetCounts(s: Event, t: nat, v: nat)
    requires t < |s.threads| && Balanced(s, t) && s.threads[t] == Resetting(v)
    ensures Balanced(ResetStep(s, t, v), t)
  {
    CountsOfSeen(s.val);
  }

  lemma CountsOfSeen(v: nat)
    requires Seen(v)
    ensures CountOf(v) == (if v == WAITERS then 0 else v) && (HasWaitersBit(v) <==> v == WAITERS)
  {
  }

  lemma OthersStayGood(s: Event, m: Move, i: nat)
    requires m.thread < |s.threads| && i < |s.threads| && i != m.thread && GoodThread(s.threads[i])
    ensures GoodThread(Step(s, m).threads[i])
  {
    var was, now := s.threads[i], Step(s, m).threads[i];
    assert now == if s.threads[m.thread].Waking? then Wake(s.threads)[i] else was;
  }

  lemma {:induction false} RunConserves(s: Event, schedule: seq<Move>)
    requires Fits(|s.threads|, schedule) && Conserved(s)
    ensures Conserved(Run(s, schedule))
    decreases |schedule|
  {
    if schedule != [] {
      StepConserves(s, schedule[0]);
      RunConserves(Step(s, schedule[0]), schedule[1..]);
    }
  }

  /** Whatever the schedule, completed signals are successful waits plus discarded tokens plus the
      current count; a count and the waiters bit are never seen together, so that the assertions
      about them never fail. The only panic left is the overflow of the counter. */
  lemma {:induction false} TokensAreConserved(n: nat, schedule: seq<Move>)
    requires Fits(n, schedule)
    ensures var s := Run(Initial(n), schedule);
            && s.signals == s.waits + s.discarded + CountOf(s.val)
            && !(CountOf(s.val) > 0 && HasWaitersBit(s.val))
            && forall i :: 0 <= i < n ==> !s.threads[i].Panicked?
  {
    RunConserves(Initial(n), schedule);
    var s := Run(Initial(n), schedule);
    forall i | 0 <= i < n ensures !s.threads[i].Panicked? { assert GoodThread(s.threads[i]); }
  }

  // ------------------------------------------------------------------------------------
  // What a wait does not promise.
  // ------------------------------------------------------------------------------------

  /** A thread in `lai_event_wait` whose `v` is the waiters bit: it never loads `v` again. */
  predicate Stale(thread: Thread) {
    (thread.Waiting? || thread.Blocking? || thread.Parked?) && thread.v == WAITERS
  }

  /** A thread inside `lai_event_wait`. */
  predicate InWait(thread: Thread) {
    thread.Waiting? || thread.Blocking? || thread.Parked?
  }

  /** The deadline of thread `t` does not pass during the schedule. */
  predicate NoTimeOut(schedule: seq<Move>, t: nat) {
    forall i :: 0 <= i < |schedule| && schedule[i].thread == t ==> schedule[i].choice != TimeOut
  }

  /** Some schedule without a timeout ends the wait of thread `t` with a token. */
  ghost predicate CanComplete(s: Event, t: nat)
    requires t < |s.threads|
  {
    exists schedule ::
      Fits(|s.threads|, schedule) && NoTimeOut(schedule, t) && Run(s, schedule).threads[t].Idle?
  }

  /** A waiter that has seen the waiters bit stays in the loop until its deadline passes, however
      often the event is signalled. */
  lemma {:induction false} StaleWaiterStarves(s: Event, t: nat, schedule: seq<Move>)
    requires t < |s.threads| && Fits(|s.threads|, schedule)
    requires Stale(s.threads[t]) && NoTimeOut(schedule, t)
    ensures Stale(Run(s, schedule).threads[t])
    decreases |schedule|
  {
    if schedule != [] {
      var next := Step(s, schedule[0]);
      assert Stale(next.threads[t]);
      StaleWaiterStarves(next, t, schedule[1..]);
    }
  }

  /** One more step in front of a schedule that completes the wait of thread `t`. */
  lemma CompleteAfter(s: Event, m: Move, t: nat)
    requires t < |s.threads| && m.thread < |s.threads| && (m.thread == t ==> m.choice != TimeOut)
    requires CanComplete(Step(s, m), t)
    ensures CanComplete(s, t)
  {
    hide Step;
    var next := Step(s, m);
    var rest :| Fits(|next.threads|, rest) && NoTimeOut(rest, t) && Run(next, rest).threads[t].Idle?;
    var schedule := [m] + rest;
    assert schedule[1..] == rest;
    assert Fits(|s.threads|, schedule) && NoTimeOut(schedule, t);
  }

  /** While there are tokens, a waiter at the head of its loop takes one by its own steps. */
  lemma CompleteWithTokens(s: Event, t: nat)
    requires t < |s.threads| && 0 < s.val <= COUNT
    requires s.threads[t].Waiting? && s.threads[t].v <= COUNT
    ensures CanComplete(s, t)
    decreases s.threads[t].v != s.val
  {
    var go := Move(t, Wait);
    if s.threads[t].v == s.val {
      assert Fits(|s.threads|, [go]) && NoTimeOut([go], t) && [go][1..] == [];
      assert Run(Step(s, go), []).threads[t].Idle?;
    } else {
      CompleteWithTokens(Step(s, go), t);
      CompleteAfter(s, go, t);
    }
  }

  lemma CompleteWithTokensInWait(s: Event, t: nat)
    requires t < |s.threads| && Conserved(s) && CountOf(s.val) > 0
    requires InWait(s.threads[t]) && !Stale(s.threads[t])
    ensures CanComplete(s, t)
  {
    assert CountOf(WAITERS) == 0 && GoodThread(s.threads[t]);
    if s.threads[t].Waiting? {
      CompleteWithTokens(s, t);
    } else {
      CompleteWithTokens(Step(s, Move(t, Return)), t);
      CompleteAfter(s, Move(t, Return), t);
    }
  }

  /** There is a token, or another thread is free to signal one. */
  predicate TokenToCome(s: Event, t: nat) {
    CountOf(s.val) > 0 || exists i :: 0 <= i < |s.threads| && i != t && s.threads[i].Idle?
  }

  /** With a token available or to come, a thread in `lai_event_wait` can still take one before its
      deadline exactly when the value it holds is not the waiters bit. */
  lemma CompletesUnlessStale(s: Event, t: nat)
    requires t < |s.threads| && Conserved(s) && TokenToCome(s, t) && InWait(s.threads[t])
    ensures CanComplete(s, t) <==> !Stale(s.threads[t])
  {
    hide Run;
    if Stale(s.threads[t]) {
      if CanComplete(s, t) {
        var schedule :|
          Fits(|s.threads|, schedule) && NoTimeOut(schedule, t) && Run(s, schedule).threads[t].Idle?;
        StaleWaiterStarves(s, t, schedule);
      }
    } else if CountOf(s.val) > 0 {
      CompleteWithTokensInWait(s, t);
    } else {
      var i :| 0 <= i < |s.threads| && i != t && s.threads[i].Idle?;
      var signal := Move(i, Signal);
      var first := Step(s, signal);
      StepConserves(s, signal);
      StepConserves(first, signal);
      CompleteWithTokensInWait(Step(first, signal), t);
      CompleteAfter(first, signal, t);
      CompleteAfter(s, signal, t);
    }
  }

  /** So a call of `lai_event_wait` can succeed before its deadline exactly when its first load does
      not find the waiters bit. */
  lemma WaitSucceedsUnlessWaiters(s: Event, t: nat)
    requires t < |s.threads| && Conserved(s) && TokenToCome(s, t) && s.threads[t].Idle?
    ensures CanComplete(Step(s, Move(t, Wait)), t) <==> s.val != WAITERS
  {
    var next := Step(s, Move(t, Wait));
    StepConserves(s, Move(t, Wait));
    if CountOf(s.val) == 0 {
      var i :| 0 <= i < |s.threads| && i != t && s.threads[i].Idle?;
      assert next.threads[i].Idle?;
    }
    CompletesUnlessStale(next, t);
  }

  predicate NobodyParked(s: Event) {
    forall i :: 0 <= i < |s.threads| ==> !s.threads[i].Parked?
  }

  /** The value after each prefix of the schedule is not the one the host is told to expect. */
  predicate NeverThree(s: Event, schedule: seq<Move>)
    requires Fits(|s.threads|, schedule)
    decreases |schedule|
  {
    s.val != EXPECTED && (schedule != [] ==> NeverThree(Step(s, schedule[0]), schedule[1..]))
  }

  /** A waiter never sleeps while there is nothing to wait for: unless at some time exactly three
      tokens were available, no schedule parks any thread. */
  lemma {:induction false} SleepsOnlyAtThreeTokens(s: Event, schedule: seq<Move>)
    requires Fits(|s.threads|, schedule) && NobodyParked(s) && NeverThree(s, schedule)
    ensures NobodyParked(Run(s, schedule))
    decreases |schedule|
  {
    if schedule != [] {
      assert NobodyParked(Step(s, schedule[0]));
      SleepsOnlyAtThreeTokens(Step(s, schedule[0]), schedule[1..]);
    }
  }

  ghost predicate Reachable(s: Event) {
    exists schedule :: Fits(|s.threads|, schedule) && Run(Initial(|s.threads|), schedule) == s
  }

  lemma ReachFirst(s: Event)
    requires s.(threads := []) == Initial(0) && forall i :: 0 <= i < |s.threads| ==> s.threads[i] == Idle
    ensures Reachable(s)
  {
    assert s.threads == Initial(|s.threads|).threads;
    assert Fits(|s.threads|, []) && Run(s, []) == s;
  }

  lemma {:induction false} RunLast(s: Event, schedule: seq<Move>, m: Move)
    requires Fits(|s.threads|, schedule) && m.thread < |s.threads|
    ensures Fits(|s.threads|, schedule + [m]) && Run(s, schedule + [m]) == Step(Run(s, schedule), m)
    decreases |schedule|
  {
    hide Step;
    if schedule == [] {
      assert schedule + [m] == [m] && [m][1..] == [];
    } else {
      RunLast(Step(s, schedule[0]), schedule[1..], m);
      assert (schedule + [m])[1..] == schedule[1..] + [m];
    }
  }

  lemma ReachNext(s: Event, m: Move, next: Event)
    requires Reachable(s) && m.thread < |s.threads| && next == Step(s, m)
    ensures Reachable(next)
  {
    hide Step, Run;
    var schedule :| Fits(|s.threads|, schedule) && Run(Initial(|s.threads|), schedule) == s;
    RunLast(Initial(|s.threads|), schedule, m);
  }

  /** Two threads reach a state in which one is parked although the event has been signalled three
      times, and the signals are over. */
  lemma ParkedWithTokens()
    ensures exists s :: Reachable(s) && CountOf(s.val) == 3 && s.threads == [Parked(0), Idle]
  {
    hide Run;
    var wait, signal := Move(0, Wait), Move(1, Signal);
    var s0 := Event(0, [Idle, Idle], 0, 0, 0);
    ReachFirst(s0);
    var s1 := Event(0, [Waiting(0), Idle], 0, 0, 0);
    ReachNext(s0, wait, s1);
    var s2 := Event(WAITERS, [Blocking(0), Idle], 0, 0, 0);
    ReachNext(s1, wait, s2);
    var s3 := Event(WAITERS, [Blocking(0), Signalling(WAITERS)], 0, 0, 0);
    ReachNext(s2, signal, s3);
    var s4 := Event(1, [Blocking(0), Waking], 1, 0, 0);
    ReachNext(s3, signal, s4);
    var s5 := Event(1, [Blocking(0), Idle], 1, 0, 0);
    assert Wake(s4.threads) == s4.threads;
    ReachNext(s4, signal, s5);
    var s6 := Event(1, [Blocking(0), Signalling(1)], 1, 0, 0);
    ReachNext(s5, signal, s6);
    var s7 := Event(2, [Blocking(0), Idle], 2, 0, 0);
    ReachNext(s6, signal, s7);
    var s8 := Event(2, [Blocking(0), Signalling(2)], 2, 0, 0);
    ReachNext(s7, signal, s8);
    var s9 := Event(3, [Blocking(0), Idle], 3, 0, 0);
    ReachNext(s8, signal, s9);
    var s10 := Event(3, [Parked(0), Idle], 3, 0, 0);
    ReachNext(s9, wait, s10);
  }

  /** Three threads reach a state in which a token is available, nobody is about to wake anyone, and
      one waiter is stale: only its deadline ends its loop. */
  lemma StaleWaiterWithToken()
    ensures exists s :: Reachable(s) && s.threads == [Blocking(0), Waiting(WAITERS), Idle]
              && CountOf(s.val) == 1 && !CanComplete(s, 1)
  {
    hide Run;
    var a, b, c := Move(0, Wait), Move(1, Wait), Move(2, Signal);
    var s0 := Event(0, [Idle, Idle, Idle], 0, 0, 0);
    ReachFirst(s0);
    var s1 := Event(0, [Waiting(0), Idle, Idle], 0, 0, 0);
    ReachNext(s0, a, s1);
    var s2 := Event(WAITERS, [Blocking(0), Idle, Idle], 0, 0, 0);
    ReachNext(s1, a, s2);
    var s3 := Event(WAITERS, [Blocking(0), Waiting(WAITERS), Idle], 0, 0, 0);
    ReachNext(s2, b, s3);
    var s4 := Event(WAITERS, [Blocking(0), Waiting(WAITERS), Signalling(WAITERS)], 0, 0, 0);
    ReachNext(s3, c, s4);
    var s5 := Event(1, [Blocking(0), Waiting(WAITERS), Waking], 1, 0, 0);
    ReachNext(s4, c, s5);
    var s6 := Event(1, [Blocking(0), Waiting(WAITERS), Idle], 1, 0, 0);
    assert Wake(s5.threads) == s5.threads;
    ReachNext(s5, c, s6);
    assert Conserved(s6);
    CompletesUnlessStale(s6, 1);
  }
}
