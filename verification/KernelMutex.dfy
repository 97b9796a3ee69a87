/**
 The kernel mutexes `sys_klock` and `sys_kunlock` on top of the wait queues.  `sys_klock` runs with interrupts off
 between calls of `schedule`; the two statements of `sys_kunlock` are separate steps, and other tasks may run between
 them.
 */
module KernelMutex {
  import opened Common
  import opened WaitQueue

  /** `lock[n]` and queue n are `kernel_mutxt_a[n]`; `unlocking[t]` is set between the statements of `sys_kunlock`;
      `holds[t]` are the mutexes task t has locked and not unlocked. */
  datatype Kernel = Kernel(q: Queues, lock: seq<bool>, unlocking: seq<Option<nat>>, holds: seq<set<nat>>)

  ghost predicate Sized(k: Kernel) {
    && Shaped(k.q) && |k.lock| == |k.q.head|
    && |k.unlocking| == |k.q.state| && |k.holds| == |k.q.state|
  }

  // ----- steps

  /** The loop test of `sys_klock` and what follows it: take the mutex, or go to sleep (again). */
  function TryLock(k: Kernel, t: nat, n: nat): Kernel
    requires IsTask(k.q, t) && n < |k.lock| && n < |k.q.head| && t < |k.holds|
  {
    if k.lock[n] then k.(q := GoToSleep(k.q, t, n, Uninterruptible))
    else k.(lock := k.lock[n := true], holds := k.holds[t := k.holds[t] + {n}])
  }

  /** `schedule` returns to a task inside `sys_klock`. */
  function ResumeLock(k: Kernel, t: nat): Kernel
    requires IsTask(k.q, t) && k.q.place[t].Asleep? && k.q.place[t].queue < |k.q.head| == |k.lock| && t < |k.holds|
  {
    var resumed := k.(q := Resume(k.q, t));
    if NotMyTurn(k.q, t) then resumed else TryLock(resumed, t, k.q.place[t].queue)
  }

  /** `kernel_mutxt_a[n].lock = 0`. */
  function Unlock(k: Kernel, t: nat, n: nat): Kernel
    requires t < |k.unlocking| && t < |k.holds| && n < |k.lock|
  {
    k.(lock := k.lock[n := false], unlocking := k.unlocking[t := Some(n)], holds := k.holds[t := k.holds[t] - {n}])
  }

  /** `wake_up(&kernel_mutxt_a[n].wait)`. */
  function FinishUnlock(k: Kernel, t: nat): Kernel
    requires t < |k.unlocking| && k.unlocking[t].Some? && k.unlocking[t].value < |k.q.head|
  {
    k.(q := WakeUp(k.q, k.unlocking[t].value), unlocking := k.unlocking[t := None])
  }

  datatype Event =
    | Klock(t: nat, n: nat)
    | Return(t: nat)
    | KunlockFirst(t: nat, n: nat)
    | KunlockSecond(t: nat)
    | Poke(t: nat)

  /** Outside every system call of this module, and on the processor. */
  ghost predicate Idle(k: Kernel, t: nat) {
    IsTask(k.q, t) && t < |k.unlocking| && Runs(k.q, t) && k.q.place[t].Awake? && k.unlocking[t].None?
  }

  ghost predicate Enabled(k: Kernel, e: Event) {
    && Sized(k)
    && match e
       case Klock(t, n) => Idle(k, t) && n < |k.lock|
       case Return(t) => IsTask(k.q, t) && Runs(k.q, t) && k.q.place[t].Asleep? && k.q.place[t].queue < |k.q.head|
       case KunlockFirst(t, n) => Idle(k, t) && n < |k.lock| && n in k.holds[t]
       case KunlockSecond(t) =>
         IsTask(k.q, t) && Runs(k.q, t) && k.unlocking[t].Some? && k.unlocking[t].value < |k.q.head|
       case Poke(t) => IsTask(k.q, t)
  }

  ghost function Step(k: Kernel, e: Event): Kernel
    requires Enabled(k, e)
  {
    match e
    case Klock(t, n) => TryLock(k, t, n)
    case Return(t) => ResumeLock(k, t)
    case KunlockFirst(t, n) => Unlock(k, t, n)
    case KunlockSecond(t) => FinishUnlock(k, t)
    case Poke(t) => k.(q := SetState(k.q, t, Running))
  }

  // ----- the invariant

  ghost predicate Holds(k: Kernel, t: nat, n: nat) { t < |k.holds| && n in k.holds[t] }

  /** A mutex is locked exactly when some task holds it, and at most one does. */
  ghost predicate LockMeansHeld(k: Kernel) {
    && (forall n :: 0 <= n < |k.lock| ==> (k.lock[n] <==> exists t :: Holds(k, t, n)))
    && (forall t: nat, t': nat, n: nat :: Holds(k, t, n) && Holds(k, t', n) ==> t == t')
    && (forall t: nat, n: nat :: Holds(k, t, n) ==> n < |k.lock|)
  }

  ghost predicate RunnableWaiter(k: Kernel, n: nat) { exists t :: Sleeps(k.q, t, n) && Runs(k.q, t) }

  ghost predicate UnlockPending(k: Kernel, n: nat) { exists t :: 0 <= t < |k.unlocking| && k.unlocking[t] == Some(n) }

  /** No lost wakeup: a free mutex with waiters has a runnable waiter or an unlock about to wake one. */
  ghost predicate NoLostWakeup(k: Kernel)
    requires Sized(k)
  {
    forall n :: 0 <= n < |k.lock| && !k.lock[n] && k.q.head[n].Some? ==> RunnableWaiter(k, n) || UnlockPending(k, n)
  }

  ghost predicate Placed(k: Kernel)
    requires Sized(k)
  {
    forall t :: 0 <= t < |k.unlocking| && k.unlocking[t].Some? ==>
      k.unlocking[t].value < |k.lock| && k.q.place[t].Awake?
  }

  ghost predicate Inv(k: Kernel, cs: seq<seq<nat>>) {
    Sized(k) && Chains(k.q, cs) && LockMeansHeld(k) && Placed(k) && NoLostWakeup(k)
  }

  ghost function StepChains(k: Kernel, cs: seq<seq<nat>>, e: Event): seq<seq<nat>>
    requires Enabled(k, e) && |cs| == |k.q.head|
  {
    match e
    case Klock(t, n) => if k.lock[n] then cs[n := [t] + cs[n]] else cs
    case Return(t) =>
      var n, popped := k.q.place[t].queue, AfterResume(k.q, cs, t);
      if !NotMyTurn(k.q, t) && k.lock[n] then popped[n := [t] + popped[n]] else popped
    case _ => cs
  }

  // ----- every step keeps it

  lemma StepKeepsChains(k: Kernel, cs: seq<seq<nat>>, e: Event)
    requires Sized(k) && Chains(k.q, cs) && Enabled(k, e)
    ensures Sized(Step(k, e)) && Chains(Step(k, e).q, StepChains(k, cs, e))
  {
    match e
    case Klock(t, n) =>
      if k.lock[n] {
        SleepPushes(k.q, cs, t, n, Uninterruptible);
      }
    case Return(t) =>
      ResumePops(k.q, cs, t);
      var n := k.q.place[t].queue;
      if !NotMyTurn(k.q, t) && k.lock[n] {
        SleepPushes(Resume(k.q, t), AfterResume(k.q, cs, t), t, n, Uninterruptible);
      }
    case KunlockFirst(t, n) =>
    case KunlockSecond(t) => StateKeepsChains(k.q, Step(k, e).q, cs);
    case Poke(t) => StateKeepsChains(k.q, Step(k, e).q, cs);
  }

  lemma AcquireKeepsHeld(k: Kernel, k': Kernel, t: nat, n: nat)
    requires LockMeansHeld(k) && t < |k.holds| && n < |k.lock| && !k.lock[n]
    requires k'.lock == k.lock[n := true] && k'.holds == k.holds[t := k.holds[t] + {n}]
    ensures LockMeansHeld(k')
  {
    assert forall s: nat :: !Holds(k, s, n);
    forall s: nat, v: nat ensures Holds(k', s, v) <==> Holds(k, s, v) || (s == t && v == n) {
    }
    forall v: nat | v < |k'.lock| ensures k'.lock[v] <==> exists s :: Holds(k', s, v) {
      if v == n {
        assert Holds(k', t, n);
      } else if k.lock[v] {
        var s :| Holds(k, s, v);
        assert Holds(k', s, v);
      }
    }
  }

  lemma ReleaseKeepsHeld(k: Kernel, k': Kernel, t: nat, n: nat)
    requires LockMeansHeld(k) && t < |k.holds| && n < |k.lock| && n in k.holds[t]
    requires k'.lock == k.lock[n := false] && k'.holds == k.holds[t := k.holds[t] - {n}]
    ensures LockMeansHeld(k')
  {
    assert Holds(k, t, n);
    forall s: nat, v: nat ensures Holds(k', s, v) <==> Holds(k, s, v) && v != n {
    }
    forall v: nat | v < |k'.lock| ensures k'.lock[v] <==> exists s :: Holds(k', s, v) {
      if v != n && k.lock[v] {
        var s :| Holds(k, s, v);
        assert Holds(k', s, v);
      }
    }
  }

  lemma StepKeepsHeld(k: Kernel, cs: seq<seq<nat>>, e: Event)
    requires Inv(k, cs) && Enabled(k, e)
    ensures LockMeansHeld(Step(k, e))
  {
    var k' := Step(k, e);
    match e
    case Klock(t, n) =>
      if !k.lock[n] {
        AcquireKeepsHeld(k, k', t, n);
      } else {
        SameHeld(k, k');
      }
    case Return(t) =>
      var n := k.q.place[t].queue;
      if !NotMyTurn(k.q, t) && !k.lock[n] {
        AcquireKeepsHeld(k, k', t, n);
      } else {
        SameHeld(k, k');
      }
    case KunlockFirst(t, n) => ReleaseKeepsHeld(k, k', t, n);
    case KunlockSecond(_) => SameHeld(k, k');
    case Poke(_) => SameHeld(k, k');
  }

  lemma SameHeld(k: Kernel, k': Kernel)
    requires LockMeansHeld(k) && k'.lock == k.lock && k'.holds == k.holds
    ensures LockMeansHeld(k')
  {
    forall s: nat, v: nat ensures Holds(k', s, v) <==> Holds(k, s, v) {
    }
    forall v: nat | v < |k'.lock| ensures k'.lock[v] <==> exists s :: Holds(k', s, v) {
      if k.lock[v] {
        var s :| Holds(k, s, v);
        assert Holds(k', s, v);
      }
    }
  }

  /** The step is about another mutex than `n`. */
  ghost predicate Elsewhere(k: Kernel, e: Event, n: nat)
    requires Enabled(k, e)
  {
    match e
    case Klock(_, m) => m != n
    case Return(t) => k.q.place[t].queue != n
    case KunlockFirst(_, m) => m != n
    case KunlockSecond(t) => k.unlocking[t].value != n
    case Poke(_) => true
  }

  lemma WaiterStays(k: Kernel, e: Event, n: nat, s: nat)
    requires Enabled(k, e) && Elsewhere(k, e, n) && Sleeps(k.q, s, n) && Runs(k.q, s)
    ensures Sleeps(Step(k, e).q, s, n) && Runs(Step(k, e).q, s)
  {
  }

  lemma PendingStays(k: Kernel, e: Event, n: nat, s: nat)
    requires Enabled(k, e) && Elsewhere(k, e, n) && s < |k.unlocking| && k.unlocking[s] == Some(n)
    ensures s < |Step(k, e).unlocking| && Step(k, e).unlocking[s] == Some(n)
  {
  }

  /** For a mutex the step is not about: its waiters keep their places, and the runnable ones stay runnable. */
  lemma OtherQueue(k: Kernel, e: Event, n: nat)
    requires Sized(k) && NoLostWakeup(k) && Enabled(k, e) && Elsewhere(k, e, n) && n < |k.lock|
    ensures var k' := Step(k, e);
            n < |k'.lock| == |k'.q.head| && !k'.lock[n] && k'.q.head[n].Some? ==>
              RunnableWaiter(k', n) || UnlockPending(k', n)
  {
    var k' := Step(k, e);
    if !k.lock[n] && k.q.head[n].Some? {
      if RunnableWaiter(k, n) {
        var s :| Sleeps(k.q, s, n) && Runs(k.q, s);
        WaiterStays(k, e, n, s);
      } else {
        var s :| 0 <= s < |k.unlocking| && k.unlocking[s] == Some(n);
        PendingStays(k, e, n, s);
      }
    }
  }

  /** The mutex the step is about. */
  lemma ThisQueue(k: Kernel, cs: seq<seq<nat>>, e: Event, n: nat)
    requires Sized(k) && Chains(k.q, cs) && Enabled(k, e) && !Elsewhere(k, e, n) && n < |k.lock|
    ensures var k' := Step(k, e);
            n < |k'.lock| == |k'.q.head| && !k'.lock[n] && k'.q.head[n].Some? ==>
              RunnableWaiter(k', n) || UnlockPending(k', n)
  {
    var k' := Step(k, e);
    assert Chain(k.q, n, cs[n]);
    if !k'.lock[n] && k'.q.head[n].Some? {
      if e.KunlockFirst? {
        assert k'.unlocking[e.t] == Some(n);
      } else {
        assert k.q.head[n].Some?;
        var h := k.q.head[n].value;
        assert Sleeps(k'.q, h, n) && Runs(k'.q, h);
      }
    }
  }

  lemma StepLosesNoWakeup(k: Kernel, cs: seq<seq<nat>>, e: Event)
    requires Inv(k, cs) && Enabled(k, e)
    ensures Sized(Step(k, e)) && NoLostWakeup(Step(k, e))
  {
    StepKeepsChains(k, cs, e);
    var k' := Step(k, e);
    forall n: nat | n < |k'.lock| && !k'.lock[n] && k'.q.head[n].Some?
      ensures RunnableWaiter(k', n) || UnlockPending(k', n)
    {
      if Elsewhere(k, e, n) {
        OtherQueue(k, e, n);
      } else {
        ThisQueue(k, cs, e, n);
      }
    }
  }

  lemma StepKeepsInv(k: Kernel, cs: seq<seq<nat>>, e: Event)
    requires Inv(k, cs) && Enabled(k, e)
    ensures Inv(Step(k, e), StepChains(k, cs, e))
  {
    StepKeepsChains(k, cs, e);
    StepKeepsHeld(k, cs, e);
    StepLosesNoWakeup(k, cs, e);
  }

  // ----- runs

  ghost predicate RunEnabled(k: Kernel, run: seq<Event>)
    decreases |run|
  {
    run == [] || (Enabled(k, run[0]) && RunEnabled(Step(k, run[0]), run[1..]))
  }

  ghost function Run(k: Kernel, run: seq<Event>): Kernel
    requires RunEnabled(k, run)
    decreases |run|
  {
    if run == [] then k else Run(Step(k, run[0]), run[1..])
  }

  lemma {:induction false} InvOverRuns(k: Kernel, cs: seq<seq<nat>>, run: seq<Event>) returns (cs': seq<seq<nat>>)
    requires Inv(k, cs) && RunEnabled(k, run)
    ensures Inv(Run(k, run), cs')
    decreases |run|
  {
    if run == [] {
      cs' := cs;
    } else {
      StepKeepsInv(k, cs, run[0]);
      cs' := InvOverRuns(Step(k, run[0]), StepChains(k, cs, run[0]), run[1..]);
    }
  }

  /** Nobody sleeps, holds or unlocks anything. */
  ghost predicate Initial(k: Kernel) {
    && Sized(k)
    && (forall t :: 0 <= t < |k.q.place| ==> k.q.place[t].Awake? && k.unlocking[t].None? && k.holds[t] == {})
    && (forall n :: 0 <= n < |k.lock| ==> !k.lock[n] && k.q.head[n].None?)
  }

  /** Mutual exclusion and no lost wakeup over every run in which only holders unlock. */
  lemma MutexSafety(k: Kernel, run: seq<Event>, n: nat)
    requires Initial(k) && RunEnabled(k, run)
    ensures var k' := Run(k, run);
            && Sized(k')
            && (forall t: nat, t': nat :: Holds(k', t, n) && Holds(k', t', n) ==> t == t')
            && (n < |k'.lock| && !k'.lock[n] && k'.q.head[n].Some? ==> RunnableWaiter(k', n) || UnlockPending(k', n))
  {
    var cs := seq(|k.q.head|, _ => []);
    forall v | 0 <= v < |cs| ensures Chain(k.q, v, cs[v]) {
    }
    var cs' := InvOverRuns(k, cs, run);
  }

  // ----- hand-over and its limits

  /** While the mutex is free every resumption of a waiter takes it, or uses up one runnable waiter behind the head and
      leaves the head runnable. */
  lemma FreeMutexIsTaken(k: Kernel, cs: seq<seq<nat>>, t: nat)
    requires Inv(k, cs) && Enabled(k, Event.Return(t)) && !k.lock[k.q.place[t].queue]
    ensures var n := k.q.place[t].queue; var c := cs[n]; var k' := Step(k, Event.Return(t));
            if c != [] && c[0] == t then k'.lock[n] && Holds(k', t, n)
            else
              && c != [] && Chain(k'.q, n, c) && Runs(k'.q, c[0])
              && RunnableIn(k'.q, c[1..]) == RunnableIn(k.q, c[1..]) - 1
  {
    var n := k.q.place[t].queue;
    var c := cs[n];
    assert Chain(k.q, n, c) && Sleeps(k.q, t, n);
    if c[0] != t {
      HandOver(k.q, n, c, t);
      StepKeepsChains(k, cs, Event.Return(t));
      assert StepChains(k, cs, Event.Return(t))[n] == c;
    }
  }

  /** A locked mutex stops the task, uninterruptibly, and nobody else's state changes but that of the next in line when
      a waiter finds the mutex locked again. */
  lemma LockedStops(k: Kernel, e: Event, n: nat, s: nat)
    requires Enabled(k, e) && n < |k.lock| && k.lock[n] && IsTask(k.q, s)
    requires e == Klock(e.t, n) || (e.Return? && k.q.place[e.t].queue == n)
    ensures var k' := Step(k, e);
            && IsTask(k'.q, e.t) && k'.q.state[e.t] == Uninterruptible && k'.q.place[e.t].Asleep?
            && IsTask(k'.q, s) && (s != e.t ==>
                 k'.q.state[s] == k.q.state[s]
                 || (e.Return? && k'.q.state[s] == Running && Some(s) in {k.q.head[n], k.q.place[e.t].tmp}))
  {
  }

  function Tail(c: seq<nat>): seq<nat> { if c == [] then [] else c[1..] }

  lemma TailStates(q: Queues, q': Queues, c: seq<nat>)
    requires forall i :: 0 <= i < |c| ==> (Runs(q', c[i]) <==> Runs(q, c[i]))
    ensures RunnableIn(q', Tail(c)) == RunnableIn(q, Tail(c))
  {
    forall i | 0 <= i < |Tail(c)| ensures Runs(q', Tail(c)[i]) <==> Runs(q, Tail(c)[i]) {
      assert Tail(c)[i] == c[i + 1];
    }
    SameStatesSameCount(q, q', Tail(c));
  }

  lemma TailPoked(q: Queues, c: seq<nat>, t: nat)
    requires NoRepeats(c)
    ensures RunnableIn(SetState(q, t, Running), Tail(c)) <= RunnableIn(q, Tail(c)) + 1
  {
    var q', tail := SetState(q, t, Running), Tail(c);
    if k :| 0 <= k < |tail| && tail[k] == t {
      OneStateChanges(q, q', tail, k);
    } else {
      SameStatesSameCount(q, q', tail);
    }
  }

  /** Does this event resume a waiter of mutex `n`? */
  ghost predicate Resumes(k: Kernel, e: Event, n: nat) { e.Return? && Sleeps(k.q, e.t, n) }

  lemma ElsewhereStates(k: Kernel, cs: seq<seq<nat>>, e: Event, n: nat)
    requires Inv(k, cs) && Enabled(k, e) && n < |k.lock| && Elsewhere(k, e, n) && !e.Poke?
    ensures StepChains(k, cs, e)[n] == cs[n]
    ensures forall i :: 0 <= i < |cs[n]| ==> (Runs(Step(k, e).q, cs[n][i]) <==> Runs(k.q, cs[n][i]))
  {
    assert Chain(k.q, n, cs[n]);
    match e
    case Klock(t, m) =>
      if k.lock[m] {
        OthersKeepStates(k.q, cs, WaitQueue.Event.Enter(t, m, Uninterruptible), n);
      }
    case Return(t) =>
      OthersKeepStates(k.q, cs, WaitQueue.Event.Return(t), n);
      assert t !in cs[n];
    case KunlockFirst(_, _) =>
    case KunlockSecond(t) => OthersKeepStates(k.q, cs, WaitQueue.Event.Wake(k.unlocking[t].value), n);
  }

  /** A step that finds and leaves the mutex free: the list of waiters is the same, and a resumption has used up one
      runnable waiter behind the head. */
  lemma FreeStep(k: Kernel, cs: seq<seq<nat>>, e: Event, n: nat)
    requires Inv(k, cs) && Enabled(k, e) && n < |k.lock| && !k.lock[n]
    ensures var k' := Step(k, e);
            n < |k'.lock| && !k'.lock[n] ==>
              && StepChains(k, cs, e)[n] == cs[n]
              && RunnableIn(k'.q, Tail(cs[n])) + (if Resumes(k, e, n) then 1 else 0)
                 <= RunnableIn(k.q, Tail(cs[n])) + if e.Poke? then 1 else 0
  {
    var k' := Step(k, e);
    assert Chain(k.q, n, cs[n]);
    if e.Poke? {
      TailPoked(k.q, cs[n], e.t);
    } else if Elsewhere(k, e, n) {
      ElsewhereStates(k, cs, e, n);
      TailStates(k.q, k'.q, cs[n]);
    } else if e.Return? {
      FreeMutexIsTaken(k, cs, e.t);
    } else if e.KunlockSecond? {
      WakeHead(k.q, n, cs[n]);
    }
  }

  /** The mutex is free in every state of the run. */
  ghost predicate FreeThroughout(k: Kernel, run: seq<Event>, n: nat)
    requires RunEnabled(k, run)
    decreases |run|
  {
    n < |k.lock| && !k.lock[n] && (run == [] || FreeThroughout(Step(k, run[0]), run[1..], n))
  }

  ghost function Resumptions(k: Kernel, run: seq<Event>, n: nat): nat
    requires RunEnabled(k, run)
    decreases |run|
  {
    if run == [] then 0 else (if Resumes(k, run[0], n) then 1 else 0) + Resumptions(Step(k, run[0]), run[1..], n)
  }

  ghost function Pokes(run: seq<Event>): nat {
    if run == [] then 0 else (if run[0].Poke? then 1 else 0) + Pokes(run[1..])
  }

  /** A free mutex is taken: over every run in which it stays free, its waiters are resumed at most as often as there
      are runnable ones behind the head (plus one for each poke).  One resumption more, and somebody has taken it. */
  lemma {:induction false} FreeRunIsShort(k: Kernel, cs: seq<seq<nat>>, run: seq<Event>, n: nat)
    requires Inv(k, cs) && RunEnabled(k, run) && FreeThroughout(k, run, n)
    ensures Resumptions(k, run, n) <= RunnableIn(k.q, Tail(cs[n])) + Pokes(run)
    decreases |run|
  {
    if run != [] {
      FreeStep(k, cs, run[0], n);
      StepKeepsInv(k, cs, run[0]);
      FreeRunIsShort(Step(k, run[0]), StepChains(k, cs, run[0]), run[1..], n);
    }
  }

  /** `sys_kunlock` does not ask who calls it: clearing the lock keeps "locked exactly when held" if and only if no
      other task holds the mutex. */
  lemma UnlockSafeIff(k: Kernel, t: nat, n: nat)
    requires LockMeansHeld(k) && t < |k.unlocking| && t < |k.holds| && n < |k.lock|
    ensures LockMeansHeld(Unlock(k, t, n)) <==> forall s: nat :: s != t ==> !Holds(k, s, n)
  {
    var k' := Unlock(k, t, n);
    forall s: nat, v: nat ensures Holds(k', s, v) <==> Holds(k, s, v) && !(s == t && v == n) {
    }
    if s: nat :| s != t && Holds(k, s, n) {
      assert Holds(k', s, n) && !k'.lock[n];
    } else if n in k.holds[t] {
      ReleaseKeepsHeld(k, k', t, n);
    } else {
      assert !k.lock[n] && k.holds[t] - {n} == k.holds[t];
      SameHeld(k, k');
    }
  }

  /** Otherwise the next `sys_klock` gives the mutex a second owner. */
  lemma StrayUnlockBreaksExclusion(k: Kernel, owner: nat, t: nat, s: nat, n: nat)
    requires Sized(k) && n < |k.lock| && Holds(k, owner, n) && owner != t && s != owner
    requires IsTask(k.q, t) && IsTask(k.q, s)
    ensures var k' := TryLock(Unlock(k, t, n), s, n); Holds(k', owner, n) && Holds(k', s, n)
  {
  }
}
