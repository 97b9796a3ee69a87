/** The scheduler, wait-queue and mutex routines in place, on one record per task slot. */
module Scheduler {
  import opened Common
  import opened WaitQueue
  import Mutex = KernelMutex
  import RoundRobin

  /** A pointer to a task structure is its slot: structures are never moved or freed. */
  class Kernel {
    const used: array<bool>               // task[k] != NULL
    const state: array<TaskState>
    const place: array<Place>             // where the task is in __sleep_on, with its saved tmp
    const wait: array<Option<nat>>        // kernel_mutxt_a[n].wait
    const lock: array<bool>               // kernel_mutxt_a[n].lock
    const unlocking: array<Option<nat>>
    const holds: array<set<nat>>
    var current: nat

    ghost predicate Valid()
      reads this
    {
      && used.Length == state.Length == place.Length == unlocking.Length == holds.Length == NR_TASKS
      && wait.Length == lock.Length && current < NR_TASKS
      && used != lock && wait as object != unlocking as object
    }

    ghost function K(): Mutex.Kernel
      requires Valid()
      reads this, used, state, place, wait, lock, unlocking, holds
    {
      Mutex.Kernel(Queues(state[..], place[..], wait[..]), lock[..], unlocking[..], holds[..])
    }

    /** `runnable` is the table of occupied slots in state TASK_RUNNING. */
    ghost predicate Shows(runnable: RoundRobin.Table)
      requires used.Length == state.Length == NR_TASKS
      reads used, state
    {
      forall k :: 0 <= k < NR_TASKS ==> (runnable[k] <==> used[k] && state[k] == Running)
    }

    /** `i % NR_TASKS` */
    method SlotNumber(i: nat, ghost current: nat, ghost offset: nat) returns (k: nat)
      requires current < NR_TASKS && 1 <= offset <= NR_TASKS && i == current + offset
      ensures k == RoundRobin.SlotAt(current, offset) < NR_TASKS && (k == current <==> offset == NR_TASKS)
    {
      RoundRobin.SlotIsModulo(current, offset);
      RoundRobin.CycleCloses(current, offset);
      k := i % 64;
    }

    /** `schedule`: find the slot of the current task, then scan forward for a runnable one. */
    method Schedule(ghost runnable: RoundRobin.Table)
      requires Valid() && Shows(runnable)
      modifies this`current
      ensures Valid() && current == RoundRobin.Next(runnable, old(current))
    {
      var i := 0;
      while i != current
        invariant 0 <= i <= current
      {
        i := i + 1;
      }
      i := i + 1;
      ghost var offset := 1;
      while true
        invariant 1 <= offset <= NR_TASKS && i == current + offset && current == old(current)
        invariant RoundRobin.Next(runnable, current) == RoundRobin.Scan(runnable, current, offset)
        decreases NR_TASKS - offset
      {
        var k := SlotNumber(i, current, offset);
        if k == current {
          return;
        }
        if used[k] && state[k] == Running {
          current := k;
          return;
        }
        i, offset := i + 1, offset + 1;
      }
    }

    /** `__sleep_on` up to its first `schedule`, by the current task; task 0 panics instead. */
    method GoToSleep(w: nat, how: TaskState) returns (panicked: bool)
      requires Valid() && w < wait.Length
      modifies state, place, wait
      ensures panicked == (current == 0)
      ensures K().q == if panicked then old(K().q) else WaitQueue.GoToSleep(old(K().q), current, w, how)
    {
      if current == 0 {
        return true;
      }
      var tmp := wait[w];
      wait[w] := Some(current);
      state[current] := how;
      place[current] := Asleep(w, tmp);
      panicked := false;
    }

    /** `__sleep_on` each time `schedule` returns; `again` means it goes round to `schedule`. */
    method Resume() returns (again: bool, warned: bool)
      requires Valid() && place[current].Asleep? && place[current].queue < wait.Length
      requires forall p :: p in {wait[place[current].queue], place[current].tmp} && p.Some? ==> p.value < state.Length
      modifies state, place, wait
      ensures K().q == WaitQueue.Resume(old(K().q), current)
      ensures again == NotMyTurn(old(K().q), current) && warned == Warns(old(K().q), current)
    {
      var w, tmp := place[current].queue, place[current].tmp;
      warned := false;
      if wait[w].Some? && wait[w].value != current {
        state[wait[w].value] := Running;
        state[current] := Uninterruptible;
        return true, false;
      }
      if wait[w].None? {
        warned := true;
      }
      wait[w] := tmp;
      if tmp.Some? {
        state[tmp.value] := Running;
      }
      place[current] := Awake;
      again := false;
    }

    /** `wake_up`. */
    method WakeUp(w: nat)
      requires Valid() && w < wait.Length && (wait[w].Some? ==> wait[w].value < state.Length)
      modifies state
      ensures K().q == WaitQueue.WakeUp(old(K().q), w)
    {
      if wait[w].Some? {
        state[wait[w].value] := Running;
      }
    }

    /** The loop test of `sys_klock`, up to `schedule` or the end of the call; task 0 panics at a locked mutex. */
    method TryLock(n: nat) returns (panicked: bool)
      requires Valid() && n < lock.Length
      modifies state, place, wait, lock, holds
      ensures panicked == (current == 0 && old(lock[n]))
      ensures K() == if panicked then old(K()) else Mutex.TryLock(old(K()), current, n)
    {
      panicked := false;
      if lock[n] {
        panicked := GoToSleep(n, Uninterruptible);
      } else {
        lock[n] := true;
        holds[current] := holds[current] + {n};
      }
    }

    /** `schedule` returns to a task inside `sys_klock`, which is never task 0. */
    method ResumeLock()
      requires Valid() && current != 0 && place[current].Asleep? && place[current].queue < wait.Length
      requires forall p :: p in {wait[place[current].queue], place[current].tmp} && p.Some? ==> p.value < state.Length
      modifies state, place, wait, lock, holds
      ensures K() == Mutex.ResumeLock(old(K()), current)
    {
      var n := place[current].queue;
      var again, _ := Resume();
      if !again {
        var panicked := TryLock(n);
      }
    }

    /** First statement of `sys_kunlock`. */
    method Unlock(n: nat)
      requires Valid() && n < lock.Length
      modifies lock, unlocking, holds
      ensures K() == Mutex.Unlock(old(K()), current, n)
    {
      lock[n] := false;
      unlocking[current] := Some(n);
      holds[current] := holds[current] - {n};
    }

    /** Second statement of `sys_kunlock`. */
    method FinishUnlock()
      requires Valid() && unlocking[current].Some? && unlocking[current].value < wait.Length
      requires var h := wait[unlocking[current].value]; h.Some? ==> h.value < state.Length
      modifies state, unlocking
      ensures K() == Mutex.FinishUnlock(old(K()), current)
    {
      WakeUp(unlocking[current].value);
      unlocking[current] := None;
    }
  }
}
