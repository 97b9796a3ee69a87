/** The round-robin choice of `schedule` and how long a runnable task can wait for it. */
module RoundRobin {
  import opened Common

  /** `runnable[k]` says that slot k is occupied by a task in state TASK_RUNNING. */
  type Table = r: seq<bool> | |r| == NR_TASKS witness seq(NR_TASKS, _ => false)

  /** The slot `offset` places after `current`, cyclically. */
  function SlotAt(current: nat, offset: nat): nat
    requires current < NR_TASKS && offset <= NR_TASKS
  {
    if current + offset < NR_TASKS then current + offset else current + offset - NR_TASKS
  }

  /** It is what `i % NR_TASKS` computes; the divisor is written out for the solver's sake. */
  lemma SlotIsModulo(current: nat, offset: nat)
    requires current < NR_TASKS && offset <= NR_TASKS
    ensures (current + offset) % 64 == SlotAt(current, offset)
  {
  }

  /** The scan from `offset` on: the first runnable slot, or `current` when the scan comes round to it. */
  function Scan(runnable: Table, current: nat, offset: nat): (k: nat)
    requires current < NR_TASKS && 1 <= offset <= NR_TASKS
    ensures k < NR_TASKS
    decreases NR_TASKS - offset
  {
    if offset == NR_TASKS then current
    else if runnable[SlotAt(current, offset)] then SlotAt(current, offset)
    else Scan(runnable, current, offset + 1)
  }

  function Next(runnable: Table, current: nat): nat
    requires current < NR_TASKS
  {
    Scan(runnable, current, 1)
  }

  function Distance(from: nat, to: nat): nat
    requires from < NR_TASKS && to < NR_TASKS
  {
    if to >= from then to - from else to - from + NR_TASKS
  }

  lemma {:induction false} ScanFindsFirst(runnable: Table, current: nat, offset: nat)
    requires current < NR_TASKS && 1 <= offset <= NR_TASKS
    requires forall j :: 1 <= j < offset ==> !runnable[SlotAt(current, j)]
    ensures var k := Scan(runnable, current, offset);
            if k == current then forall j :: 1 <= j < NR_TASKS ==> !runnable[SlotAt(current, j)]
            else runnable[k] && forall j :: 1 <= j < Distance(current, k) ==> !runnable[SlotAt(current, j)]
    decreases NR_TASKS - offset
  {
    if offset < NR_TASKS {
      var k := SlotAt(current, offset);
      assert k != current && Distance(current, k) == offset;
      if !runnable[k] {
        ScanFindsFirst(runnable, current, offset + 1);
      }
    }
  }

  lemma DistanceFacts(current: nat, t: nat)
    requires current < NR_TASKS && t < NR_TASKS
    ensures SlotAt(current, Distance(current, t)) == t && Distance(current, t) < NR_TASKS
    ensures t != current ==> 1 <= Distance(current, t)
  {
  }

  lemma CycleCloses(current: nat, offset: nat)
    requires current < NR_TASKS && 1 <= offset <= NR_TASKS
    ensures SlotAt(current, offset) == current <==> offset == NR_TASKS
  {
  }

  /** A runnable task other than the current one is not overtaken by anybody farther away. */
  lemma NextBefore(runnable: Table, current: nat, t: nat)
    requires current < NR_TASKS && t < NR_TASKS && runnable[t] && t != current
    ensures var k := Next(runnable, current);
            k != current && runnable[k] && Distance(current, k) <= Distance(current, t)
  {
    ScanFindsFirst(runnable, current, 1);
    DistanceFacts(current, t);
    var d := Distance(current, t);
    assert runnable[SlotAt(current, d)];
  }

  /** `schedule` switches to the first runnable task after the current one, and stays only when there is no other. */
  lemma NextIsFirst(runnable: Table, current: nat)
    requires current < NR_TASKS
    ensures var k := Next(runnable, current);
            && (k == current <==> forall t :: 0 <= t < NR_TASKS && runnable[t] ==> t == current)
            && (k != current ==> runnable[k])
            && (forall t :: 0 <= t < NR_TASKS && runnable[t] && t != current ==>
                 Distance(current, k) <= Distance(current, t))
  {
    var k := Next(runnable, current);
    ScanFindsFirst(runnable, current, 1);
    forall t | 0 <= t < NR_TASKS && runnable[t] && t != current
      ensures k != current && Distance(current, k) <= Distance(current, t)
    {
      NextBefore(runnable, current, t);
    }
  }

  /** While task 0 is runnable, a call by any other task gives the processor away, and to a runnable task: a task is
      resumed only in state TASK_RUNNING. */
  lemma ResumesRunnable(runnable: Table, current: nat)
    requires runnable[0] && 0 < current < NR_TASKS
    ensures Next(runnable, current) != current && runnable[Next(runnable, current)]
  {
    NextBefore(runnable, current, 0);
  }

  /** The current slot after `j` calls, when the calls see the tables `tables`. */
  ghost function After(tables: seq<Table>, current: nat, j: nat): nat
    requires current < NR_TASKS && j <= |tables|
    ensures After(tables, current, j) < NR_TASKS
  {
    if j == 0 then current else Next(tables[j - 1], After(tables, current, j - 1))
  }

  lemma {:induction false} AfterShift(tables: seq<Table>, current: nat, j: nat)
    requires current < NR_TASKS && tables != [] && j < |tables|
    ensures After(tables[1..], Next(tables[0], current), j) == After(tables, current, j + 1)
  {
    if j > 0 {
      AfterShift(tables, current, j - 1);
      assert tables[1..][j - 1] == tables[j];
    } else {
      assert After(tables, current, 0) == current;
    }
  }

  /** Bounded wait: a task runnable at every call is current after at most (its slot - current slot) mod 64 calls,
      whatever the other tasks do in between. */
  lemma {:induction false} BoundedWait(tables: seq<Table>, current: nat, t: nat) returns (j: nat)
    requires current < NR_TASKS && t < NR_TASKS && Distance(current, t) <= |tables|
    requires forall i :: 0 <= i < |tables| ==> tables[i][t]
    ensures j <= Distance(current, t) && After(tables, current, j) == t
    decreases Distance(current, t)
  {
    DistanceFacts(current, t);
    if current == t {
      j := 0;
    } else {
      var k := Next(tables[0], current);
      NextBefore(tables[0], current, t);
      DistanceShrinks(current, k, t);
      forall i | 0 <= i < |tables[1..]| ensures tables[1..][i][t] {
        assert tables[1..][i] == tables[i + 1];
      }
      var i := BoundedWait(tables[1..], k, t);
      AfterShift(tables, current, i);
      j := i + 1;
    }
  }

  lemma DistanceShrinks(current: nat, k: nat, t: nat)
    requires current < NR_TASKS && k < NR_TASKS && t < NR_TASKS && k != current && t != current
    requires Distance(current, k) <= Distance(current, t)
    ensures Distance(k, t) == Distance(current, t) - Distance(current, k) && Distance(current, k) >= 1
  {
  }
}
