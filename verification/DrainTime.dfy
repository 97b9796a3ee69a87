/**
 How long a queue takes to drain.  Tasks act, call `schedule`, and the scheduler goes round: once one waiter of a queue
 is runnable and nobody new arrives, 64 calls of `schedule` for each unit of potential empty it.
 */
module DrainTime {
  import opened Common
  import opened WaitQueue
  import RoundRobin

  /** `task` and its states, all slots; task 0 is runnable and never sleeps. */
  ghost predicate Ready(q: Queues) {
    |q.state| == |q.place| == NR_TASKS && Runs(q, 0) && q.place[0].Awake?
  }

  function TableOf(q: Queues): RoundRobin.Table
    requires |q.state| == NR_TASKS
  {
    seq(NR_TASKS, k requires 0 <= k < NR_TASKS => q.state[k] == Running)
  }

  datatype Machine = Machine(q: Queues, current: nat)

  /** What happens between two calls of `schedule`: anything but a return from `__sleep_on`. */
  ghost predicate Deeds(deeds: seq<Event>, w: nat) {
    forall i :: 0 <= i < |deeds| ==> !deeds[i].Return? && !(deeds[i].Enter? && deeds[i].w == w)
  }

  /** A call of `schedule`: the next task runs, and goes on in `__sleep_on` if that is where it was. */
  ghost function Schedule(q: Queues, current: nat): Machine
    requires Ready(q) && current < NR_TASKS
  {
    var next := RoundRobin.Next(TableOf(q), current);
    Machine(if q.place[next].Asleep? && q.place[next].queue < |q.head| then Resume(q, next) else q, next)
  }

  /** One turn: deeds of whoever is current, then a call. */
  ghost predicate TurnOk(s: Machine, deeds: seq<Event>, w: nat) {
    && s.current < NR_TASKS && Deeds(deeds, w) && RunEnabled(s.q, deeds) && Ready(Run(s.q, deeds))
  }

  ghost function Turn(s: Machine, deeds: seq<Event>, w: nat): Machine
    requires TurnOk(s, deeds, w)
  {
    Schedule(Run(s.q, deeds), s.current)
  }

  ghost predicate TurnsOk(s: Machine, turns: seq<seq<Event>>, w: nat)
    decreases |turns|
  {
    turns == [] || (TurnOk(s, turns[0], w) && TurnsOk(Turn(s, turns[0], w), turns[1..], w))
  }

  ghost function After(s: Machine, turns: seq<seq<Event>>, w: nat): Machine
    requires TurnsOk(s, turns, w)
    decreases |turns|
  {
    if turns == [] then s else After(Turn(s, turns[0], w), turns[1..], w)
  }

  ghost function PokesIn(turns: seq<seq<Event>>): nat {
    if turns == [] then 0 else Pokes(turns[0]) + PokesIn(turns[1..])
  }

  // ----- the deeds of a turn

  /** Who is in the queue, and who of them can run, is kept. */
  ghost predicate Waits(q: Queues, q': Queues, c: seq<nat>) {
    forall i :: 0 <= i < |c| && Runs(q, c[i]) ==> Runs(q', c[i])
  }

  lemma DeedKeeps(q: Queues, cs: seq<seq<nat>>, e: Event, w: nat)
    requires Chains(q, cs) && Enabled(q, e) && w < |cs| && !e.Return? && !(e.Enter? && e.w == w)
    ensures Chains(Step(q, e), StepChains(q, cs, e)) && StepChains(q, cs, e)[w] == cs[w] && Waits(q, Step(q, e), cs[w])
  {
    StepKeepsChains(q, cs, e);
    assert Chain(q, w, cs[w]);
    if e.Enter? {
      assert e.t !in cs[w];
    }
  }

  lemma {:induction false} DeedsKeep(q: Queues, cs: seq<seq<nat>>, deeds: seq<Event>, w: nat)
      returns (cs': seq<seq<nat>>)
    requires Chains(q, cs) && RunEnabled(q, deeds) && w < |cs| && Deeds(deeds, w) && Live(q, cs[w])
    ensures Chains(Run(q, deeds), cs') && w < |cs'| && cs'[w] == cs[w] && Waits(q, Run(q, deeds), cs[w])
    ensures Live(Run(q, deeds), cs[w]) && Potential(Run(q, deeds), cs[w]) <= Potential(q, cs[w]) + Pokes(deeds)
    decreases |deeds|
  {
    if deeds == [] {
      cs' := cs;
    } else {
      var e, q1 := deeds[0], Step(q, deeds[0]);
      DeedKeeps(q, cs, e, w);
      DrainStep(q, cs, e, w);
      forall i | 0 <= i < |deeds[1..]|
        ensures !deeds[1..][i].Return? && !(deeds[1..][i].Enter? && deeds[1..][i].w == w)
      {
        assert deeds[1..][i] == deeds[i + 1];
      }
      cs' := DeedsKeep(q1, StepChains(q, cs, e), deeds[1..], w);
    }
  }

  // ----- the call of schedule

  /** How many calls a runnable task may have to wait for its turn. */
  function Wait(current: nat, t: nat): nat
    requires current < NR_TASKS && t < NR_TASKS
  {
    if t == current then NR_TASKS else RoundRobin.Distance(current, t)
  }

  lemma NextRuns(q: Queues, current: nat)
    requires Ready(q) && current < NR_TASKS
    ensures var next := RoundRobin.Next(TableOf(q), current); Runs(q, next) || q.place[next].Awake?
  {
    RoundRobin.NextIsFirst(TableOf(q), current);
    assert TableOf(q)[0];
  }

  /** A runnable task that is not chosen has come nearer. */
  lemma Nearer(q: Queues, current: nat, t: nat)
    requires |q.state| == NR_TASKS && current < NR_TASKS && t < NR_TASKS && Runs(q, t)
    ensures var next := RoundRobin.Next(TableOf(q), current);
            && next < NR_TASKS
            && (next != t ==> 1 <= Wait(next, t) < Wait(current, t))
  {
    var next := RoundRobin.Next(TableOf(q), current);
    assert TableOf(q)[t];
    if next != t {
      if t != current {
        RoundRobin.NextBefore(TableOf(q), current, t);
        RoundRobin.DistanceShrinks(current, next, t);
      }
      RoundRobin.DistanceFacts(next, t);
    }
  }

  /** A call resumes a waiter of queue `w`, which uses up one unit of potential, or leaves the queue as it was. */
  lemma CallSteps(q: Queues, cs: seq<seq<nat>>, current: nat, w: nat) returns (cs': seq<seq<nat>>)
    requires Ready(q) && Chains(q, cs) && current < NR_TASKS && w < |cs| && Live(q, cs[w])
    ensures var s := Schedule(q, current);
            && Chains(s.q, cs') && w < |cs'| && Live(s.q, cs'[w])
            && if Sleeps(q, s.current, w) then Potential(s.q, cs'[w]) <= Potential(q, cs[w]) - 1
               else Potential(s.q, cs'[w]) <= Potential(q, cs[w]) && cs'[w] == cs[w] && Waits(q, s.q, cs[w])
  {
    var next := RoundRobin.Next(TableOf(q), current);
    NextRuns(q, current);
    cs' := cs;
    if q.place[next].Asleep? {
      var e := Event.Return(next);
      StepKeepsChains(q, cs, e);
      DrainStep(q, cs, e, w);
      cs' := StepChains(q, cs, e);
      if !Sleeps(q, next, w) {
        OthersKeepStates(q, cs, e, w);
      }
    }
  }

  /** `calls` calls are enough: 64 for each unit of potential, the first unit's waiter being `t`. */
  ghost predicate Enough(q: Queues, current: nat, c: seq<nat>, calls: int, t: nat) {
    current < NR_TASKS && t in c && t < NR_TASKS && Runs(q, t) && calls + 64 >= 64 * Potential(q, c) + Wait(current, t)
  }

  lemma SomeWaiter(q: Queues, cs: seq<seq<nat>>, w: nat, current: nat, calls: int) returns (t: nat)
    requires Chains(q, cs) && |q.state| == NR_TASKS && w < |cs| && cs[w] != [] && Live(q, cs[w]) && current < NR_TASKS
    requires calls >= 64 * Potential(q, cs[w])
    ensures Enough(q, current, cs[w], calls, t)
  {
    var k :| 0 <= k < |cs[w]| && Runs(q, cs[w][k]);
    assert Chain(q, w, cs[w]);
    t := cs[w][k];
  }

  /** One call uses up 64 calls' worth of potential, or brings the waiter one call nearer. */
  lemma CallCounts(q: Queues, cs: seq<seq<nat>>, current: nat, w: nat, calls: int, t: nat)
      returns (cs': seq<seq<nat>>, t': nat)
    requires Ready(q) && Chains(q, cs) && w < |cs| && Live(q, cs[w]) && Enough(q, current, cs[w], calls, t)
    ensures var s := Schedule(q, current);
            && Chains(s.q, cs') && w < |cs'| && Live(s.q, cs'[w])
            && (cs'[w] == [] || Enough(s.q, s.current, cs'[w], calls - 1, t'))
  {
    var s, c := Schedule(q, current), cs[w];
    var k :| 0 <= k < |c| && c[k] == t;
    cs' := CallSteps(q, cs, current, w);
    t' := t;
    Nearer(q, current, t);
    if !Sleeps(q, s.current, w) {
      assert Chain(q, w, c);
      assert Runs(s.q, c[k]);
    } else if cs'[w] != [] {
      WaitAtLeast1(current, t);
      t' := SomeWaiter(s.q, cs', w, s.current, calls - 1);
    }
  }

  lemma WaitAtLeast1(current: nat, t: nat)
    requires current < NR_TASKS && t < NR_TASKS
    ensures Wait(current, t) >= 1
  {
    RoundRobin.DistanceFacts(current, t);
  }

  lemma {:induction false} StaysEmpty(s: Machine, cs: seq<seq<nat>>, turns: seq<seq<Event>>, w: nat)
    requires Chains(s.q, cs) && TurnsOk(s, turns, w) && w < |cs| && cs[w] == []
    ensures w < |After(s, turns, w).q.head| && After(s, turns, w).q.head[w] == None
    decreases |turns|
  {
    assert Chain(s.q, w, cs[w]);
    if turns != [] {
      var cs1 := DeedsKeep(s.q, cs, turns[0], w);
      var cs2 := CallSteps(Run(s.q, turns[0]), cs1, s.current, w);
      assert Chain(Run(s.q, turns[0]), w, []);
      StaysEmpty(Turn(s, turns[0], w), cs2, turns[1..], w);
    }
  }

  lemma {:induction false} DrainsFrom(s: Machine, cs: seq<seq<nat>>, turns: seq<seq<Event>>, w: nat, t: nat)
    requires Chains(s.q, cs) && TurnsOk(s, turns, w) && w < |cs| && Live(s.q, cs[w])
    requires Enough(s.q, s.current, cs[w], |turns| - 64 * PokesIn(turns), t)
    ensures w < |After(s, turns, w).q.head| && After(s, turns, w).q.head[w] == None
    decreases |turns|
  {
    assert Potential(s.q, cs[w]) >= 1;
    WaitAtLeast1(s.current, t);
    var q1, s' := Run(s.q, turns[0]), Turn(s, turns[0], w);
    var cs1 := DeedsKeep(s.q, cs, turns[0], w);
    var k :| 0 <= k < |cs[w]| && cs[w][k] == t;
    assert Runs(q1, cs[w][k]);
    var cs', t' := CallCounts(q1, cs1, s.current, w, |turns| - 64 * PokesIn(turns[1..]), t);
    if cs'[w] == [] {
      StaysEmpty(s', cs', turns[1..], w);
    } else {
      DrainsFrom(s', cs', turns[1..], w, t');
    }
  }

  /** Whatever tasks do in between, 64 calls of `schedule` for each unit of potential and each poke empty the queue. */
  lemma DrainsInTime(s: Machine, cs: seq<seq<nat>>, turns: seq<seq<Event>>, w: nat)
    requires Chains(s.q, cs) && |s.q.state| == NR_TASKS && s.current < NR_TASKS && TurnsOk(s, turns, w) && w < |cs|
    requires Live(s.q, cs[w]) && |turns| >= 64 * (Potential(s.q, cs[w]) + PokesIn(turns))
    ensures w < |After(s, turns, w).q.head| && After(s, turns, w).q.head[w] == None
  {
    if cs[w] == [] {
      StaysEmpty(s, cs, turns, w);
    } else {
      var t := SomeWaiter(s.q, cs, w, s.current, |turns| - 64 * PokesIn(turns));
      DrainsFrom(s, cs, turns, w, t);
    }
  }
}
