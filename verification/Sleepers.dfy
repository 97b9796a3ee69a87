/** What every event of the wait queues does to the states of tasks, and when a sleeper becomes runnable. */
module Sleepers {
  import opened Common
  import opened WaitQueue

  /** What every event does to the state of every task. */
  lemma StepStates(q: Queues, e: Event, s: nat)
    requires Shaped(q) && Enabled(q, e) && IsTask(q, s)
    ensures IsTask(Step(q, e), s)
    ensures Step(q, e).state[s] ==
            match e
            case Enter(t, _, how) => if s == t then how else q.state[s]
            case Return(t) =>
              var h, tmp := q.head[q.place[t].queue], q.place[t].tmp;
              if h.Some? && h.value != t then
                if s == t then Uninterruptible else if h.value == s then Running else q.state[s]
              else if tmp == Some(s) then Running else q.state[s]
            case Wake(w) => if q.head[w] == Some(s) then Running else q.state[s]
            case Poke(t) => if s == t then Running else q.state[s]
  {
  }

  /** The event makes task `t` runnable: it is the head that is woken, it is poked, or another task that resumes hands
      over to it, as the head or as the next in line. */
  ghost predicate Wakens(q: Queues, e: Event, t: nat)
    requires Enabled(q, e)
  {
    match e
    case Enter(_, _, _) => false
    case Return(s) =>
      var h := q.head[q.place[s].queue];
      if h.Some? && h.value != s then h.value == t else q.place[s].tmp == Some(t)
    case Wake(w) => q.head[w] == Some(t)
    case Poke(s) => s == t
  }

  /** Has task `t` been made runnable since it last went to sleep?  `reached` says so for the start of the run. */
  ghost predicate Reached(q: Queues, run: seq<Event>, t: nat, reached: bool)
    requires RunEnabled(q, run)
    decreases |run|
  {
    if run == [] then reached
    else
      var e := run[0];
      Reached(Step(q, e), run[1..], t, !((e.Enter? || e.Return?) && e.t == t) && (reached || Wakens(q, e, t)))
  }

  /** Nobody goes to sleep in state TASK_RUNNING. */
  ghost predicate GoesToSleep(run: seq<Event>) { forall i :: 0 <= i < |run| && run[i].Enter? ==> run[i].how != Running }

  /** Over every run a sleeper is runnable if and only if it has been made so since it last went to sleep. */
  lemma {:induction false} SleepersAreStill(q: Queues, run: seq<Event>, t: nat, reached: bool)
    requires Shaped(q) && IsTask(q, t) && RunEnabled(q, run) && GoesToSleep(run)
    requires q.place[t].Asleep? ==> (Runs(q, t) <==> reached)
    ensures IsTask(Run(q, run), t)
    ensures Run(q, run).place[t].Asleep? ==> (Runs(Run(q, run), t) <==> Reached(q, run, t, reached))
    decreases |run|
  {
    if run != [] {
      var e := run[0];
      StepStates(q, e, t);
      forall i | 0 <= i < |run[1..]| && run[1..][i].Enter? ensures run[1..][i].how != Running {
        assert run[1..][i] == run[i + 1];
      }
      SleepersAreStill(Step(q, e), run[1..], t,
                       !((e.Enter? || e.Return?) && e.t == t) && (reached || Wakens(q, e, t)));
    }
  }
}
