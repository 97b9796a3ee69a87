/**
 Sleeping and waking (`kernel/sched.c`).  A wait queue is a single pointer to the last task that went to sleep on it;
 the rest of the list lives in the `tmp` locals on the kernel stacks of the sleeping tasks.  A task runs without
 interruption from one call of `schedule` to the next, so `__sleep_on` is two atomic pieces: what happens before the
 first `schedule`, and what happens each time `schedule` returns to it.
 */
module WaitQueue {
  import opened Common

  datatype TaskState = Running | Interruptible | Uninterruptible

  /** Where a task is: outside `__sleep_on`, or inside it on a queue with the saved pointer `tmp`. */
  datatype Place = Awake | Asleep(queue: nat, tmp: Option<nat>)

  /** `head[w]` is the queue pointer `*p`. */
  datatype Queues = Queues(state: seq<TaskState>, place: seq<Place>, head: seq<Option<nat>>)

  ghost predicate Shaped(q: Queues) { |q.state| == |q.place| }

  predicate IsTask(q: Queues, t: nat) { t < |q.state| && t < |q.place| }

  predicate Sleeps(q: Queues, t: nat, w: nat) { t < |q.place| && q.place[t].Asleep? && q.place[t].queue == w }

  predicate Runs(q: Queues, t: nat) { t < |q.state| && q.state[t] == Running }

  function SetState(q: Queues, t: nat, s: TaskState): Queues {
    if t < |q.state| then q.(state := q.state[t := s]) else q
  }

  // ----- the atomic pieces

  /** `tmp = *p; *p = current; current->state = state`. */
  function GoToSleep(q: Queues, t: nat, w: nat, how: TaskState): Queues
    requires IsTask(q, t) && w < |q.head|
  {
    SetState(q, t, how).(place := q.place[t := Asleep(w, q.head[w])], head := q.head[w := Some(t)])
  }

  /** `wake_up`. */
  function WakeUp(q: Queues, w: nat): Queues
    requires w < |q.head|
  {
    if q.head[w].Some? then SetState(q, q.head[w].value, Running) else q
  }

  /** The test after `schedule` returns: is somebody else at the head? */
  predicate NotMyTurn(q: Queues, t: nat)
    requires IsTask(q, t) && q.place[t].Asleep? && q.place[t].queue < |q.head|
  {
    var h := q.head[q.place[t].queue];
    h.Some? && h.value != t
  }

  /** What a task does when `schedule` returns to it: hand over to the head and sleep on, or leave the queue. */
  function Resume(q: Queues, t: nat): Queues
    requires IsTask(q, t) && q.place[t].Asleep? && q.place[t].queue < |q.head|
  {
    var w, tmp := q.place[t].queue, q.place[t].tmp;
    if NotMyTurn(q, t) then SetState(SetState(q, q.head[w].value, Running), t, Uninterruptible) else
    var left := q.(place := q.place[t := Awake], head := q.head[w := tmp]);
    if tmp.Some? then SetState(left, tmp.value, Running) else left
  }

  /** The "*P = NULL" warning. */
  predicate Warns(q: Queues, t: nat)
    requires IsTask(q, t) && q.place[t].Asleep? && q.place[t].queue < |q.head|
  {
    q.head[q.place[t].queue].None?
  }

  // ----- the chain

  /** From the queue pointer through the saved `tmp` values one meets exactly the sleepers of the queue, each once. */
  ghost predicate Chain(q: Queues, w: nat, c: seq<nat>)
    requires w < |q.head|
  {
    && q.head[w] == (if c == [] then None else Some(c[0]))
    && NoRepeats(c)
    && (forall i :: 0 <= i < |c| ==> IsTask(q, c[i]) && q.place[c[i]] == Asleep(w, NextIn(c, i)))
    && (forall t :: Sleeps(q, t, w) ==> t in c)
  }

  ghost predicate Chains(q: Queues, cs: seq<seq<nat>>) {
    && Shaped(q) && |cs| == |q.head|
    && (forall w :: 0 <= w < |cs| ==> Chain(q, w, cs[w]))
    && (forall t :: 0 <= t < |q.place| && q.place[t].Asleep? ==> q.place[t].queue < |q.head|)
  }

  // ----- every atomic piece keeps the chains

  lemma SleepPushes(q: Queues, cs: seq<seq<nat>>, t: nat, w: nat, how: TaskState)
    requires Chains(q, cs) && IsTask(q, t) && w < |q.head| && q.place[t].Awake?
    ensures Chains(GoToSleep(q, t, w, how), cs[w := [t] + cs[w]])
  {
    var q', c' := GoToSleep(q, t, w, how), [t] + cs[w];
    assert Chain(q, w, cs[w]);
    assert t !in cs[w];
    forall i | 0 <= i < |c'| ensures IsTask(q', c'[i]) && q'.place[c'[i]] == Asleep(w, NextIn(c', i)) {
      assert i > 0 ==> c'[i] == cs[w][i - 1];
    }
    forall v | 0 <= v < |cs| && v != w ensures Chain(q', v, cs[v]) {
      assert Chain(q, v, cs[v]);
      assert t !in cs[v];
    }
  }

  lemma StateKeepsChains(q: Queues, q': Queues, cs: seq<seq<nat>>)
    requires Chains(q, cs) && Shaped(q') && q'.place == q.place && q'.head == q.head
    ensures Chains(q', cs)
  {
    forall w | 0 <= w < |cs| ensures Chain(q', w, cs[w]) {
      assert Chain(q, w, cs[w]);
    }
  }

  /** A task in the queue is never alone with an empty pointer: the NULL warning cannot be reached. */
  lemma NeverWarns(q: Queues, cs: seq<seq<nat>>, t: nat)
    requires Chains(q, cs) && IsTask(q, t) && q.place[t].Asleep?
    ensures !Warns(q, t)
  {
    var w := q.place[t].queue;
    assert Chain(q, w, cs[w]) && Sleeps(q, t, w);
  }

  /** The chains after a resumption: only the head leaves, from the front. */
  ghost function AfterResume(q: Queues, cs: seq<seq<nat>>, t: nat): seq<seq<nat>>
    requires IsTask(q, t) && q.place[t].Asleep? && q.place[t].queue < |q.head| == |cs|
  {
    var w := q.place[t].queue;
    if NotMyTurn(q, t) || cs[w] == [] then cs else cs[w := cs[w][1..]]
  }

  lemma ResumePops(q: Queues, cs: seq<seq<nat>>, t: nat)
    requires Chains(q, cs) && IsTask(q, t) && q.place[t].Asleep?
    ensures Chains(Resume(q, t), AfterResume(q, cs, t))
  {
    var w := q.place[t].queue;
    var c, q' := cs[w], Resume(q, t);
    assert Chain(q, w, c) && Sleeps(q, t, w);
    if NotMyTurn(q, t) {
      StateKeepsChains(q, q', cs);
    } else {
      assert c[0] == t && q.place[t].tmp == NextIn(c, 0);
      var c' := c[1..];
      forall i | 0 <= i < |c'| ensures IsTask(q', c'[i]) && q'.place[c'[i]] == Asleep(w, NextIn(c', i)) {
        assert c'[i] == c[i + 1];
      }
      forall s | Sleeps(q', s, w) ensures s in c' {
        assert Sleeps(q, s, w) && s != t;
      }
      forall v | 0 <= v < |cs| && v != w ensures Chain(q', v, cs[v]) {
        assert Chain(q, v, cs[v]);
        assert t !in cs[v];
      }
    }
  }

  // ----- runs

  /** `Poke` is any other way a task becomes runnable, such as a signal. */
  datatype Event = Enter(t: nat, w: nat, how: TaskState) | Return(t: nat) | Wake(w: nat) | Poke(t: nat)

  ghost predicate Enabled(q: Queues, e: Event) {
    match e
    case Enter(t, w, _) => IsTask(q, t) && w < |q.head| && q.place[t].Awake? && Runs(q, t)
    case Return(t) => IsTask(q, t) && q.place[t].Asleep? && q.place[t].queue < |q.head| && Runs(q, t)
    case Wake(w) => w < |q.head|
    case Poke(t) => IsTask(q, t)
  }

  ghost function Step(q: Queues, e: Event): Queues
    requires Enabled(q, e)
  {
    match e
    case Enter(t, w, how) => GoToSleep(q, t, w, how)
    case Return(t) => Resume(q, t)
    case Wake(w) => WakeUp(q, w)
    case Poke(t) => SetState(q, t, Running)
  }

  ghost function StepChains(q: Queues, cs: seq<seq<nat>>, e: Event): seq<seq<nat>>
    requires Enabled(q, e) && |cs| == |q.head|
  {
    match e
    case Enter(t, w, _) => cs[w := [t] + cs[w]]
    case Return(t) => AfterResume(q, cs, t)
    case _ => cs
  }

  ghost predicate RunEnabled(q: Queues, run: seq<Event>)
    decreases |run|
  {
    run == [] || (Enabled(q, run[0]) && RunEnabled(Step(q, run[0]), run[1..]))
  }

  ghost function Run(q: Queues, run: seq<Event>): Queues
    requires RunEnabled(q, run)
    decreases |run|
  {
    if run == [] then q else Run(Step(q, run[0]), run[1..])
  }

  lemma StepKeepsChains(q: Queues, cs: seq<seq<nat>>, e: Event)
    requires Chains(q, cs) && Enabled(q, e)
    ensures Chains(Step(q, e), StepChains(q, cs, e))
  {
    match e
    case Enter(t, w, how) => SleepPushes(q, cs, t, w, how);
    case Return(t) => ResumePops(q, cs, t);
    case Wake(w) => StateKeepsChains(q, WakeUp(q, w), cs);
    case Poke(t) => StateKeepsChains(q, SetState(q, t, Running), cs);
  }

  /** Wait-chain exactness: after every interleaving, walking each queue's pointers yields each of its sleepers once. */
  lemma {:induction false} ChainsOverRuns(q: Queues, cs: seq<seq<nat>>, run: seq<Event>) returns (cs': seq<seq<nat>>)
    requires Chains(q, cs) && RunEnabled(q, run)
    ensures Chains(Run(q, run), cs')
    decreases |run|
  {
    if run == [] {
      cs' := cs;
    } else {
      StepKeepsChains(q, cs, run[0]);
      cs' := ChainsOverRuns(Step(q, run[0]), StepChains(q, cs, run[0]), run[1..]);
    }
  }

  // ----- draining

  ghost function RunnableIn(q: Queues, c: seq<nat>): nat {
    if c == [] then 0 else (if Runs(q, c[0]) then 1 else 0) + RunnableIn(q, c[1..])
  }

  lemma {:induction false} SameStatesSameCount(q: Queues, q': Queues, c: seq<nat>)
    requires forall i :: 0 <= i < |c| ==> (Runs(q', c[i]) <==> Runs(q, c[i]))
    ensures RunnableIn(q', c) == RunnableIn(q, c)
  {
    if c != [] {
      forall i | 0 <= i < |c[1..]| ensures Runs(q', c[1..][i]) <==> Runs(q, c[1..][i]) {
        assert c[1..][i] == c[i + 1];
      }
      SameStatesSameCount(q, q', c[1..]);
      assert Runs(q', c[0]) <==> Runs(q, c[0]);
    }
  }

  /** One member of the list changes from or to running. */
  lemma {:induction false} OneStateChanges(q: Queues, q': Queues, c: seq<nat>, k: nat)
    requires NoRepeats(c) && k < |c|
    requires forall i :: 0 <= i < |c| && i != k ==> (Runs(q', c[i]) <==> Runs(q, c[i]))
    ensures RunnableIn(q', c) + (if Runs(q, c[k]) then 1 else 0) == RunnableIn(q, c) + (if Runs(q', c[k]) then 1 else 0)
  {
    var tail := c[1..];
    forall i | 0 <= i < |tail| && i + 1 != k ensures Runs(q', tail[i]) <==> Runs(q, tail[i]) {
      assert tail[i] == c[i + 1];
    }
    if k == 0 {
      SameStatesSameCount(q, q', tail);
    } else {
      OneStateChanges(q, q', tail, k - 1);
      assert Runs(q', c[0]) <==> Runs(q, c[0]);
    }
  }

  /** Chain length plus runnable waiters behind the head. */
  ghost function Potential(q: Queues, c: seq<nat>): nat { if c == [] then 0 else |c| + RunnableIn(q, c[1..]) }

  /** Somebody in the chain can run. */
  ghost predicate Live(q: Queues, c: seq<nat>) { c != [] ==> exists i :: 0 <= i < |c| && Runs(q, c[i]) }

  /** Does this event resume a waiter of queue `w`? */
  ghost predicate Resumes(q: Queues, e: Event, w: nat) { e.Return? && Sleeps(q, e.t, w) }

  lemma Unaffected(q: Queues, q': Queues, c: seq<nat>)
    requires forall i :: 0 <= i < |c| ==> (Runs(q', c[i]) <==> Runs(q, c[i]))
    ensures Potential(q', c) == Potential(q, c) && (Live(q, c) ==> Live(q', c))
  {
    if c != [] {
      forall i | 0 <= i < |c[1..]| ensures Runs(q', c[1..][i]) <==> Runs(q, c[1..][i]) {
        assert c[1..][i] == c[i + 1];
      }
      SameStatesSameCount(q, q', c[1..]);
    }
  }

  /** The resumed waiter is behind the head: it wakes the head and goes back to sleep. */
  lemma HandOver(q: Queues, w: nat, c: seq<nat>, t: nat)
    requires w < |q.head| && c != [] && NoRepeats(c) && q.head[w] == Some(c[0]) && IsTask(q, c[0])
    requires t in c && IsTask(q, t) && Sleeps(q, t, w) && Runs(q, t) && NotMyTurn(q, t)
    ensures Potential(Resume(q, t), c) == Potential(q, c) - 1 && Live(Resume(q, t), c)
  {
    var q', tail := Resume(q, t), c[1..];
    var k :| 0 <= k < |c| && c[k] == t;
    assert Runs(q', c[0]);
    forall i | 0 <= i < |tail| && i != k - 1 ensures Runs(q', tail[i]) <==> Runs(q, tail[i]) {
      assert tail[i] == c[i + 1];
    }
    assert tail[k - 1] == t;
    OneStateChanges(q, q', tail, k - 1);
  }

  /** The resumed waiter is the head: it leaves and wakes the next. */
  lemma LeaveQueue(q: Queues, w: nat, c: seq<nat>, t: nat)
    requires w < |q.head| && Chain(q, w, c) && IsTask(q, t) && Sleeps(q, t, w) && !NotMyTurn(q, t)
    ensures c != [] && c[0] == t
    ensures Potential(Resume(q, t), c[1..]) <= Potential(q, c) - 1 && Live(Resume(q, t), c[1..])
  {
    var q', c' := Resume(q, t), c[1..];
    assert q.place[c[0]].tmp == NextIn(c, 0);
    if c' != [] {
      assert c'[0] == c[1] && Runs(q', c'[0]);
      var rest := c'[1..];
      forall i | 0 <= i < |rest| ensures Runs(q', rest[i]) <==> Runs(q, rest[i]) {
        assert rest[i] == c[i + 2];
      }
      SameStatesSameCount(q, q', rest);
    }
  }

  /** Each resumption of a waiter uses up one unit of potential; only pokes add any, and a live chain stays live. */
  lemma DrainStep(q: Queues, cs: seq<seq<nat>>, e: Event, w: nat)
    requires Chains(q, cs) && Enabled(q, e) && w < |cs| && !(e.Enter? && e.w == w) && Live(q, cs[w])
    ensures var c' := StepChains(q, cs, e)[w];
            && Live(Step(q, e), c')
            && Potential(Step(q, e), c') + (if Resumes(q, e, w) then 1 else 0) <=
               Potential(q, cs[w]) + if e.Poke? then 1 else 0
  {
    var q', c := Step(q, e), cs[w];
    assert Chain(q, w, c);
    if Resumes(q, e, w) {
      if NotMyTurn(q, e.t) {
        HandOver(q, w, c, e.t);
      } else {
        LeaveQueue(q, w, c, e.t);
      }
    } else if e.Poke? {
      PokeAdds(q, c, e.t);
    } else if e.Wake? && e.w == w {
      WakeHead(q, w, c);
    } else {
      OthersKeepStates(q, cs, e, w);
      Unaffected(q, q', c);
    }
  }

  lemma OthersKeepStates(q: Queues, cs: seq<seq<nat>>, e: Event, w: nat)
    requires Chains(q, cs) && Enabled(q, e) && w < |cs| && !Resumes(q, e, w) && !e.Poke?
    requires !(e.Enter? && e.w == w) && !(e.Wake? && e.w == w)
    ensures StepChains(q, cs, e)[w] == cs[w]
    ensures forall i :: 0 <= i < |cs[w]| ==> (Runs(Step(q, e), cs[w][i]) <==> Runs(q, cs[w][i]))
  {
    assert Chain(q, w, cs[w]);
    if e.Wake? {
      assert Chain(q, e.w, cs[e.w]);
    }
    if e.Return? {
      var v := q.place[e.t].queue;
      assert Chain(q, v, cs[v]) && Sleeps(q, e.t, v);
      var k :| 0 <= k < |cs[v]| && cs[v][k] == e.t;
    }
  }

  lemma WakeHead(q: Queues, w: nat, c: seq<nat>)
    requires w < |q.head| && Chain(q, w, c) && Shaped(q)
    ensures Potential(WakeUp(q, w), c) == Potential(q, c) && Live(WakeUp(q, w), c)
  {
    var q' := WakeUp(q, w);
    if c != [] {
      assert IsTask(q, c[0]) && Runs(q', c[0]);
      forall i | 0 <= i < |c[1..]| ensures Runs(q', c[1..][i]) <==> Runs(q, c[1..][i]) {
        assert c[1..][i] == c[i + 1];
      }
      SameStatesSameCount(q, q', c[1..]);
    }
  }

  lemma PokeAdds(q: Queues, c: seq<nat>, t: nat)
    requires NoRepeats(c) && Live(q, c)
    ensures Potential(SetState(q, t, Running), c) <= Potential(q, c) + 1 && Live(SetState(q, t, Running), c)
  {
    var q' := SetState(q, t, Running);
    if c != [] {
      var tail := c[1..];
      if k :| 0 <= k < |tail| && tail[k] == t {
        OneStateChanges(q, q', tail, k);
      } else {
        SameStatesSameCount(q, q', tail);
      }
      var i :| 0 <= i < |c| && Runs(q, c[i]);
      assert Runs(q', c[i]);
    }
  }

  // ----- draining over runs

  ghost predicate NoNewSleepers(run: seq<Event>, w: nat) {
    forall i :: 0 <= i < |run| ==> !(run[i].Enter? && run[i].w == w)
  }

  ghost function Resumptions(q: Queues, run: seq<Event>, w: nat): nat
    requires RunEnabled(q, run)
    decreases |run|
  {
    if run == [] then 0 else (if Resumes(q, run[0], w) then 1 else 0) + Resumptions(Step(q, run[0]), run[1..], w)
  }

  ghost function Pokes(run: seq<Event>): nat {
    if run == [] then 0 else (if run[0].Poke? then 1 else 0) + Pokes(run[1..])
  }

  /** Once one waiter, head or not, is runnable and nobody new arrives, the queue drains under every schedule: waiters
      keep being runnable, and after `Potential` resumptions (plus one per poke) the queue is empty. */
  lemma {:induction false} Drains(q: Queues, cs: seq<seq<nat>>, run: seq<Event>, w: nat) returns (c': seq<nat>)
    requires Chains(q, cs) && RunEnabled(q, run) && w < |cs| && NoNewSleepers(run, w) && Live(q, cs[w])
    ensures w < |Run(q, run).head| && Chain(Run(q, run), w, c') && Live(Run(q, run), c')
    ensures Resumptions(q, run, w) + Potential(Run(q, run), c') <= Potential(q, cs[w]) + Pokes(run)
    ensures Resumptions(q, run, w) >= Potential(q, cs[w]) + Pokes(run) ==> c' == [] && Run(q, run).head[w] == None
    decreases |run|
  {
    if run == [] {
      c' := cs[w];
    } else {
      var q1, cs1 := Step(q, run[0]), StepChains(q, cs, run[0]);
      StepKeepsChains(q, cs, run[0]);
      DrainStep(q, cs, run[0], w);
      forall i | 0 <= i < |run[1..]| ensures !(run[1..][i].Enter? && run[1..][i].w == w) {
        assert run[1..][i] == run[i + 1];
      }
      c' := Drains(q1, cs1, run[1..], w);
    }
  }

  lemma {:induction false} HeadsKept(q: Queues, run: seq<Event>)
    requires RunEnabled(q, run)
    ensures |Run(q, run).head| == |q.head|
    decreases |run|
  {
    if run != [] {
      HeadsKept(Step(q, run[0]), run[1..]);
    }
  }

  // ----- walking the pointers

  /** Following the pointers for at most `steps` steps. */
  function Walk(q: Queues, p: Option<nat>, steps: nat): seq<nat>
    decreases steps
  {
    if steps == 0 || p.None? || p.value >= |q.place| || q.place[p.value].Awake? then []
    else [p.value] + Walk(q, q.place[p.value].tmp, steps - 1)
  }

  ghost predicate LinkAt(q: Queues, w: nat, c: seq<nat>, i: int) {
    0 <= i < |c| ==> IsTask(q, c[i]) && q.place[c[i]] == Asleep(w, NextIn(c, i))
  }

  lemma {:induction false} WalkFollows(q: Queues, w: nat, c: seq<nat>, i: nat, steps: nat)
    requires (forall j :: LinkAt(q, w, c, j)) && i <= |c| && |c| - i <= steps
    ensures Walk(q, At(c, i), steps) == c[i..]
    decreases |c| - i
  {
    if i < |c| {
      WalkFollows(q, w, c, i + 1, steps - 1);
      assert LinkAt(q, w, c, i);
      assert NextIn(c, i) == At(c, i + 1);
    }
  }

  /** So the chain is what walking the pointers finds, and the pointers determine it. */
  lemma ChainIsWalk(q: Queues, w: nat, c: seq<nat>)
    requires w < |q.head| && Chain(q, w, c)
    ensures c == Walk(q, q.head[w], |q.place|)
    ensures forall t: nat :: t in c <==> Sleeps(q, t, w)
  {
    Pigeonhole(c, |q.place|);
    forall j ensures LinkAt(q, w, c, j) {
    }
    WalkFollows(q, w, c, 0, |q.place|);
    assert c[0..] == c && At(c, 0) == q.head[w];
  }

  /** On pointers alone: from a state without sleepers, after any run each walk is exact and without repeats. */
  lemma WaitListExact(q: Queues, run: seq<Event>, w: nat)
    requires Shaped(q) && RunEnabled(q, run) && w < |q.head|
    requires forall t :: 0 <= t < |q.place| ==> q.place[t].Awake?
    requires forall v :: 0 <= v < |q.head| ==> q.head[v].None?
    ensures var q' := Run(q, run);
            && w < |q'.head| && NoRepeats(Walk(q', q'.head[w], |q'.place|))
            && forall t: nat :: t in Walk(q', q'.head[w], |q'.place|) <==> Sleeps(q', t, w)
  {
    var cs := seq(|q.head|, _ => []);
    forall v | 0 <= v < |cs| ensures Chain(q, v, cs[v]) {
    }
    var cs' := ChainsOverRuns(q, cs, run);
    HeadsKept(q, run);
    ChainIsWalk(Run(q, run), w, cs'[w]);
  }
}
