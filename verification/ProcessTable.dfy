/**
 Fork's bookkeeping (`kernel/fork.c`): the search for a fresh pid, the search for a free slot, and the family pointers.
 A pointer to a task structure is its slot number.
 */
module ProcessTable {
  import opened Common

  const EAGAIN: int := 11
  const MAX_PID: int := 0x7fffffff

  /** `p_pptr`, `p_cptr`, `p_ysptr`, `p_osptr`: parent, youngest child, younger and older sibling. */
  datatype Proc = Proc(pid: int, pgrp: int, parent: nat, child: Option<nat>, younger: Option<nat>, older: Option<nat>)

  datatype RawTable = Table(task: seq<Option<Proc>>, lastPid: int)

  type Table = t: RawTable | |t.task| == NR_TASKS && 0 <= t.lastPid <= MAX_PID
    witness Table(seq(NR_TASKS, _ => None), 0)

  predicate Live(t: Table, s: nat) { s < NR_TASKS && t.task[s].Some? }

  // ----- find_empty_process: the pid

  /** `++last_pid` on 32 bits, with the reset to 1 when it turns negative. */
  function NextPid(p: int): int { if p == MAX_PID then 1 else p + 1 }

  predicate TakenBy(task: seq<Option<Proc>>, i: nat, p: int) {
    i < |task| && task[i].Some? && (task[i].value.pid == p || task[i].value.pgrp == p)
  }

  ghost predicate Taken(task: seq<Option<Proc>>, p: int) { exists i :: TakenBy(task, i, p) }

  /** The k-th candidate after `last`. */
  function Candidate(last: int, k: nat): int
  {
    if k == 0 then last else NextPid(Candidate(last, k - 1))
  }

  lemma {:induction false} CandidateIs(last: int, k: nat)
    requires 0 <= last <= MAX_PID
    ensures k > 0 ==> Candidate(last, k) == (last - 1 + k) % MAX_PID + 1
    ensures k > 0 ==> 1 <= Candidate(last, k) <= MAX_PID
  {
    if k > 1 {
      CandidateIs(last, k - 1);
    }
  }

  /** Fewer than 2^31 - 1 consecutive candidates are all different, also across the wrap to 1. */
  lemma CandidatesDiffer(last: int, j: nat, k: nat)
    requires 0 <= last <= MAX_PID && 1 <= j < k && k - j < MAX_PID
    ensures Candidate(last, j) != Candidate(last, k)
  {
    CandidateIs(last, j);
    CandidateIs(last, k);
  }

  ghost function Tried(last: int, k: nat): set<int> { set j | 1 <= j <= k :: Candidate(last, j) }

  lemma NotYetTried(last: int, k: nat)
    requires 0 <= last <= MAX_PID && 1 <= k <= MAX_PID
    ensures Candidate(last, k) !in Tried(last, k - 1)
  {
    forall j | 1 <= j <= k - 1 ensures Candidate(last, j) != Candidate(last, k) {
      CandidatesDiffer(last, j, k);
    }
  }

  lemma {:induction false} TriedSize(last: int, k: nat)
    requires 0 <= last <= MAX_PID && k <= MAX_PID
    ensures |Tried(last, k)| == k
  {
    if k > 0 {
      TriedSize(last, k - 1);
      NotYetTried(last, k);
      assert Tried(last, k) == Tried(last, k - 1) + {Candidate(last, k)};
    } else {
      assert Tried(last, k) == {};
    }
  }

  ghost function Excluded(task: seq<Option<Proc>>): set<int> {
    if task == [] then {}
    else Excluded(task[1..]) + if task[0].Some? then {task[0].value.pid, task[0].value.pgrp} else {}
  }

  /** At most two values per slot are excluded. */
  lemma {:induction false} ExcludedSize(task: seq<Option<Proc>>)
    ensures |Excluded(task)| <= 2 * |task|
  {
    if task != [] {
      ExcludedSize(task[1..]);
      if task[0].Some? {
        var pair := {task[0].value.pid, task[0].value.pgrp};
        assert |pair| <= 2;
        assert |Excluded(task[1..]) + pair| <= |Excluded(task[1..])| + |pair|;
      }
    }
  }

  lemma {:induction false} TakenIsExcluded(task: seq<Option<Proc>>, i: nat, p: int)
    requires TakenBy(task, i, p)
    ensures p in Excluded(task)
  {
    if i > 0 {
      TakenIsExcluded(task[1..], i - 1, p);
    }
  }

  /** Pigeonhole: among the first 129 candidates one is free. */
  lemma SomeCandidateIsFree(task: seq<Option<Proc>>, last: int, k: nat)
    requires |task| == NR_TASKS && 0 <= last <= MAX_PID && k <= MAX_PID
    requires forall j :: 1 <= j <= k ==> Taken(task, Candidate(last, j))
    ensures k <= 128
  {
    forall p | p in Tried(last, k) ensures p in Excluded(task) {
      var j :| 1 <= j <= k && Candidate(last, j) == p;
      var i :| TakenBy(task, i, p);
      TakenIsExcluded(task, i, p);
    }
    TriedSize(last, k);
    ExcludedSize(task);
    SubsetSize(Tried(last, k), Excluded(task));
  }

  /** `k` is the number of the first free candidate after `last`. */
  ghost predicate FirstFree(task: seq<Option<Proc>>, last: int, k: nat) {
    k >= 1 && !Taken(task, Candidate(last, k)) && forall j :: 1 <= j < k ==> Taken(task, Candidate(last, j))
  }

  ghost function SearchFrom(task: seq<Option<Proc>>, last: int, k: nat): (n: nat)
    requires |task| == NR_TASKS && 0 <= last <= MAX_PID && 1 <= k <= 129
    requires forall j :: 1 <= j < k ==> Taken(task, Candidate(last, j))
    ensures FirstFree(task, last, n) && n <= 129
    decreases 130 - k
  {
    if !Taken(task, Candidate(last, k)) then k else
    SomeCandidateIsFree(task, last, k);
    SearchFrom(task, last, k + 1)
  }

  /** The pid `find_empty_process` settles on. */
  ghost function FreshPid(t: Table): (pid: int)
    ensures !Taken(t.task, pid) && 1 <= pid <= MAX_PID
  {
    var k := SearchFrom(t.task, t.lastPid, 1);
    CandidateIs(t.lastPid, k);
    Candidate(t.lastPid, k)
  }

  // ----- find_empty_process: the slot

  function FirstEmpty(task: seq<Option<Proc>>, i: nat): (s: int)
    requires 1 <= i <= |task|
    ensures s == -EAGAIN || (i <= s < |task| && task[s].None? && forall j :: i <= j < s ==> task[j].Some?)
    ensures s == -EAGAIN ==> forall j :: i <= j < |task| ==> task[j].Some?
    decreases |task| - i
  {
    if i == |task| then -EAGAIN else if task[i].None? then i else FirstEmpty(task, i + 1)
  }

  // ----- copy_process: the family pointers

  function SetProc(t: Table, s: nat, p: Proc): Table
    requires s < NR_TASKS
  {
    t.(task := t.task[s := Some(p)])
  }

  /** The new task structure: a copy of the parent's with its own pid and place in the family. */
  function AddChild(t: Table, p: nat, s: nat): Table
    requires Live(t, p) && s < NR_TASKS
  {
    var older := t.task[p].value.child;
    var t1 := SetProc(t, s, Proc(t.lastPid, t.task[p].value.pgrp, p, None, None, older));
    var t2 :=
      if older.Some? && Live(t1, older.value) then
        SetProc(t1, older.value, t1.task[older.value].value.(younger := Some(s)))
      else t1;
    SetProc(t2, p, t2.task[p].value.(child := Some(s)))
  }

  /** `sys_fork`: a pid, a slot, and the child if there is a slot. */
  ghost function Fork(t: Table, p: nat): Table
    requires Live(t, p)
  {
    var t1 := t.(lastPid := FreshPid(t));
    var s := FirstEmpty(t.task, 1);
    if s < 0 then t1 else AddChild(t1, p, s)
  }

  // ----- the invariant

  ghost predicate PidsDistinct(t: Table) {
    forall i, j :: 0 <= i < j < NR_TASKS && Live(t, i) && Live(t, j) ==> t.task[i].value.pid != t.task[j].value.pid
  }

  /** Kid `i` of slot `p`: its parent pointer, and sibling pointers to its neighbours in the list. */
  ghost predicate KidOk(t: Table, p: nat, c: seq<nat>, i: nat)
    requires i < |c|
  {
    && Live(t, c[i]) && c[i] != 0
    && t.task[c[i]].value.parent == p && t.task[c[i]].value.older == NextIn(c, i)
    && t.task[c[i]].value.younger == PrevIn(c, i)
  }

  /** The list from `p_cptr` along `p_osptr` is `c`, youngest first. */
  ghost predicate KidsOk(t: Table, born: seq<nat>, p: nat, c: seq<nat>)
    requires p < NR_TASKS && |born| == NR_TASKS
  {
    && (if Live(t, p) then t.task[p].value.child == (if c == [] then None else Some(c[0])) else c == [])
    && (forall i :: 0 <= i < |c| ==> KidOk(t, p, c, i))
    && (forall i, j :: YoungerFirst(born, c, i, j))
  }

  ghost predicate YoungerFirst(born: seq<nat>, c: seq<nat>, i: int, j: int) {
    0 <= i < j < |c| ==> c[i] < |born| && c[j] < |born| && born[c[i]] > born[c[j]]
  }

  /** Every task but task 0 is on its parent's list and younger than its parent. */
  ghost predicate HasParent(t: Table, kids: seq<seq<nat>>, born: seq<nat>, s: nat)
    requires |kids| == |born| == NR_TASKS && Live(t, s)
  {
    var p := t.task[s].value.parent;
    if s == 0 then p == 0 else Live(t, p) && s in kids[p] && born[p] < born[s]
  }

  /** `born[s]` is the number of the fork that made slot s; all are below `now`. */
  ghost predicate Family(t: Table, kids: seq<seq<nat>>, born: seq<nat>, now: nat) {
    && |kids| == |born| == NR_TASKS && Live(t, 0)
    && (forall p :: 0 <= p < NR_TASKS ==> KidsOk(t, born, p, kids[p]))
    && (forall s :: 0 <= s < NR_TASKS && Live(t, s) ==> HasParent(t, kids, born, s) && born[s] < now)
  }

  // ----- forks keep it

  lemma AddChildFields(t: Table, p: nat, s: nat)
    requires Live(t, p) && s < NR_TASKS && !Live(t, s)
    requires t.task[p].value.child.Some? ==> Live(t, t.task[p].value.child.value) && t.task[p].value.child.value != p
    ensures var t' := AddChild(t, p, s); var o := t.task[p].value.child;
            && t'.lastPid == t.lastPid && (forall x :: 0 <= x < NR_TASKS ==> (Live(t', x) <==> Live(t, x) || x == s))
            && t'.task[s] == Some(Proc(t.lastPid, t.task[p].value.pgrp, p, None, None, o))
            && t'.task[p] == Some(t.task[p].value.(child := Some(s)))
            && (o.Some? ==> t'.task[o.value] == Some(t.task[o.value].value.(younger := Some(s))))
            && (forall x :: 0 <= x < NR_TASKS && x != s && x != p && o != Some(x) ==> t'.task[x] == t.task[x])
  {
  }

  lemma OwnListOnly(t: Table, kids: seq<seq<nat>>, born: seq<nat>, now: nat, p: nat, i: nat)
    requires Family(t, kids, born, now) && p < NR_TASKS && i < |kids[p]|
    ensures KidOk(t, p, kids[p], i)
  {
    assert KidsOk(t, born, p, kids[p]);
  }

  lemma FamilyGrows(t: Table, kids: seq<seq<nat>>, born: seq<nat>, now: nat, p: nat, s: nat)
    requires Family(t, kids, born, now) && Live(t, p) && 1 <= s < NR_TASKS && !Live(t, s)
    ensures Family(AddChild(t, p, s), kids[p := [s] + kids[p]], born[s := now], now + 1)
  {
    var t', kids', born', c := AddChild(t, p, s), kids[p := [s] + kids[p]], born[s := now], kids[p];
    assert KidsOk(t, born, p, c);
    if c != [] {
      OwnListOnly(t, kids, born, now, p, 0);
      assert HasParent(t, kids, born, c[0]);
    }
    AddChildFields(t, p, s);
    NewKidFirst(t, born, now, p, s, c);
    forall q | 0 <= q < NR_TASKS && q != p ensures KidsOk(t', born', q, kids[q]) {
      OtherKids(t, kids, born, now, p, s, q);
    }
    forall x | 0 <= x < NR_TASKS && Live(t', x) ensures HasParent(t', kids', born', x) && born'[x] < now + 1 {
      if x != s {
        assert HasParent(t, kids, born, x);
      }
    }
  }

  lemma NewKidFirst(t: Table, born: seq<nat>, now: nat, p: nat, s: nat, c: seq<nat>)
    requires |born| == NR_TASKS && Live(t, p) && 1 <= s < NR_TASKS && !Live(t, s) && KidsOk(t, born, p, c)
    requires forall x :: 0 <= x < NR_TASKS && Live(t, x) ==> born[x] < now
    requires c != [] ==> c[0] != p
    ensures KidsOk(AddChild(t, p, s), born[s := now], p, [s] + c)
  {
    var t', c' := AddChild(t, p, s), [s] + c;
    assert c != [] ==> KidOk(t, p, c, 0);
    AddChildFields(t, p, s);
    forall i | 0 <= i < |c'| ensures KidOk(t', p, c', i) {
      if i > 0 {
        assert KidOk(t, p, c, i - 1);
        assert c'[i] == c[i - 1];
        assert YoungerFirst(born, c, 0, i - 1);
      }
    }
    var born' := born[s := now];
    forall i, j ensures YoungerFirst(born', c', i, j) {
      if 0 <= i < j < |c'| {
        assert KidOk(t, p, c, j - 1);
        assert i > 0 ==> KidOk(t, p, c, i - 1) && YoungerFirst(born, c, i - 1, j - 1);
      }
    }
  }

  lemma OtherKids(t: Table, kids: seq<seq<nat>>, born: seq<nat>, now: nat, p: nat, s: nat, q: nat)
    requires Family(t, kids, born, now) && Live(t, p) && 1 <= s < NR_TASKS && !Live(t, s) && q < NR_TASKS && q != p
    requires kids[p] != [] ==> kids[p][0] != p && Live(t, kids[p][0])
    ensures KidsOk(AddChild(t, p, s), born[s := now], q, kids[q])
  {
    var t', c := AddChild(t, p, s), kids[q];
    assert KidsOk(t, born, q, c) && KidsOk(t, born, p, kids[p]);
    AddChildFields(t, p, s);
    if kids[p] != [] {
      OwnListOnly(t, kids, born, now, p, 0);
    }
    forall i | 0 <= i < |c| ensures KidOk(t', q, c, i) {
      assert KidOk(t, q, c, i);
    }
    var born' := born[s := now];
    forall i, j ensures YoungerFirst(born', c, i, j) {
      assert YoungerFirst(born, c, i, j);
      assert 0 <= i < j < |c| ==> KidOk(t, q, c, i) && KidOk(t, q, c, j);
    }
  }

  lemma PidsStayDistinct(t: Table, p: nat, s: nat)
    requires PidsDistinct(t) && Live(t, p) && s < NR_TASKS && !Live(t, s)
    requires !Taken(t.task, t.lastPid)
    ensures PidsDistinct(AddChild(t, p, s))
  {
    var t' := AddChild(t, p, s);
    forall x | 0 <= x < NR_TASKS && x != s && Live(t', x)
      ensures Live(t, x) && t'.task[x].value.pid == t.task[x].value.pid != t.lastPid
    {
      assert !TakenBy(t.task, x, t.lastPid);
    }
  }

  // ----- runs of forks

  ghost predicate RunEnabled(t: Table, parents: seq<nat>)
    decreases |parents|
  {
    parents == [] || (Live(t, parents[0]) && RunEnabled(Fork(t, parents[0]), parents[1..]))
  }

  ghost function Run(t: Table, parents: seq<nat>): Table
    requires RunEnabled(t, parents)
    decreases |parents|
  {
    if parents == [] then t else Run(Fork(t, parents[0]), parents[1..])
  }

  /** Over every run of forks pids stay pairwise distinct and the family pointers describe one tree. */
  lemma {:induction false} ForksKeepFamily(t: Table, kids: seq<seq<nat>>, born: seq<nat>, now: nat, parents: seq<nat>)
      returns (kids': seq<seq<nat>>, born': seq<nat>, now': nat)
    requires PidsDistinct(t) && Family(t, kids, born, now) && RunEnabled(t, parents)
    ensures PidsDistinct(Run(t, parents)) && Family(Run(t, parents), kids', born', now')
    decreases |parents|
  {
    if parents == [] {
      kids', born', now' := kids, born, now;
    } else {
      var p := parents[0];
      var t1, s := t.(lastPid := FreshPid(t)), FirstEmpty(t.task, 1);
      PidKeepsFamily(t, t1, kids, born, now);
      if s >= 0 {
        FamilyGrows(t1, kids, born, now, p, s);
        PidsStayDistinct(t1, p, s);
        kids', born', now' :=
          ForksKeepFamily(Fork(t, p), kids[p := [s] + kids[p]], born[s := now], now + 1, parents[1..]);
      } else {
        kids', born', now' := ForksKeepFamily(Fork(t, p), kids, born, now, parents[1..]);
      }
    }
  }

  lemma SameKids(t: Table, t': Table, born: seq<nat>, p: nat, c: seq<nat>)
    requires |born| == NR_TASKS && p < NR_TASKS && KidsOk(t, born, p, c) && t'.task == t.task
    ensures KidsOk(t', born, p, c)
  {
    forall i | 0 <= i < |c| ensures KidOk(t', p, c, i) {
      assert KidOk(t, p, c, i);
    }
  }

  lemma PidKeepsFamily(t: Table, t': Table, kids: seq<seq<nat>>, born: seq<nat>, now: nat)
    requires Family(t, kids, born, now) && PidsDistinct(t) && t'.task == t.task
    ensures Family(t', kids, born, now) && PidsDistinct(t')
  {
    forall p | 0 <= p < NR_TASKS ensures KidsOk(t', born, p, kids[p]) {
      SameKids(t, t', born, p, kids[p]);
    }
    forall s | 0 <= s < NR_TASKS && Live(t', s) ensures HasParent(t', kids, born, s) && born[s] < now {
      assert HasParent(t, kids, born, s);
    }
  }

  /** Only task 0, its own parent, with no relatives. */
  ghost predicate Initial(t: Table) {
    && t.task[0].Some? && t.task[0].value.parent == 0 && t.task[0].value.child == None
    && forall s :: 1 <= s < NR_TASKS ==> t.task[s].None?
  }

  lemma InitialFamily(t: Table)
    requires Initial(t)
    ensures PidsDistinct(t) && Family(t, seq(NR_TASKS, _ => []), seq(NR_TASKS, _ => 0), 1)
  {
  }

  // ----- what follows

  /** The kids list holds exactly the tasks whose parent pointer names the slot. */
  lemma KidsAreTheChildren(t: Table, kids: seq<seq<nat>>, born: seq<nat>, now: nat, p: nat, s: nat)
    requires Family(t, kids, born, now) && p < NR_TASKS
    ensures s in kids[p] <==> Live(t, s) && s != 0 && t.task[s].value.parent == p
  {
    assert KidsOk(t, born, p, kids[p]);
    if s in kids[p] {
      var i :| 0 <= i < |kids[p]| && kids[p][i] == s;
      OwnListOnly(t, kids, born, now, p, i);
    } else if Live(t, s) {
      assert HasParent(t, kids, born, s);
    }
  }

  /** The slot `n` parent pointers above `s`. */
  ghost function Ancestor(t: Table, s: nat, n: nat): nat
    requires Live(t, s)
    decreases n
  {
    if n == 0 || !Live(t, t.task[s].value.parent) then s else Ancestor(t, t.task[s].value.parent, n - 1)
  }

  /** Parent pointers are acyclic but for task 0: from every task they lead to task 0. */
  lemma {:induction false} AncestorsLeadToTask0(t: Table, kids: seq<seq<nat>>, born: seq<nat>, now: nat, s: nat)
    requires Family(t, kids, born, now) && Live(t, s)
    ensures Ancestor(t, s, born[s]) == 0
    decreases born[s]
  {
    assert HasParent(t, kids, born, s);
    if s != 0 {
      var p := t.task[s].value.parent;
      AncestorsLeadToTask0(t, kids, born, now, p);
      AncestorStays(t, kids, born, now, p, born[p], born[s] - 1);
    } else {
      RootStays(t, kids, born, now, born[0]);
    }
  }

  lemma {:induction false} RootStays(t: Table, kids: seq<seq<nat>>, born: seq<nat>, now: nat, n: nat)
    requires Family(t, kids, born, now)
    ensures Ancestor(t, 0, n) == 0
  {
    assert HasParent(t, kids, born, 0);
    if n > 0 {
      RootStays(t, kids, born, now, n - 1);
    }
  }

  lemma {:induction false} AncestorStays(t: Table, kids: seq<seq<nat>>, born: seq<nat>, now: nat,
      s: nat, n: nat, m: nat)
    requires Family(t, kids, born, now) && Live(t, s) && n <= m && Ancestor(t, s, n) == 0
    ensures Ancestor(t, s, m) == 0
    decreases m
  {
    assert HasParent(t, kids, born, s);
    if n == 0 {
      RootStays(t, kids, born, now, m);
    } else {
      AncestorStays(t, kids, born, now, t.task[s].value.parent, n - 1, m - 1);
    }
  }

  // ----- in place

  class Processes {
    const task: array<Option<Proc>>
    var lastPid: int

    ghost predicate Valid()
      reads this
    {
      task.Length == NR_TASKS && 0 <= lastPid <= MAX_PID
    }

    ghost function T(): Table
      requires Valid()
      reads this, task
    {
      Table(task[..], lastPid)
    }

    /** The loop of `find_empty_process` that rejects a pid some task has as pid or process group. */
    method LastPidTaken() returns (taken: bool)
      requires Valid()
      ensures taken <==> Taken(task[..], lastPid)
    {
      var i := 0;
      while i < NR_TASKS
        invariant 0 <= i <= NR_TASKS
        invariant forall j :: 0 <= j < i ==> !TakenBy(task[..], j, lastPid)
      {
        if task[i].Some? && (task[i].value.pid == lastPid || task[i].value.pgrp == lastPid) {
          assert TakenBy(task[..], i, lastPid);
          return true;
        }
        i := i + 1;
      }
      taken := false;
    }

    /** `find_empty_process`: a fresh pid in `last_pid`, and the first empty slot from 1 on, or -EAGAIN. */
    method FindEmptyProcess() returns (slot: int)
      requires Valid()
      modifies this
      ensures Valid() && T() == old(T()).(lastPid := FreshPid(old(T())))
      ensures slot == FirstEmpty(task[..], 1)
    {
      ghost var last, k, t := lastPid, 0, task[..];
      ghost var n := SearchFrom(t, last, 1);
      var repeat := true;
      while repeat
        invariant Valid() && 0 <= k <= n && lastPid == Candidate(last, k)
        invariant if repeat then k < n else k == n
        decreases n - k
      {
        lastPid := lastPid + 1;
        if lastPid > MAX_PID {                // 32-bit overflow: negative
          lastPid := 1;
        }
        k := k + 1;
        repeat := LastPidTaken();
      }
      slot := FirstEmptySlot();
    }

    /** The second loop of `find_empty_process`. */
    method FirstEmptySlot() returns (slot: int)
      requires Valid()
      ensures slot == FirstEmpty(task[..], 1)
    {
      var i := 1;
      while i < NR_TASKS
        invariant 1 <= i <= NR_TASKS && FirstEmpty(task[..], 1) == FirstEmpty(task[..], i)
      {
        if task[i].None? {
          return i;
        }
        i := i + 1;
      }
      slot := -EAGAIN;
    }

    /** The family part of `copy_process`, for the child in slot `s` of the task in slot `p`. */
    method AddToFamily(p: nat, s: nat)
      requires Valid() && Live(T(), p) && 1 <= s < NR_TASKS && p != s
      requires var o := task[p].value.child; o.Some? ==> Live(T(), o.value) && o.value != s
      modifies task
      ensures Valid() && T() == AddChild(old(T()), p, s)
    {
      var older := task[p].value.child;
      task[s] := task[p];
      task[s] := Some(task[s].value.(pid := lastPid));
      task[s] := Some(task[s].value.(parent := p, child := None, younger := None, older := older));
      if older.Some? {
        task[older.value] := Some(task[older.value].value.(younger := Some(s)));
      }
      task[p] := Some(task[p].value.(child := Some(s)));
    }
  }
}
