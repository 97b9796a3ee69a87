/**
 When frames run out.  A task whose window holds only its first 160 pages takes at most 162 frames: its structure, its
 page table and its pages.  So eighteen tasks besides slot 0, whatever they do, never exhaust the 3072 frames of the
 pool.
 */
module FreeFrames {
  import opened Common
  import opened Paging
  import opened PagingInvariant
  import opened PagingSteps
  import opened PagingShare
  import opened PagingFork
  import opened CopyOnWrite
  import opened PagingFacts
  import opened MappedPages

  // ----- the failing input

  /** With nothing free the scan of `get_free_page` ends at index -1, outside `mem_map`, and what it would claim and
      zero is frame 255.  Its result is never 0, so no caller's test for running out of memory can succeed. */
  lemma OutOfFrames(m: Machine)
    ensures FreeIndex(m.memMap) == -1 <==> FreeSet(m) == {}
    ensures FreeSet(m) == {} ==> (FreeIndex(m.memMap) * 4096 + LOW_MEM) / 4096 == 255
    ensures FreeIndex(m.memMap) * 4096 + LOW_MEM != 0
  {
    FreeSetFacts(m);
  }

  // ----- counting

  /** Windows of slots 1 and up have only their first page table, with entries below 160. */
  ghost predicate Narrow(m: Machine) {
    && (forall d :: 16 <= d < 1024 && d % 16 != 0 ==> Pde(m, d) == 0)
    && (forall d, i :: 16 <= d < 1024 && d % 16 == 0 && USER_PAGES <= i < 1024 ==> Pte(m, d, i) == 0)
  }

  ghost function LiveSlots(m: Machine): set<nat> { set n: nat | n < NR_TASKS && n >= 1 && m.task[n] != 0 }

  /** The `mem_map` indices of the frames that the first `k` entries of slot `n` map. */
  ghost function PageIndices(m: Machine, n: nat, k: nat): (s: set<int>)
    requires n < NR_TASKS && k <= 1024
    ensures |s| <= k && forall i :: 0 <= i < k ==> FrameOf(Pte(m, 16 * n, i)) - LOW_FRAMES in s
  {
    if k == 0 then {} else PageIndices(m, n, k - 1) + {FrameOf(Pte(m, 16 * n, k - 1)) - LOW_FRAMES}
  }

  ghost function SlotIndices(m: Machine, n: nat): (s: set<int>)
    requires 1 <= n < NR_TASKS
    ensures |s| <= 162
  {
    var two: set<int> := {m.task[n] - LOW_FRAMES, Target(m, TableRef(16 * n)) - LOW_FRAMES};
    var pages := PageIndices(m, n, USER_PAGES);
    assert |two| <= 2 && |two + pages| <= |two| + |pages|;
    two + pages
  }

  /** Whatever a slot holds is among its indices. */
  lemma SlotHolds(m: Machine, r: Ref)
    requires Narrow(m) && IsRef(r) && IsPool(Target(m, r))
    ensures 1 <= SlotOf(r) < NR_TASKS && Target(m, r) - LOW_FRAMES in SlotIndices(m, SlotOf(r))
  {
    match r
    case TaskRef(_) =>
    case TableRef(d) => assert d == 16 * SlotOf(r);
    case PageRef(d, i) =>
      assert Pde(m, d) != 0;
      assert d == 16 * SlotOf(r) && i < USER_PAGES;
  }

  /** Somebody in `live` holds the frame of index `k`. */
  ghost predicate HeldBy(m: Machine, live: set<nat>, k: int) {
    exists r :: IsRef(r) && Target(m, r) == k + LOW_FRAMES && IsPool(Target(m, r)) && SlotOf(r) in live
  }

  /** What is held by others than slot `n`, its own indices taken away. */
  lemma HeldByOthers(m: Machine, live: set<nat>, n: nat, k: int)
    requires Narrow(m) && 1 <= n < NR_TASKS && HeldBy(m, live, k) && k !in SlotIndices(m, n)
    ensures HeldBy(m, live - {n}, k)
  {
    var r :| IsRef(r) && Target(m, r) == k + LOW_FRAMES && IsPool(Target(m, r)) && SlotOf(r) in live;
    SlotHolds(m, r);
  }

  lemma {:induction false} HeldBound(m: Machine, live: set<nat>, used: set<int>)
    requires Narrow(m) && (forall n :: n in live ==> 1 <= n < NR_TASKS) && forall k :: k in used ==> HeldBy(m, live, k)
    ensures |used| <= 162 * |live|
    decreases live
  {
    if n :| n in live {
      var mine, others := used * SlotIndices(m, n), used - SlotIndices(m, n);
      SubsetSize(mine, SlotIndices(m, n));
      forall k | k in others ensures HeldBy(m, live - {n}, k) {
        HeldByOthers(m, live, n, k);
      }
      HeldBound(m, live - {n}, others);
      assert used == mine + others;
      assert |live - {n}| == |live| - 1;
    } else {
      forall k ensures k !in used {
        assert !HeldBy(m, live, k);
      }
      assert used == {};
    }
  }

  ghost function Pool(k: nat): (s: set<int>)
    requires k <= 3072
    ensures |s| == k && forall j :: j in s <==> 768 <= j < 768 + k
  {
    if k == 0 then {} else Pool(k - 1) + {768 + k - 1}
  }

  /** Free frames and 162 for each live slot cover the pool. */
  lemma FreeBound(m: Machine)
    requires Inv(m) && Narrow(m)
    ensures |FreeSet(m)| + 162 * |LiveSlots(m)| >= 3072
  {
    UsedBound(m, Pool(3072));
  }

  lemma UsedBound(m: Machine, pool: set<int>)
    requires Inv(m) && Narrow(m) && forall k :: k in pool <==> 768 <= k < PAGING_PAGES
    ensures |pool| <= |FreeSet(m)| + 162 * |LiveSlots(m)|
  {
    var used := pool - FreeSet(m);
    FreeInPool(m, pool);
    AllHeld(m, used);
    HeldBound(m, LiveSlots(m), used);
    assert pool == FreeSet(m) + used;
  }

  lemma AllHeld(m: Machine, used: set<int>)
    requires Inv(m) && forall k :: k in used ==> 768 <= k < PAGING_PAGES && k !in FreeSet(m)
    ensures forall k :: k in used ==> HeldBy(m, LiveSlots(m), k)
  {
    forall k | k in used ensures HeldBy(m, LiveSlots(m), k) {
      IsHeld(m, k);
    }
  }

  lemma FreeInPool(m: Machine, pool: set<int>)
    requires Inv(m) && forall k :: 768 <= k < PAGING_PAGES ==> k in pool
    ensures FreeSet(m) <= pool
  {
    forall k | k in FreeSet(m) ensures k in pool {
      assert k < 768 ==> CountOf(m, k + LOW_FRAMES) == USED;
    }
  }

  lemma IsHeld(m: Machine, k: int)
    requires Inv(m) && 768 <= k < PAGING_PAGES && m.memMap[k] != 0
    ensures HeldBy(m, LiveSlots(m), k)
  {
    var f := k + LOW_FRAMES;
    Conservation(m, f);
    assert CountOf(m, f) == m.memMap[k];
    var r :| r in Refs(m, f);
    assert r.PageRef? ==> Pde(m, r.d) != 0;
    assert m.task[SlotOf(r)] != 0;
  }

  // ----- over runs

  lemma ForkIsNarrow(m: Machine, p: nat, c: nat, esp: int, image: Page, r: Copy)
    requires Inv(m) && Narrow(m) && CanFork(m, p, c, LIMIT, esp) && 0 < esp <= LIMIT
    requires r == Fork(m, p, c, LIMIT, esp, image)
    ensures r.Copied? && Narrow(r.m) && LiveSlots(r.m) == LiveSlots(m) + {c}
  {
    StackInLimit(esp);
    var m1, m2 := ForkStages(m, p, c, LIMIT, esp, image, r);
    ForkStep(m, p, c, LIMIT, esp, image, r);
    forall d | 16 <= d < 1024 && d % 16 != 0 ensures Pde(r.m, d) == 0 {
      TablesNarrow(m, m1, m2, r.m, p, c, 16 * c, StackEntry(esp), d);
    }
    forall d, i | 16 <= d < 1024 && d % 16 == 0 && USER_PAGES <= i < 1024 ensures Pte(r.m, d, i) == 0 {
      assert EntryKept(m, r.m, p, c, EntriesPerDir(p * TASK_SIZE), DirsFor(LIMIT), d, i);
    }
  }

  lemma TablesNarrow(m: Machine, m1: Machine, m2: Machine, m': Machine, p: nat, c: nat, td: nat, ti: nat, d: nat)
    requires Narrow(m) && p < NR_TASKS && 1 <= c < NR_TASKS && SameTables(m, m1)
    requires WindowCopied(m1, m2, p, c, EntriesPerDir(p * TASK_SIZE), DirsFor(LIMIT))
    requires 16 <= td < 1024 && ti < 1024 && Resolved(m2, m', td, ti) && 16 <= d < 1024 && d % 16 != 0
    ensures Pde(m', d) == 0
  {
    assert DirsFor(LIMIT) == 1;
    assert Pde(m2, d) == Pde(m1, d) == Pde(m, d);
  }

  lemma NarrowStep(m: Machine, hot: set<nat>, op: Op, r: Copy)
    requires Inv(m) && Mapped(m) && Narrow(m) && GoodSlots(op) && IsHot(hot) && Ready(m, hot, op) && r == Step(m, op)
    ensures r.Copied? && Inv(r.m) && Mapped(r.m) && Narrow(r.m)
    ensures |LiveSlots(r.m)| == |LiveSlots(m)| + if op.ForkOp? then 1 else 0
  {
    ReadyIsEnabled(m, hot, op);
    MappedStep(m, hot, op, r);
    match op
    case ForkOp(p, c, size, esp, image) =>
      ForkIsNarrow(m, p, c, esp, image, r);
      assert c !in LiveSlots(m);
    case StoreOp(address, value) =>
      StoreIsNarrow(m, hot, address, value, r);
    case KernelOp(frame, word, value) =>
      HotStoreStep(m, hot, Shown(m), frame, word, value, r.m);
      assert LiveSlots(r.m) == LiveSlots(m);
  }

  lemma StoreIsNarrow(m: Machine, hot: set<nat>, address: Word, value: Word, r: Copy)
    requires Inv(m) && Narrow(m) && IsHot(hot) && Enabled(m, hot, StoreOp(address, value))
    requires r == UserStore(m, address, value)
    ensures r.Copied? && Narrow(r.m) && LiveSlots(r.m) == LiveSlots(m)
  {
    StoreKeepsEntry(m, hot, address, value, r, 16, 0);
    forall d | 16 <= d < 1024 && d % 16 != 0 ensures Pde(r.m, d) == 0 {
      StoreKeepsEntry(m, hot, address, value, r, d, 0);
    }
    forall d, i | 16 <= d < 1024 && d % 16 == 0 && USER_PAGES <= i < 1024 ensures Pte(r.m, d, i) == 0 {
      StoreKeepsEntry(m, hot, address, value, r, d, i);
    }
  }

  ghost predicate RunSensible(m: Machine, hot: set<nat>, ops: seq<Op>)
    requires forall k :: 0 <= k < |ops| ==> GoodSlots(ops[k])
    decreases |ops|
  {
    || ops == []
    || (Sensible(m, hot, ops[0])
        && (Step(m, ops[0]).Copied? ==> RunSensible(Step(m, ops[0]).m, hot, ops[1..])))
  }

  ghost function Forks(ops: seq<Op>): nat {
    if ops == [] then 0 else (if ops[0].ForkOp? then 1 else 0) + Forks(ops[1..])
  }

  lemma {:induction false} FewForksAreReady(m: Machine, hot: set<nat>, ops: seq<Op>)
    requires Inv(m) && Mapped(m) && Narrow(m) && (forall k :: 0 <= k < |ops| ==> GoodSlots(ops[k])) && IsHot(hot)
    requires RunSensible(m, hot, ops) && |LiveSlots(m)| + Forks(ops) <= 18
    ensures RunReady(m, hot, ops)
    decreases |ops|
  {
    if ops != [] {
      FreeBound(m);
      FreeSetFacts(m);
      assert HasFrames(m, ops[0]);
      NarrowStep(m, hot, ops[0], Step(m, ops[0]));
      FewForksAreReady(Step(m, ops[0]).m, hot, ops[1..]);
    }
  }

  /** From the initial state, with at most eighteen forks and any number of stores inside the limit, `get_free_page`
      always finds a frame; so no panic, no wild access, and the views of eager copying, without any assumption on
      frames. */
  lemma EighteenTasks(m: Machine, hot: set<nat>, ops: seq<Op>, r: Copy)
    requires IsBoot(m) && (forall k :: 0 <= k < |ops| ==> GoodSlots(ops[k])) && IsHot(hot) && RunSensible(m, hot, ops)
    requires Forks(ops) <= 18 && r == Run(m, ops)
    ensures RunReady(m, hot, ops)
    ensures r.Copied? && Mapped(r.m) && Agrees(r.m, hot, EagerRun(m, hot, Shown(m), ops))
  {
    BootInv(m);
    BootMapped(m);
    forall d, i | 16 <= d < 1024 && 0 <= i < 1024 ensures Pte(m, d, i) == 0 {
      assert Pde(m, d) == 0;
    }
    assert LiveSlots(m) == {};
    FewForksAreReady(m, hot, ops);
    ReachableFromBoot(m, hot, ops, r);
  }
}
