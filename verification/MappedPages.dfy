/**
 Forks and stores stay enabled: every live slot has its first 640 KB mapped over every run, so what a step needs is an
 empty slot, addresses inside the limit and free frames.
 */
module MappedPages {
  import opened Common
  import opened Paging
  import opened PagingInvariant
  import opened PagingSteps
  import opened PagingShare
  import opened PagingFork
  import opened CopyOnWrite
  import opened PagingFacts

  const LIMIT: nat := 0xa0000     // the limit every task inherits from INIT_TASK

  ghost predicate IsLive(m: Machine, n: nat) { n < NR_TASKS && (n == 0 || m.task[n] != 0) }

  /** All pages below the limit are mapped in every live slot. */
  ghost predicate Mapped(m: Machine) {
    forall n: nat, i: nat :: IsLive(m, n) && i < USER_PAGES ==> Pte(m, 16 * n, i) != 0
  }

  /** What a caller of fork, or a store, can see beforehand, free frames aside. */
  ghost predicate Sensible(m: Machine, hot: set<nat>, op: Op) {
    match op
    case ForkOp(p, c, size, esp, _) =>
      IsLive(m, p) && 1 <= c < NR_TASKS && m.task[c] == 0 && size == LIMIT && 0 < esp <= LIMIT
    case StoreOp(address, _) =>
      if DirOf(address) < 16 then
        DirOf(address) == 0 && (OwnLowPage(m, EntryOf(address)) || CanStoreHot(hot, EntryOf(address)))
      else IsLive(m, DirOf(address) / 16) && address % TASK_SIZE < LIMIT
    case KernelOp(frame, _, _) => CanStoreHot(hot, frame)
  }

  /** The free frames a step may need: three for a fork, one for a store by a slot from 1 on. */
  ghost predicate HasFrames(m: Machine, op: Op) {
    match op
    case ForkOp(_, _, _, _, _) => |FreeSet(m)| >= 3
    case StoreOp(address, _) => DirOf(address) >= 16 ==> HasFree(m)
    case KernelOp(_, _, _) => true
  }

  ghost predicate Ready(m: Machine, hot: set<nat>, op: Op) { Sensible(m, hot, op) && HasFrames(m, op) }

  lemma StackInLimit(esp: int)
    requires 0 < esp <= LIMIT
    ensures StackDir(esp) == 0 && 0 <= StackEntry(esp) < USER_PAGES
  {
    var page := (esp - 1) / 4096;
    assert page < 160;
  }

  lemma InWindow(n: nat, page: nat, byte: nat)
    requires n < NR_TASKS && page < 160 && byte < 4096
    ensures var a := (16384 * n + page) * 4096 + byte;
            a < 0x1_0000_0000 && DirOf(a) == 16 * n && EntryOf(a) == page && a / 0x4000000 == n
  {
    var a := (16384 * n + page) * 4096 + byte;
    assert a / 4096 == 16384 * n + page;
    assert a == 16 * n * 0x400000 + (page * 4096 + byte);
    assert a == n * 0x4000000 + (page * 4096 + byte);
  }

  lemma AddressInLimit(address: Word)
    requires address % TASK_SIZE < LIMIT
    ensures DirOf(address) == 16 * (DirOf(address) / 16) && EntryOf(address) < USER_PAGES
  {
    var n, x := address / 0x4000000, address % 0x4000000;
    var page, byte := x / 4096, x % 4096;
    assert address == (16384 * n + page) * 4096 + byte;
    InWindow(n, page, byte);
  }

  lemma ReadyIsEnabled(m: Machine, hot: set<nat>, op: Op)
    requires Mapped(m) && GoodSlots(op) && Ready(m, hot, op)
    ensures Enabled(m, hot, op)
  {
    match op
    case ForkOp(p, c, size, esp, _) =>
      StackInLimit(esp);
      assert DirsFor(size) == 1;
      assert Pte(m, 16 * p, StackEntry(esp)) != 0;
    case StoreOp(address, _) =>
      if DirOf(address) >= 16 {
        AddressInLimit(address);
        assert Pte(m, 16 * (DirOf(address) / 16), EntryOf(address)) != 0;
      }
    case KernelOp(_, _, _) =>
  }

  lemma ForkMaps(m: Machine, p: nat, c: nat, size: nat, esp: int, image: Page, r: Copy, n: nat, i: nat)
    requires Inv(m) && Mapped(m) && CanFork(m, p, c, size, esp) && r == Fork(m, p, c, size, esp, image)
    requires r.Copied? && IsLive(r.m, n) && n != 0 && i < USER_PAGES && (n == c || IsLive(m, n))
    ensures Pte(r.m, 16 * n, i) != 0
  {
    var m1, m2 := ForkStages(m, p, c, size, esp, image, r);
    WindowMapped(m, m1, m2, p, c, size, n, i);
    StackArithmetic(c, esp);
    assert 16 * n != 16 * c + StackDir(esp) || i != StackEntry(esp) ==> Pte(r.m, 16 * n, i) == Pte(m2, 16 * n, i);
  }

  lemma WindowMapped(m: Machine, m1: Machine, m2: Machine, p: nat, c: nat, size: nat, n: nat, i: nat)
    requires Mapped(m) && IsLive(m, p) && 1 <= c < NR_TASKS && 0 < size <= (if p == 0 then PDE_SPAN else TASK_SIZE)
    requires SameTables(m, m1) && WindowCopied(m1, m2, p, c, EntriesPerDir(p * TASK_SIZE), DirsFor(size))
    requires 1 <= n < NR_TASKS && i < USER_PAGES && (n == c || IsLive(m, n))
    ensures Pte(m2, 16 * n, i) != 0
  {
    if n == c {
      DirsForFits(p, size);
      assert Inherits(m1, m2, p, 16 * c, i, EntriesPerDir(p * TASK_SIZE), DirsFor(size));
      assert Pte(m1, 16 * p, i) == Pte(m, 16 * p, i) != 0;
    } else {
      assert Pte(m1, 16 * n, i) == Pte(m, 16 * n, i) != 0;
      assert SameMapping(Pte(m1, 16 * n, i), Pte(m2, 16 * n, i));
    }
  }

  lemma MappedStep(m: Machine, hot: set<nat>, op: Op, r: Copy)
    requires Inv(m) && Mapped(m) && GoodSlots(op) && IsHot(hot) && Enabled(m, hot, op) && r == Step(m, op)
    ensures r.Copied? && Inv(r.m) && Mapped(r.m)
  {
    StepRefines(m, hot, Shown(m), op, r);
    forall n: nat, i: nat | IsLive(r.m, n) && i < USER_PAGES ensures Pte(r.m, 16 * n, i) != 0 {
      if n == 0 {
        assert Pte(r.m, 0, i) == Entry7(i);
      } else {
        match op
        case ForkOp(p, c, size, esp, image) =>
          ForkStep(m, p, c, size, esp, image, r);
          ForkMaps(m, p, c, size, esp, image, r, n, i);
        case StoreOp(address, value) => StoreKeepsEntry(m, hot, address, value, r, 16 * n, i);
        case KernelOp(frame, word, value) => HotStoreStep(m, hot, Shown(m), frame, word, value, r.m);
      }
    }
  }

  lemma StoreKeepsEntry(m: Machine, hot: set<nat>, address: Word, value: Word, r: Copy, d: nat, i: nat)
    requires Inv(m) && IsHot(hot) && Enabled(m, hot, StoreOp(address, value)) && r == UserStore(m, address, value)
    requires 16 <= d < 1024 && i < 1024
    ensures r.Copied? && r.m.task == m.task && (Pte(m, d, i) == 0 <==> Pte(r.m, d, i) == 0)
    ensures Pde(r.m, d) == Pde(m, d)
  {
    if CanStore(m, address) {
      StoreMoves(m, address, value, r, d, i);
      StoreKeepsTables(m, address, value, r, d);
    } else {
      SlotZeroStores(m, hot, Shown(m), address, value, r);
    }
  }

  ghost predicate RunReady(m: Machine, hot: set<nat>, ops: seq<Op>)
    requires forall k :: 0 <= k < |ops| ==> GoodSlots(ops[k])
    decreases |ops|
  {
    ops == [] || (Ready(m, hot, ops[0]) && (Step(m, ops[0]).Copied? ==> RunReady(Step(m, ops[0]).m, hot, ops[1..])))
  }

  /** A run whose steps are ready is enabled: nothing about mappings has to be assumed. */
  lemma {:induction false} ReadyRuns(m: Machine, hot: set<nat>, ops: seq<Op>)
    requires Inv(m) && Mapped(m) && (forall k :: 0 <= k < |ops| ==> GoodSlots(ops[k])) && IsHot(hot)
    requires RunReady(m, hot, ops)
    ensures RunEnabled(m, hot, ops) && Run(m, ops).Copied? && Mapped(Run(m, ops).m)
    decreases |ops|
  {
    if ops != [] {
      var r := Step(m, ops[0]);
      ReadyIsEnabled(m, hot, ops[0]);
      MappedStep(m, hot, ops[0], r);
      ReadyRuns(r.m, hot, ops[1..]);
    }
  }

  // ----- slot 0 and its children

  /** Byte esp - 1 lies in page `i` of the window. */
  ghost predicate StackInPage(esp: int, i: nat) { 4096 * i < esp <= 4096 * i + 4096 }

  lemma StackEntryIs(esp: int, i: nat)
    requires 0 < esp <= LIMIT && !StackInPage(esp, i)
    ensures StackEntry(esp) != i
  {
    var page := (esp - 1) / 4096;
    assert page * 4096 <= esp - 1 < page * 4096 + 4096 && page < 160;
  }

  /** After every fork by slot 0 the child maps all low frames, the page directory included, but for its stack page. */
  lemma ChildMapsLowPages(m: Machine, c: nat, esp: int, image: Page, r: Copy, i: nat)
    requires Inv(m) && Mapped(m) && Ready(m, {0}, ForkOp(0, c, LIMIT, esp, image))
    requires r == Fork(m, 0, c, LIMIT, esp, image)
    requires i < USER_PAGES && !StackInPage(esp, i)
    ensures r.Copied? && Inv(r.m) && Pte(r.m, 16 * c, i) != 0 && FrameOf(Pte(r.m, 16 * c, i)) == i
  {
    ReadyIsEnabled(m, {0}, ForkOp(0, c, LIMIT, esp, image));
    StackEntryIs(esp, i);
    ChildMapsParentFrames(m, 0, c, LIMIT, esp, image, r, i);
    assert Pte(m, 0, i) == Entry7(i);
    Entry7Facts(i);
  }

  /** So a store by slot 0 that changes a word of such a page changes what the child reads. */
  lemma LowPageLeaks(m: Machine, c: nat, esp: int, image: Page, r: Copy, i: nat, w: nat, value: Word)
    requires Inv(m) && Mapped(m) && Ready(m, {0}, ForkOp(0, c, LIMIT, esp, image))
    requires r == Fork(m, 0, c, LIMIT, esp, image)
    requires 5 <= i < USER_PAGES && !StackInPage(esp, i) && w < 1024
    ensures r.Copied?
    ensures r.m.mem[i][w] != value ==> View(SetWord(r.m, i, w, value), 16 * c, i) != View(r.m, 16 * c, i)
  {
    ChildMapsLowPages(m, c, esp, image, r, i);
    LowPageLeak(r.m, i, w, value, 16 * c, i);
  }

  // ----- reachable states

  /** Every state reachable from the initial one by forks and stores inside the limit: no panic on the way, exact
      counts, and the views of eager copying for every page that shows no hot frame. */
  lemma ReachableFromBoot(m: Machine, hot: set<nat>, ops: seq<Op>, r: Copy)
    requires IsBoot(m) && (forall k :: 0 <= k < |ops| ==> GoodSlots(ops[k])) && IsHot(hot) && RunReady(m, hot, ops)
    requires r == Run(m, ops)
    ensures r.Copied? && Mapped(r.m) && Agrees(r.m, hot, EagerRun(m, hot, Shown(m), ops))
    ensures forall f :: IsPool(f) ==> CountOf(r.m, f) == |Refs(r.m, f)| <= 63
  {
    BootInv(m);
    BootMapped(m);
    ReadyRuns(m, hot, ops);
    RunRefines(m, hot, Shown(m), ops);
    forall f | IsPool(f) ensures CountOf(r.m, f) == |Refs(r.m, f)| <= 63 {
      Conservation(r.m, f);
    }
  }

  lemma BootMapped(m: Machine)
    requires IsBoot(m)
    ensures Mapped(m)
  {
    forall n: nat, i: nat | IsLive(m, n) && i < USER_PAGES ensures Pte(m, 16 * n, i) != 0 {
      assert Pte(m, 0, i) == Entry7(i);
    }
  }
}
