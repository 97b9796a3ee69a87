/** Consequences of the paging invariant, its initial state, and the exact limits of copy-on-write isolation. */
module PagingFacts {
  import opened Common
  import opened Paging
  import opened PagingInvariant
  import opened PagingSteps
  import opened PagingShare
  import opened PagingFork
  import opened CopyOnWrite

  // ----- the initial state

  /** After `setup_paging` and `mem_init(4 MB, 16 MB)`: identity tables, pool free, frames from 1 to 4 MB used. */
  ghost predicate IsBoot(m: Machine) {
    && (forall d :: 0 <= d < 1024 ==> Pde(m, d) == if d < 4 then Entry7(d + 1) else 0)
    && (forall d, i :: 0 <= d < 4 && 0 <= i < 1024 ==> Pte(m, d, i) == Entry7(1024 * d + i))
    && (forall f :: LOW_FRAMES <= f < FRAMES ==> CountOf(m, f) == if f < POOL then USED else 0)
    && (forall n :: 0 <= n < NR_TASKS ==> m.task[n] == 0)
  }

  lemma BootInv(m: Machine)
    requires IsBoot(m)
    ensures Inv(m)
  {
    forall d, i | 16 <= d < 1024 && 0 <= i < 1024 ensures Pte(m, d, i) == 0 && GoodEntry(Pte(m, d, i), d, i) {
      assert Pde(m, d) == 0;
    }
    forall r | IsRef(r) ensures Target(m, r) == 0 {
      assert r.TableRef? ==> Pde(m, r.d) == 0;
    }
    forall f | POOL <= f < FRAMES ensures CountOf(m, f) == |Refs(m, f)| {
      assert Refs(m, f) == {};
    }
  }

  /** The first fork, by slot 0 with the 640 KB limit of `INIT_TASK`, can always be taken. */
  lemma BootCanFork(m: Machine, c: nat, esp: int)
    requires IsBoot(m) && 1 <= c < NR_TASKS && 0 < esp <= 0xa0000
    ensures CanFork(m, 0, c, 0xa0000, esp)
  {
    assert Pte(m, 0, StackEntry(esp)) == Entry7(StackEntry(esp));
    forall k | k in {1000, 1001, 1002} ensures k in FreeSet(m) {
      assert CountOf(m, k + LOW_FRAMES) == 0;
    }
    assert {1000, 1001, 1002} <= FreeSet(m);
    SubsetSize({1000, 1001, 1002}, FreeSet(m));
  }

  // ----- counting

  /** Reference counting is exact: a pool frame's byte is its number of references, at most 63; 0 means nobody refers to
      it. */
  lemma Conservation(m: Machine, f: nat)
    requires Inv(m) && IsPool(f)
    ensures CountOf(m, f) == |Refs(m, f)| <= 63
    ensures CountOf(m, f) == 0 <==> (forall r :: IsRef(r) ==> Target(m, r) != f)
  {
    AtMost63(m, f);
    if CountOf(m, f) == 0 {
      forall r | IsRef(r) ensures Target(m, r) != f {
        assert r !in Refs(m, f);
      }
    } else {
      var r :| r in Refs(m, f);
    }
  }

  /** What all slots see, as a state of the reference model. */
  ghost function Shown(m: Machine): (eager: Eager)
    ensures forall hot :: Agrees(m, hot, eager)
  {
    (d: nat, i: nat) => if d < 1024 && i < 1024 then View(m, d, i) else None
  }

  /** User mode may use every page of slots 1 and up, and the table that maps it. */
  lemma UserModeMayUse(m: Machine, d: nat, i: nat)
    requires Inv(m) && 16 <= d < 1024 && i < 1024 && Pte(m, d, i) != 0
    ensures Pte(m, d, i) % 2 == 1 && Pte(m, d, i) / 4 % 2 == 1 && Pde(m, d) % 4096 == 7
  {
    assert GoodEntry(Pte(m, d, i), d, i);
    assert Pde(m, d) != 0;
    VisibleFrame(m, d, i);
    Entry7Facts(FrameOf(Pde(m, d)));
  }

  // ----- the stack page

  /** Entry (d, i) shows what entry (d0, i) showed in `m`, and goes on doing so when any word of that page is
      overwritten. */
  ghost predicate KeepsOwnCopy(m: Machine, m': Machine, d: nat, d0: nat, i: nat) {
    && d < 1024 && d0 < 1024 && i < 1024 && FrameOf(Pte(m', d0, i)) < FRAMES && View(m', d, i) == View(m, d0, i)
    && forall w, value: Word :: 0 <= w < 1024 ==>
         View(SetWord(m', FrameOf(Pte(m', d0, i)), w, value), d, i) == View(m, d0, i)
  }

  /** The frame behind the parent's stack page can be overwritten at will after a fork, by slot 0 too, and the child
      still reads what the parent had there at the fork, if and only if that page is not the page directory. */
  lemma StackPageIsPrivate(m: Machine, p: nat, c: nat, size: nat, esp: int, image: Page, r: Copy)
    requires Inv(m) && CanFork(m, p, c, size, esp) && r == Fork(m, p, c, size, esp, image)
    ensures r.Copied? && (KeepsOwnCopy(m, r.m, 16 * c + StackDir(esp), 16 * p + StackDir(esp), StackEntry(esp))
                     <==> NotDirectory(m, 16 * p + StackDir(esp), StackEntry(esp)))
  {
    StackDirFits(m, p, c, size, esp);
    if NotDirectory(m, 16 * p + StackDir(esp), StackEntry(esp)) {
      StackOutsideDirectory(m, p, c, size, esp, image, r);
    } else {
      StackInDirectory(m, p, c, size, esp, image, r);
    }
  }

  lemma StackDirFits(m: Machine, p: nat, c: nat, size: nat, esp: int)
    requires CanFork(m, p, c, size, esp)
    ensures 0 <= StackDir(esp) < 16 && (p == 0 ==> StackDir(esp) == 0)
  {
    DirsForFits(p, size);
  }

  lemma StackOutsideDirectory(m: Machine, p: nat, c: nat, size: nat, esp: int, image: Page, r: Copy)
    requires Inv(m) && CanFork(m, p, c, size, esp) && r == Fork(m, p, c, size, esp, image)
    requires 0 <= StackDir(esp) < 16 && (p == 0 ==> StackDir(esp) == 0)
    requires NotDirectory(m, 16 * p + StackDir(esp), StackEntry(esp))
    ensures r.Copied? && KeepsOwnCopy(m, r.m, 16 * c + StackDir(esp), 16 * p + StackDir(esp), StackEntry(esp))
  {
    ForkStep(m, p, c, size, esp, image, r);
    var d, d0, i := 16 * c + StackDir(esp), 16 * p + StackDir(esp), StackEntry(esp);
    ForkedStack(m, r.m, p, c, size, esp, d, d0, i);
  }

  /** A stack in a first page that shows the directory: the child's copy is of the directory after the fork. */
  lemma StackInDirectory(m: Machine, p: nat, c: nat, size: nat, esp: int, image: Page, r: Copy)
    requires Inv(m) && CanFork(m, p, c, size, esp) && r == Fork(m, p, c, size, esp, image)
    requires 0 <= StackDir(esp) < 16 && (p == 0 ==> StackDir(esp) == 0)
    requires !NotDirectory(m, 16 * p + StackDir(esp), StackEntry(esp))
    ensures r.Copied? && !KeepsOwnCopy(m, r.m, 16 * c + StackDir(esp), 16 * p + StackDir(esp), StackEntry(esp))
  {
    if StackDir(esp) != 0 || StackEntry(esp) != 0 {
      LaterPage(m, 16 * p + StackDir(esp), StackEntry(esp));
    }
    FirstPageInherited(m, p, c, size, esp, image, r);
  }

  /** Only the first page of a window can show the directory. */
  lemma LaterPage(m: Machine, d: nat, i: nat)
    requires Inv(m) && ViewDir(d) && i < 1024 && (d % 16 != 0 || i != 0)
    ensures NotDirectory(m, d, i)
  {
    if d == 0 {
      assert Pte(m, 0, i) == Entry7(i);
      Entry7Facts(i);
    } else {
      assert GoodEntry(Pte(m, d, i), d, i);
    }
  }

  lemma ForkedStack(m: Machine, m': Machine, p: nat, c: nat, size: nat, esp: int, d: nat, d0: nat, i: nat)
    requires Inv(m) && CanFork(m, p, c, size, esp) && 0 <= StackDir(esp) < 16 && Forked(m, m', p, c, size, esp)
    requires d == 16 * c + StackDir(esp) && d0 == 16 * p + StackDir(esp) && i == StackEntry(esp)
    requires (p == 0 ==> d0 == 0) && NotDirectory(m, d0, i)
    ensures KeepsOwnCopy(m, m', d, d0, i)
  {
    assert d / 16 == c && d % 16 == StackDir(esp) && ViewDir(d0) && d0 / 16 == p;
    var nr, n := EntriesPerDir(p * TASK_SIZE), DirsFor(size);
    assert DataSource(m, p, c, nr, n, d, i) && DataSource(m, p, c, nr, n, d0, i);
    assert View(m', d0, i) == ForkView(m, p, c, nr, n, d0, i);
    assert View(m', d, i) == ForkView(m, p, c, nr, n, d, i);
    VisibleFrame(m, d0, i);
    ParentKeepsData(m, m', p, c, size, esp, d0, i);
    forall w: nat, value: Word | w < 1024
      ensures FrameOf(Pte(m', d0, i)) < FRAMES
      ensures View(SetWord(m', FrameOf(Pte(m', d0, i)), w, value), d, i) == View(m', d, i)
    {
      PrivatePageKept(m', d, d0, i, w, value);
    }
  }

  lemma ParentKeepsData(m: Machine, m': Machine, p: nat, c: nat, size: nat, esp: int, d0: nat, i: nat)
    requires Inv(m) && p < NR_TASKS && 1 <= c < NR_TASKS && p != c && 0 <= StackDir(esp) < 16
    requires Forked(m, m', p, c, size, esp)
    requires ViewDir(d0) && d0 / 16 == p && i < 1024 && NotDirectory(m, d0, i)
    ensures NotDirectory(m', d0, i)
  {
    if d0 % 16 != 0 || i != 0 {
      LaterPage(m', d0, i);
    } else {
      StackArithmetic(c, esp);
      assert EntryKept(m, m', p, c, EntriesPerDir(p * TASK_SIZE), DirsFor(size), d0, i);
    }
  }

  /** A store to the frame of any data page leaves every other writable page alone. */
  lemma PrivatePageKept(m: Machine, d: nat, d0: nat, i: nat, w: nat, value: Word)
    requires Inv(m) && 16 <= d < 1024 && ViewDir(d0) && d0 != d && i < 1024 && w < 1024
    requires Writable(Pte(m, d, i)) && Pte(m, d0, i) != 0 && NotDirectory(m, d0, i)
    ensures FrameOf(Pte(m, d0, i)) < FRAMES
    ensures View(SetWord(m, FrameOf(Pte(m, d0, i)), w, value), d, i) == View(m, d, i)
  {
    WriterIsAlone(m, d, i);
    VisibleFrame(m, d0, i);
    PageIsNoTable(m, d0, i, d);
    var f := FrameOf(Pte(m, d0, i));
    var m' := SetWord(m, f, w, value);
    assert Pde(m', d) == Pde(m, d) && Pte(m', d, i) == Pte(m, d, i);
  }

  // ----- slot 0's stack

  lemma ForkMoves(m: Machine, p: nat, c: nat, size: nat, esp: int, image: Page, r: Copy, d: nat, i: nat)
    requires Inv(m) && CanFork(m, p, c, size, esp) && r == Fork(m, p, c, size, esp, image) && OwnLowPage(m, i)
    requires 16 <= d < 1024 && d % 16 == 0 && (p == 0 ==> StackEntry(esp) == i)
    ensures r.Copied? && FrameOf(Pte(r.m, d, i)) != i
  {
    var m1, m2 := ForkStages(m, p, c, size, esp, image, r);
    ForkMovesTo(m, m1, m2, r.m, p, c, size, 16 * c + StackDir(esp), StackEntry(esp), d, i);
  }

  /** The same from the stages of the fork, (td, ti) being the child's stack page. */
  lemma ForkMovesTo(m: Machine, m1: Machine, m2: Machine, m': Machine, p: nat, c: nat, size: nat,
      td: nat, ti: nat, d: nat, i: nat)
    requires p < NR_TASKS && 1 <= c < NR_TASKS && SameTables(m, m1) && OwnLowPage(m, i)
    requires WindowCopied(m1, m2, p, c, EntriesPerDir(p * TASK_SIZE), DirsFor(size))
    requires 16 <= td < 1024 && td / 16 == c && ti < 1024 && Resolved(m2, m', td, ti)
    requires 16 <= d < 1024 && d % 16 == 0 && (p == 0 ==> td == 16 * c && ti == i)
    ensures FrameOf(Pte(m', d, i)) != i
  {
    if d != td || i != ti {
      assert Pte(m', d, i) == Pte(m2, d, i);
      CopiedElsewhere(m, m1, m2, p, c, EntriesPerDir(p * TASK_SIZE), DirsFor(size), d, i);
    }
  }

  lemma CopiedElsewhere(m: Machine, m1: Machine, m2: Machine, p: nat, c: nat, nr: nat, n: nat, d: nat, i: nat)
    requires p < NR_TASKS && 1 <= c < NR_TASKS && SameTables(m, m1) && WindowCopied(m1, m2, p, c, nr, n)
    requires OwnLowPage(m, i)
    requires 16 <= d < 1024 && d % 16 == 0 && (d / 16 == c ==> p != 0)
    ensures FrameOf(Pte(m2, d, i)) != i
  {
    assert Pte(m1, d, i) == Pte(m, d, i);
    if d / 16 == c {
      assert Pte(m1, 16 * p, i) == Pte(m, 16 * p, i);
      assert Inherits(m1, m2, p, d, i, nr, n);
    }
  }

  lemma OwnPageStep(m: Machine, hot: set<nat>, op: Op, i: nat, r: Copy)
    requires Inv(m) && GoodSlots(op) && IsHot(hot) && Enabled(m, hot, op) && r == Step(m, op)
    requires OwnLowPage(m, i) && (op.ForkOp? && op.parent == 0 ==> StackEntry(op.esp) == i)
    ensures r.Copied? && Inv(r.m) && OwnLowPage(r.m, i)
  {
    StepRefines(m, hot, Shown(m), op, r);
    forall d | 16 <= d < 1024 && d % 16 == 0 ensures FrameOf(Pte(r.m, d, i)) != i {
      match op
      case ForkOp(p, c, size, esp, image) => ForkMoves(m, p, c, size, esp, image, r, d, i);
      case StoreOp(address, value) =>
        if CanStore(m, address) {
          StoreMoves(m, address, value, r, d, i);
        } else {
          SlotZeroStores(m, hot, Shown(m), address, value, r);
        }
      case KernelOp(frame, word, value) => HotStoreStep(m, hot, Shown(m), frame, word, value, r.m);
    }
  }

  /** As long as slot 0 forks with its stack in page `i`, that page stays its own over every run, whatever all slots do:
      the store is enabled for ever, and by `RunRefines` no slot ever sees it. */
  lemma {:induction false} StackPageStaysOwn(m: Machine, hot: set<nat>, ops: seq<Op>, i: nat)
    requires Inv(m) && (forall k :: 0 <= k < |ops| ==> GoodSlots(ops[k])) && IsHot(hot) && RunEnabled(m, hot, ops)
    requires OwnLowPage(m, i)
    requires forall k :: 0 <= k < |ops| && ops[k].ForkOp? && ops[k].parent == 0 ==> StackEntry(ops[k].esp) == i
    ensures Run(m, ops).Copied? && OwnLowPage(Run(m, ops).m, i)
    decreases |ops|
  {
    if ops != [] {
      var r := Step(m, ops[0]);
      OwnPageStep(m, hot, ops[0], i, r);
      StackPageStaysOwn(r.m, hot, ops[1..], i);
    }
  }

  // ----- where isolation stops

  /** A store by slot 0 to one of its pages reaches another slot exactly when that slot still maps the low frame. */
  lemma LowPageLeak(m: Machine, i: nat, w: nat, value: Word, d: nat, j: nat)
    requires Inv(m) && 5 <= i < USER_PAGES && w < 1024 && 16 <= d < 1024 && j < 1024
    ensures View(SetWord(m, i, w, value), d, j) != View(m, d, j) <==>
              Pte(m, d, j) != 0 && FrameOf(Pte(m, d, j)) == i && m.mem[i][w] != value
  {
    var m' := SetWord(m, i, w, value);
    WriteFrame(m, m', i);
    assert Pte(m', d, j) == Pte(m, d, j);
    assert m'.mem[i][w] == value;
    assert m.mem[i][w] == value ==> m'.mem[i] == m.mem[i];
    if Pte(m, d, j) != 0 {
      VisibleFrame(m, d, j);
    }
  }

  /** Right after a fork the child maps, below 640 KB, the very frames of its parent, but for its stack page. */
  lemma ChildMapsParentFrames(m: Machine, p: nat, c: nat, size: nat, esp: int, image: Page, r: Copy, i: nat)
    requires Inv(m) && CanFork(m, p, c, size, esp) && r == Fork(m, p, c, size, esp, image)
    requires i < USER_PAGES && (StackDir(esp) != 0 || StackEntry(esp) != i)
    ensures r.Copied? && Inv(r.m) && SameMapping(Pte(m, 16 * p, i), Pte(r.m, 16 * c, i))
  {
    var m1, m2 := ForkStages(m, p, c, size, esp, image, r);
    EntryCopied(m, m1, m2, p, c, size, i);
    assert Pte(r.m, 16 * c, i) == Pte(m2, 16 * c, i);
  }

  /** The first page of a slot is stable across other slots' forks exactly when it is not the page directory's frame. */
  lemma FirstPageStable(m: Machine, p: nat, c: nat, size: nat, esp: int, image: Page, r: Copy, n: nat)
    requires Inv(m) && CanFork(m, p, c, size, esp) && r == Fork(m, p, c, size, esp, image)
    requires 1 <= n < NR_TASKS && n != c && Pte(m, 16 * n, 0) != 0
    ensures r.Copied? && (View(r.m, 16 * n, 0) == View(m, 16 * n, 0) <==> NotDirectory(m, 16 * n, 0))
  {
    var m1, m2 := ForkStages(m, p, c, size, esp, image, r);
    OtherFirstPage(m, m1, m2, r.m, p, c, size, n, 16 * c + StackDir(esp), StackEntry(esp));
  }

  lemma OtherFirstPage(m: Machine, m1: Machine, m2: Machine, m': Machine, p: nat, c: nat, size: nat,
      n: nat, td: nat, i: nat)
    requires Inv(m) && p < NR_TASKS && 1 <= c < NR_TASKS && 1 <= n < NR_TASKS && n != c && Pte(m, 16 * n, 0) != 0
    requires SameTables(m, m1) && DataKept(m, m1) && EmptyWindow(m1, c)
    requires WindowCopied(m1, m2, p, c, EntriesPerDir(p * TASK_SIZE), DirsFor(size)) && SameViews(m2, m')
    requires 16 <= td < 1024 && td / 16 == c && i < 1024 && Pte(m2, td, i) != 0
    ensures View(m', 16 * n, 0) == View(m, 16 * n, 0) <==> NotDirectory(m, 16 * n, 0)
  {
    assert Pte(m1, 16 * n, 0) == Pte(m, 16 * n, 0);
    assert SameMapping(Pte(m1, 16 * n, 0), Pte(m2, 16 * n, 0));
    FirstPage(m, m1, m2, c, 16 * n, 16 * n, td, i);
    assert View(m', 16 * n, 0) == View(m2, 16 * n, 0);
  }

  /** A child gets the first page its parent had at the fork exactly when that is not the page directory's frame. */
  lemma FirstPageInherited(m: Machine, p: nat, c: nat, size: nat, esp: int, image: Page, r: Copy)
    requires Inv(m) && CanFork(m, p, c, size, esp) && r == Fork(m, p, c, size, esp, image) && Pte(m, 16 * p, 0) != 0
    ensures r.Copied? && (View(r.m, 16 * c, 0) == View(m, 16 * p, 0) <==> NotDirectory(m, 16 * p, 0))
  {
    var m1, m2 := ForkStages(m, p, c, size, esp, image, r);
    EntryCopied(m, m1, m2, p, c, size, 0);
    FirstPage(m, m1, m2, c, 16 * p, 16 * c, 16 * c + StackDir(esp), StackEntry(esp));
    assert View(r.m, 16 * c, 0) == View(m2, 16 * c, 0);
  }

  lemma EntryCopied(m: Machine, m1: Machine, m2: Machine, p: nat, c: nat, size: nat, i: nat)
    requires p < NR_TASKS && 1 <= c < NR_TASKS && 0 < size <= (if p == 0 then PDE_SPAN else TASK_SIZE)
    requires SameTables(m, m1) && i < USER_PAGES
    requires forall d, j :: 16 <= d < 1024 && 0 <= j < 1024 && d / 16 == c ==>
               Inherits(m1, m2, p, d, j, EntriesPerDir(p * TASK_SIZE), DirsFor(size))
    ensures SameMapping(Pte(m, 16 * p, i), Pte(m2, 16 * c, i))
  {
    DirsForFits(p, size);
    assert Pte(m1, 16 * p, i) == Pte(m, 16 * p, i);
    assert Inherits(m1, m2, p, 16 * c, i, EntriesPerDir(p * TASK_SIZE), DirsFor(size));
  }

  /** Whatever entry maps the frame of first page `d0` after the fork; (td, i) is some mapped page of the child. */
  lemma FirstPage(m: Machine, m1: Machine, m2: Machine, c: nat, d0: nat, d: nat, td: nat, i: nat)
    requires Inv(m) && 1 <= c < NR_TASKS && SameTables(m, m1) && EmptyWindow(m1, c) && DataKept(m, m1)
    requires DataKept(m1, m2)
    requires ViewDir(d0) && ViewDir(d) && Pte(m, d0, 0) != 0 && SameMapping(Pte(m, d0, 0), Pte(m2, d, 0))
    requires 16 <= td < 1024 && td / 16 == c && i < 1024 && Pte(m2, td, i) != 0
    ensures View(m2, d, 0) == View(m, d0, 0) <==> NotDirectory(m, d0, 0)
  {
    VisibleFrame(m, d0, 0);
    assert Pte(m1, d0, 0) == Pte(m, d0, 0);
    if FrameOf(Pte(m, d0, 0)) == 0 {
      assert Pde(m, td) == Pde(m1, td) == 0;
      assert m.mem[0][td] == 0 && m2.mem[0][td] != 0;
    }
  }
}
