/**
 Forks and stores leave every task structure alone (what the kernel itself writes there, such as task states, is kept
 apart from the frames), and `copy_page_tables` panics for a window that is in use.
 */
module TaskStructures {
  import opened Common
  import opened Paging
  import opened PagingInvariant
  import opened PagingSteps
  import opened PagingShare
  import opened PagingFork
  import opened CopyOnWrite
  import opened PagingFacts
  import opened MappedPages

  /** Every task structure is where it was, with the contents it had. */
  ghost predicate ImagesKept(m: Machine, m': Machine) {
    forall n :: 1 <= n < NR_TASKS && m.task[n] != 0 ==> ImageKept(m, m', n)
  }

  ghost predicate ImageKept(m: Machine, m': Machine, n: nat)
    requires n < NR_TASKS
  {
    m'.task[n] == m.task[n] < FRAMES && m'.mem[m.task[n]] == m.mem[m.task[n]]
  }

  lemma TaskFrame(m: Machine, n: nat, r: Ref)
    requires Slots(m) && NoClash(m) && 1 <= n < NR_TASKS && m.task[n] != 0 && IsRef(r) && r != TaskRef(n)
    ensures IsPool(m.task[n]) && Target(m, r) != m.task[n]
  {
    Apart(m, TaskRef(n), r);
  }

  /** Writing a frame that holds no task structure. */
  lemma OtherFrame(m: Machine, m': Machine, f: nat)
    requires Slots(m) && f < FRAMES && m'.mem == m.mem[f := m'.mem[f]]
    requires forall n :: 1 <= n < NR_TASKS && m.task[n] != 0 ==> m'.task[n] == m.task[n] != f
    ensures ImagesKept(m, m')
  {
  }

  lemma FreeIsNoTask(m: Machine, f: nat, n: nat)
    requires Refs(m, f) == {} && 1 <= n < NR_TASKS
    ensures m.task[n] != f
  {
    assert TaskRef(n) !in Refs(m, f);
  }

  lemma NewTaskImage(m: Machine, c: nat, image: Page, m1: Machine)
    requires Inv(m) && HasFree(m) && 1 <= c < NR_TASKS && m.task[c] == 0 && m1 == NewTask(m, c, image)
    ensures ImagesKept(m, m1) && m1.task[c] < FRAMES && m1.mem[m1.task[c]] == image
  {
    AllocStep(m);
    var f := FreeFrame(m);
    forall n | 1 <= n < NR_TASKS && m.task[n] != 0 ensures m1.task[n] == m.task[n] != f {
      FreeIsNoTask(m, f, n);
    }
    OtherFrame(m, m1, f);
  }

  lemma Chained(m: Machine, m1: Machine, m2: Machine)
    requires ImagesKept(m, m1) && ImagesKept(m1, m2)
    ensures ImagesKept(m, m2)
  {
    forall n | 1 <= n < NR_TASKS && m.task[n] != 0 ensures ImageKept(m, m2, n) {
      assert ImageKept(m, m1, n);
      assert m.task[n] != 0 ==> ImageKept(m1, m2, n);
    }
  }

  // ----- copy_page_tables

  /** Filling a table writes the two tables and nothing else. */
  lemma SharingKeeps(m: Machine, m': Machine, fd: nat, td: nat, nr: nat)
    requires Inv(m) && (fd == 0 || 16 <= fd < 1024) && 16 <= td < 1024 && Pde(m, fd) != 0 && Pde(m, td) != 0
    requires CopiedSoFar(m, m', fd, td, nr)
    ensures ImagesKept(m, m')
  {
    forall n | 1 <= n < NR_TASKS && m.task[n] != 0 ensures ImageKept(m, m', n) {
      TaskFrame(m, n, TableRef(td));
      if fd != 0 {
        TaskFrame(m, n, TableRef(fd));
      }
    }
  }

  lemma FilledImages(m: Machine, fd: nat, td: nat, nr: nat, m': Machine)
    requires Inv(m) && HasFree(m) && nr <= 1024 && (fd == 0 ==> nr <= USER_PAGES)
    requires 16 <= td < 1024 && (fd == 0 || 16 <= fd < 1024) && FrameOf(Pde(m, fd)) < FRAMES && fd % 16 == td % 16
    requires fd / 16 != td / 16
    requires m.task[td / 16] != 0 && Pde(m, td) == 0 && Pde(m, fd) != 0 && Mirror(m, fd - td, td / 16)
    requires m' == FilledDir(m, fd, td, nr)
    ensures ImagesKept(m, m')
  {
    var f, m1 := FreeFrame(m), GetFreePage(m);
    var m2 := SetWord(m1, 0, td, Entry7(f));
    AllocStep(m);
    FreshTable(m, fd, td, m2);
    Entry7Facts(f);
    forall n | 1 <= n < NR_TASKS && m.task[n] != 0 ensures ImageKept(m, m2, n) {
      FreeIsNoTask(m, f, n);
    }
    forall j | 0 <= j < 1024 ensures Pte(m2, td, j) == 0 {
      assert Pte(m2, td, j) == Pte(m, td, j);
    }
    CopyEntriesStep(m2, fd, td, nr, m');
    SharingKeeps(m2, m', fd, td, nr);
    Chained(m, m2, m');
  }

  lemma {:induction false} DirsKeepImages(m0: Machine, p: nat, c: nat, nr: nat, n: nat, r: Copy)
    requires p < NR_TASKS && 1 <= c < NR_TASKS && p != c && m0.task[c] != 0 && EmptyWindow(m0, c)
    requires n <= 16 && (p == 0 ==> n <= 1 && nr <= USER_PAGES) && nr <= 1024 && |FreeSet(m0)| >= n
    requires DirsDone(m0, Copied(m0), p, c, nr, 0) && r == CopyDirs(m0, 16 * p, 16 * c, nr, n)
    ensures r.Copied? && ImagesKept(m0, r.m)
  {
    if n > 0 {
      var r1 := CopyDirs(m0, 16 * p, 16 * c, nr, n - 1);
      CopyDirsStep(m0, p, c, nr, n - 1, r1);
      DirsKeepImages(m0, p, c, nr, n - 1, r1);
      NextTurnKeeps(m0, p, c, nr, n, r1, r);
    } else {
      SameImages(m0);
    }
  }

  lemma SameImages(m: Machine)
    requires Slots(m)
    ensures ImagesKept(m, m)
  {
    assert forall n :: 1 <= n < NR_TASKS && m.task[n] != 0 ==> IsPool(m.task[n]);
  }

  lemma NextTurnKeeps(m0: Machine, p: nat, c: nat, nr: nat, n: nat, r1: Copy, r: Copy)
    requires p < NR_TASKS && 1 <= c < NR_TASKS && p != c && m0.task[c] != 0 && EmptyWindow(m0, c)
    requires 1 <= n <= 16 && (p == 0 ==> n <= 1 && nr <= USER_PAGES) && nr <= 1024 && |FreeSet(m0)| >= n
    requires DirsDone(m0, r1, p, c, nr, n - 1) && r1 == CopyDirs(m0, 16 * p, 16 * c, nr, n - 1)
    requires r == CopyDirs(m0, 16 * p, 16 * c, nr, n) && ImagesKept(m0, r1.m)
    ensures r.Copied? && ImagesKept(m0, r.m)
  {
    LastTurn(m0, 16 * p, 16 * c, nr, n, r1, r);
    TurnKeepsImages(m0, r1, p, c, nr, n, 16 * p + n - 1, 16 * c + n - 1, r);
    Chained(m0, r1.m, r.m);
  }

  lemma TurnKeepsImages(m0: Machine, r1: Copy, p: nat, c: nat, nr: nat, n: nat, fd: nat, td: nat, r: Copy)
    requires p < NR_TASKS && 1 <= c < NR_TASKS && p != c && m0.task[c] != 0 && EmptyWindow(m0, c)
    requires 1 <= n <= 16 && (p == 0 ==> n <= 1 && nr <= USER_PAGES) && nr <= 1024 && |FreeSet(m0)| >= n
    requires fd == 16 * p + n - 1 && td == 16 * c + n - 1
    requires DirsDone(m0, r1, p, c, nr, n - 1) && r == CopyDir(r1.m, fd, td, nr)
    ensures r.Copied? && ImagesKept(r1.m, r.m)
  {
    var m := r1.m;
    assert td / 16 == c && td % 16 == n - 1 && fd / 16 == p && fd % 16 == n - 1;
    assert Pde(m, td) == Pde(m0, td) == 0;
    FreeSetFacts(m);
    if Pde(m, fd) != 0 {
      FilledImages(m, fd, td, nr, r.m);
    } else {
      SameImages(m);
    }
  }

  // ----- faults and stores

  lemma UnWpKeepsImages(m: Machine, d: nat, i: nat, m': Machine)
    requires Inv(m) && 16 <= d < 1024 && i < 1024 && Pte(m, d, i) != 0 && (Unshared(m, Pte(m, d, i)) || HasFree(m))
    requires FrameOf(Pde(m, d)) < FRAMES && FrameOf(Pte(m, d, i)) < FRAMES
    requires m' == UnWpPage(m, FrameOf(Pde(m, d)), i)
    ensures ImagesKept(m, m')
  {
    if HasFree(m) {
      AllocStep(m);
    }
    forall n | 1 <= n < NR_TASKS && m.task[n] != 0 ensures ImageKept(m, m', n) {
      TaskFrame(m, n, TableRef(d));
      if HasFree(m) {
        FreeIsNoTask(m, FreeFrame(m), n);
      }
    }
  }

  lemma WriteKeepsImages(m: Machine, f: nat, w: nat, value: Word)
    requires Inv(m) && f < FRAMES && w < 1024
    requires f < POOL || exists d: nat, i: nat :: 16 <= d < 1024 && i < 1024 && f == FrameOf(Pte(m, d, i))
    ensures ImagesKept(m, SetWord(m, f, w, value))
  {
    forall n | 1 <= n < NR_TASKS && m.task[n] != 0 ensures m.task[n] != f {
      if d: nat, i: nat :| 16 <= d < 1024 && i < 1024 && f == FrameOf(Pte(m, d, i)) {
        TaskFrame(m, n, PageRef(d, i));
      }
    }
    OtherFrame(m, SetWord(m, f, w, value), f);
  }

  lemma StoreKeepsImages(m: Machine, address: Word, value: Word, r: Copy)
    requires Inv(m) && r == UserStore(m, address, value) && r.Copied?
    requires DirOf(address) == 0 || 16 <= DirOf(address)
    ensures ImagesKept(m, r.m)
  {
    var d, i, w := DirOf(address), EntryOf(address), address % 4096 / 4;
    var e := Pte(m, d, i);
    if d == 0 {
      assert e == Entry7(i);
      Entry7Facts(i);
      WriteKeepsImages(m, i, w, value);
    } else if Writable(e) {
      WriteKeepsImages(m, FrameOf(e), w, value);
    } else {
      var m1 := DoWpPage(m, address);
      UnWpStep(m, d, i, m1);
      UnWpKeepsImages(m, d, i, m1);
      WriteKeepsImages(m1, FrameOf(Pte(m1, d, i)), w, value);
      Chained(m, m1, r.m);
    }
  }

  // ----- steps and runs

  lemma WindowKeepsImages(m1: Machine, p: nat, c: nat, size: nat, r: Copy)
    requires Inv(m1) && p < NR_TASKS && 1 <= c < NR_TASKS && p != c && m1.task[c] != 0 && EmptyWindow(m1, c)
    requires 0 < size <= (if p == 0 then PDE_SPAN else TASK_SIZE) && |FreeSet(m1)| >= DirsFor(size)
    requires r == CopyPageTables(m1, p * TASK_SIZE, c * TASK_SIZE, size)
    ensures r.Copied? && ImagesKept(m1, r.m)
  {
    DirsForFits(p, size);
    var nr := EntriesPerDir(p * TASK_SIZE);
    EmptyWindowMirrors(m1, p, c, nr, 16 * p - 16 * c);
    assert p * TASK_SIZE / PDE_SPAN == 16 * p && c * TASK_SIZE / PDE_SPAN == 16 * c;
    DirsKeepImages(m1, p, c, nr, DirsFor(size), r);
  }

  lemma ForkImages(m: Machine, p: nat, c: nat, size: nat, esp: int, image: Page, r: Copy)
    requires Inv(m) && CanFork(m, p, c, size, esp) && r == Fork(m, p, c, size, esp, image)
    ensures r.Copied? && ImagesKept(m, r.m) && r.m.task[c] < FRAMES && r.m.mem[r.m.task[c]] == image
  {
    FreeSetFacts(m);
    DirsForFits(p, size);
    var m1 := NewTask(m, c, image);
    NewTaskStep(m, c, image, m1);
    NewTaskImage(m, c, image, m1);
    FreeSetFacts(m1);
    var r2 := CopyPageTables(m1, p * TASK_SIZE, c * TASK_SIZE, size);
    CopyStage(m1, p, c, size, r2);
    WindowKeepsImages(m1, p, c, size, r2);
    var m2 := r2.m;
    StackMapped(m, m1, m2, p, c, size, esp);
    FreeSetFacts(m2);
    StackKeepsImages(m2, c, esp, r);
    ThreeStages(m, m1, m2, r.m, c, image);
  }

  lemma ThreeStages(m: Machine, m1: Machine, m2: Machine, m': Machine, c: nat, image: Page)
    requires ImagesKept(m, m1) && ImagesKept(m1, m2) && ImagesKept(m2, m')
    requires 1 <= c < NR_TASKS && 0 != m1.task[c] < FRAMES && m1.mem[m1.task[c]] == image
    ensures ImagesKept(m, m') && m'.task[c] < FRAMES && m'.mem[m'.task[c]] == image
  {
    Chained(m, m1, m2);
    Chained(m, m2, m');
    assert ImageKept(m1, m2, c) && ImageKept(m2, m', c);
  }

  lemma StackKeepsImages(m2: Machine, c: nat, esp: int, r: Copy)
    requires Inv(m2) && HasFree(m2) && 1 <= c < NR_TASKS && 0 < esp <= TASK_SIZE
    requires 0 <= StackDir(esp) < 16 && Pte(m2, 16 * c + StackDir(esp), StackEntry(esp)) != 0
    requires r == PrivatePage(m2, StackAddress(c, esp))
    ensures r.Copied? && ImagesKept(m2, r.m)
  {
    StackArithmetic(c, esp);
    StackStage(m2, c, esp, r);
    var d, i := 16 * c + StackDir(esp), StackEntry(esp);
    VisibleFrame(m2, d, i);
    Lin2PhyIsTheWalk(m2, StackAddress(c, esp));
    UnWpKeepsImages(m2, d, i, r.m);
  }

  /** No step writes a task structure in use, and a fork leaves its child the structure it was given. */
  lemma StepKeepsImages(m: Machine, hot: set<nat>, op: Op, r: Copy)
    requires Inv(m) && GoodSlots(op) && IsHot(hot) && Enabled(m, hot, op) && r == Step(m, op)
    ensures r.Copied? && ImagesKept(m, r.m)
    ensures op.ForkOp? ==> r.m.task[op.child] < FRAMES && r.m.mem[r.m.task[op.child]] == op.image
  {
    StepRefines(m, hot, Shown(m), op, r);
    match op
    case ForkOp(p, c, size, esp, image) => ForkImages(m, p, c, size, esp, image, r);
    case StoreOp(address, value) => StoreKeepsImages(m, address, value, r);
    case KernelOp(frame, word, value) => WriteKeepsImages(m, frame, word, value);
  }

  /** Over every run: a task structure in use keeps its frame and its contents. */
  lemma {:induction false} RunKeepsImages(m: Machine, hot: set<nat>, ops: seq<Op>)
    requires forall k :: 0 <= k < |ops| ==> GoodSlots(ops[k])
    requires Inv(m) && IsHot(hot) && RunEnabled(m, hot, ops)
    ensures Run(m, ops).Copied? && ImagesKept(m, Run(m, ops).m)
    decreases |ops|
  {
    if ops != [] {
      var r := Step(m, ops[0]);
      StepRefines(m, hot, Shown(m), ops[0], r);
      StepKeepsImages(m, hot, ops[0], r);
      RunKeepsImages(r.m, hot, ops[1..]);
      Chained(m, r.m, Run(m, ops).m);
    } else {
      SameImages(m);
    }
  }

  // ----- panics

  lemma {:induction false} FirstTurnPanics(m: Machine, fd: nat, td: nat, nr: nat, n: nat)
    requires 1 <= n && fd + n <= PAGE_WORDS && td + n <= PAGE_WORDS && nr <= PAGE_WORDS && Pde(m, td) % 2 == 1
    ensures CopyDirs(m, fd, td, nr, n) == Panic
  {
    if n > 1 {
      FirstTurnPanics(m, fd, td, nr, n - 1);
    }
  }

  /** `copy_page_tables` to the window of a slot that has a task panics, whatever the parent. */
  lemma BusyWindowPanics(m: Machine, p: nat, c: nat, size: nat)
    requires Inv(m) && Mapped(m) && p < NR_TASKS && IsLive(m, c) && 0 < size <= TASK_SIZE
    ensures CopyPageTables(m, p * 0x4000000, c * 0x4000000, size) == Panic
  {
    DirsForCovers(size, 0);
    assert Pte(m, 16 * c, 0) != 0;
    assert DirsFor(size) <= 16;
    assert p * TASK_SIZE / PDE_SPAN == 16 * p && c * TASK_SIZE / PDE_SPAN == 16 * c;
    FirstTurnPanics(m, 16 * p, 16 * c, EntriesPerDir(p * TASK_SIZE), DirsFor(size));
  }

  /** So does any address that is no multiple of 4 MB. */
  lemma UnalignedPanics(m: Machine, from: Word, to: Word, size: nat)
    requires from % 0x400000 != 0 || to % 0x400000 != 0
    ensures CopyPageTables(m, from, to, size) == Panic
  {
  }
}
