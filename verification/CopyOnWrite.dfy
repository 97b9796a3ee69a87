/**
 Copy-on-write refines eager copying.  A run is any sequence of forks and user stores; the reference model gives every
 slot its own pages and copies them all at fork.
 */
module CopyOnWrite {
  import opened Common
  import opened Paging
  import opened PagingInvariant
  import opened PagingSteps
  import opened PagingShare
  import opened PagingFork

  // ----- the steps of the machine

  /** `copy_process` claims a frame for the task structure and fills it. */
  function NewTask(m: Machine, c: nat, image: Page): Machine
    requires HasFree(m) && c < NR_TASKS
  {
    var claimed := GetFreePage(m);
    claimed.(task := claimed.task[c := FreeFrame(m)], mem := claimed.mem[FreeFrame(m) := image])
  }

  /** The page holding byte esp - 1, in the window of slot `c`. */
  function StackAddress(c: nat, esp: int): Word { ((esp + 4095) / 4096 * 4096 + c * 0x4000000 - 4096) % 0x1_0000_0000 }

  predicate CanResolve(m: Machine, t: nat, i: nat) {
    t < FRAMES && i < PAGE_WORDS && FrameOf(m.mem[t][i]) < FRAMES && (Unshared(m, m.mem[t][i]) || HasFree(m))
  }

  /** `un_wp_page(lin2phy(address))`. */
  function PrivatePage(m: Machine, address: Word): Copy {
    var entry := Lin2Phy(m, address);
    if CanResolve(m, entry / 4096, entry % 4096 / 4) then Copied(UnWpPage(m, entry / 4096, entry % 4096 / 4)) else Wild
  }

  /** The memory side of `copy_process` for parent slot `p` and child slot `c`. */
  function Fork(m: Machine, p: nat, c: nat, size: nat, esp: int, image: Page): Copy
    requires p < NR_TASKS && c < NR_TASKS
  {
    if !HasFree(m) then Wild
    else match CopyPageTables(NewTask(m, c, image), p * TASK_SIZE, c * TASK_SIZE, size)
      case Copied(m2) => PrivatePage(m2, StackAddress(c, esp))
      case other => other
  }

  function Store(m: Machine, address: Word, value: Word): Machine
    requires FrameOf(Pte(m, DirOf(address), EntryOf(address))) < FRAMES
  {
    SetWord(m, FrameOf(Pte(m, DirOf(address), EntryOf(address))), address % 4096 / 4, value)
  }

  /** A user store: a read-only page faults into `do_wp_page`, then the store is retried. */
  function UserStore(m: Machine, address: Word, value: Word): Copy {
    var d, i := DirOf(address), EntryOf(address);
    var e := Pte(m, d, i);
    if e == 0 || FrameOf(e) >= FRAMES then Wild
    else if Writable(e) then Copied(Store(m, address, value))
    else if !CanResolve(m, FrameOf(Pde(m, d)), i) then Wild
    else
      var resolved := DoWpPage(m, address);
      if FrameOf(Pte(resolved, d, i)) < FRAMES then Copied(Store(resolved, address, value)) else Wild
  }

  datatype Op =
    | ForkOp(parent: nat, child: nat, size: nat, esp: int, image: Page)
    | StoreOp(address: Word, value: Word)
    | KernelOp(frame: nat, word: nat, value: Word)

  predicate GoodSlots(op: Op) {
    && (op.ForkOp? ==> op.parent < NR_TASKS && op.child < NR_TASKS)
    && (op.KernelOp? ==> op.frame < FRAMES && op.word < PAGE_WORDS)
  }

  function Step(m: Machine, op: Op): Copy
    requires GoodSlots(op)
  {
    match op
    case ForkOp(p, c, size, esp, image) => Fork(m, p, c, size, esp, image)
    case StoreOp(address, value) => UserStore(m, address, value)
    case KernelOp(frame, word, value) => Copied(SetWord(m, frame, word, value))
  }

  // ----- the reference model

  /** Hot frames are the low frames written while other slots map them: the page directory, which fork writes, and any
      frames that the kernel keeps its variables in or slot 0 goes on writing. */
  ghost predicate IsHot(hot: set<nat>) { 0 in hot && forall f :: f in hot ==> f < USER_PAGES }

  /** The hot frame that entry (d, i) shows. */
  ghost function HotFrame(m: Machine, hot: set<nat>, d: nat, i: nat): (f: Option<nat>)
    ensures f.Some? ==> d < 1024 && i < 1024 && f.value in hot && Pte(m, d, i) != 0 && FrameOf(Pte(m, d, i)) == f.value
  {
    if d < 1024 && i < 1024 && Pte(m, d, i) != 0 && FrameOf(Pte(m, d, i)) in hot then Some(FrameOf(Pte(m, d, i)))
    else None
  }

  /** What each entry of each slot's window holds when nothing is shared. */
  type Eager = (nat, nat) -> Option<Page>

  function StoreTo(page: Option<Page>, w: nat, value: Word): Option<Page>
    requires w < PAGE_WORDS
  {
    if page.Some? then Some(page.value[w := value]) else None
  }

  /** Fork copies every 4 MB that begin below the parent's limit, of slot 0 only the first 640 KB.  Of a page that shows
      a hot frame the model does not know the contents: a store to it, or a fork, takes it over as it then is. */
  ghost function EagerStep(m: Machine, m': Machine, hot: set<nat>, eager: Eager, op: Op): Eager
    requires IsHot(hot)
  {
    match op
    case ForkOp(p, c, size, _, _) =>
      ((d: nat, i: nat) =>
         if d / 16 != c then eager(d, i)
         else if d % 16 * 0x400000 < size && (p == 0 ==> i < 160) then
           var f := HotFrame(m, hot, 16 * p + d % 16, i);
           if f.Some? then Some(m'.mem[f.value]) else eager(16 * p + d % 16, i)
         else None)
    case StoreOp(address, value) =>
      ((d: nat, i: nat) =>
         if d != DirOf(address) || i != EntryOf(address) then eager(d, i)
         else StoreTo(if HotFrame(m, hot, d, i).Some? then View(m, d, i) else eager(d, i), address % 4096 / 4, value))
    case KernelOp(_, _, _) => eager
  }

  /** Entry (d, i) does not show frame 0, the page directory; only the first page of a window can. */
  ghost predicate NotDirectory(m: Machine, d: nat, i: nat)
    requires d < 1024 && i < 1024
  {
    Pte(m, d, i) == 0 || FrameOf(Pte(m, d, i)) != 0
  }

  /** Every page of every slot that does not show a hot frame reads as in the reference model. */
  ghost predicate Agrees(m: Machine, hot: set<nat>, eager: Eager) {
    forall d: nat, i: nat :: ViewDir(d) && i < 1024 && HotFrame(m, hot, d, i).None? ==> View(m, d, i) == eager(d, i)
  }

  // ----- when a step may be taken

  function StackDir(esp: int): int { (esp - 1) / 0x400000 }

  function StackEntry(esp: int): int { (esp - 1) / 4096 % 1024 }

  /** Forks into an empty slot with enough free frames and a mapped stack page. */
  ghost predicate CanFork(m: Machine, p: nat, c: nat, size: nat, esp: int)
  {
    && p < NR_TASKS && 1 <= c < NR_TASKS && (p == 0 || m.task[p] != 0) && m.task[c] == 0
    && 0 < size <= (if p == 0 then PDE_SPAN else TASK_SIZE)
    && 0 < esp <= TASK_SIZE && StackDir(esp) < DirsFor(size) && StackEntry(esp) < EntriesPerDir(p * TASK_SIZE)
    && Pte(m, 16 * p + StackDir(esp), StackEntry(esp)) != 0
    && |FreeSet(m)| >= DirsFor(size) + 2
  }

  /** Slot 0 may store to its own pages above the page tables as long as no other slot maps them. */
  ghost predicate OwnLowPage(m: Machine, i: nat) {
    5 <= i < USER_PAGES && forall d :: 16 <= d < 1024 && d % 16 == 0 ==> FrameOf(Pte(m, d, i)) != i
  }

  ghost predicate CanStore(m: Machine, address: Word) {
    var d, i := DirOf(address), EntryOf(address);
    if d < 16 then d == 0 && OwnLowPage(m, i)
    else Pte(m, d, i) != 0 && (Writable(Pte(m, d, i)) || Unshared(m, Pte(m, d, i)) || HasFree(m))
  }

  /** The kernel may store to hot frames, and so may slot 0. */
  ghost predicate CanStoreHot(hot: set<nat>, f: nat) { f in hot && 5 <= f < USER_PAGES }

  ghost predicate Enabled(m: Machine, hot: set<nat>, op: Op) {
    match op
    case ForkOp(p, c, size, esp, _) => CanFork(m, p, c, size, esp)
    case StoreOp(address, _) => CanStore(m, address) || (DirOf(address) == 0 && CanStoreHot(hot, EntryOf(address)))
    case KernelOp(frame, _, _) => CanStoreHot(hot, frame)
  }

  // ----- fork

  lemma NewTaskStep(m: Machine, c: nat, image: Page, m1: Machine)
    requires Inv(m) && HasFree(m) && 1 <= c < NR_TASKS && m.task[c] == 0 && m1 == NewTask(m, c, image)
    ensures Inv(m1) && SameTables(m, m1) && DataKept(m, m1) && m1.task == m.task[c := FreeFrame(m)] && FreeFrame(m) != 0
    ensures FreeSet(m1) == FreeSet(m) - {FreeIndex(m.memMap)} && EmptyWindow(m1, c)
  {
    var f, claimed := FreeFrame(m), GetFreePage(m);
    AllocStep(m);
    FreeSetFacts(m);
    LinkTask(claimed, c, f, image);
    assert FreeSet(m1) == FreeSet(claimed);
    DataOutside(m, m1, f);
    forall d | 16 <= d < 1024 && d / 16 == c ensures Pde(m1, d) == 0 {
      assert Pde(m1, d) == Pde(claimed, d) == Pde(m, d);
    }
  }

  lemma DirsForFits(p: nat, size: nat)
    requires 0 < size <= (if p == 0 then PDE_SPAN else TASK_SIZE)
    ensures 1 <= DirsFor(size) <= 16 && (p == 0 ==> DirsFor(size) == 1)
  {
  }

  /** The directory entries copied are those whose 4 MB begin below the limit. */
  lemma DirsForCovers(size: nat, k: nat)
    requires size <= TASK_SIZE && k < 16
    ensures k < DirsFor(size) <==> k * 0x400000 < size
  {
    var q := (size + 0x3fffff) / 0x400000;
    assert q * 0x400000 <= size + 0x3fffff < (q + 1) * 0x400000;
  }

  /** The window of an empty slot is filled without any panic. */
  lemma CopyStage(m1: Machine, p: nat, c: nat, size: nat, r: Copy)
    requires Inv(m1) && p < NR_TASKS && 1 <= c < NR_TASKS && p != c && m1.task[c] != 0 && EmptyWindow(m1, c)
    requires 0 < size <= (if p == 0 then PDE_SPAN else TASK_SIZE) && |FreeSet(m1)| >= DirsFor(size)
    requires r == CopyPageTables(m1, p * TASK_SIZE, c * TASK_SIZE, size)
    ensures DirsDone(m1, r, p, c, EntriesPerDir(p * TASK_SIZE), DirsFor(size))
  {
    DirsForFits(p, size);
    var nr := EntriesPerDir(p * TASK_SIZE);
    EmptyWindowMirrors(m1, p, c, nr, 16 * p - 16 * c);
    CopyDirsStep(m1, p, c, nr, DirsFor(size), CopyDirs(m1, 16 * p, 16 * c, nr, DirsFor(size)));
    assert p * TASK_SIZE / PDE_SPAN == 16 * p && c * TASK_SIZE / PDE_SPAN == 16 * c;
  }

  lemma PageOfByte(x: nat)
    ensures (x + 4096) / 4096 == x / 4096 + 1 && x / 0x400000 == x / 4096 / 1024
  {
  }

  lemma WindowAddress(c: nat, k: nat, i: nat)
    requires c < NR_TASKS && k < 16 && i < 1024
    ensures var a := c * 0x4000000 + k * 0x400000 + i * 4096;
            a < 0x1_0000_0000 && DirOf(a) == 16 * c + k && EntryOf(a) == i
  {
    var a: nat := c * 0x4000000 + k * 0x400000 + i * 4096;
    assert a == (16 * c + k) * 0x400000 + i * 4096;
    assert a / 4096 == (16 * c + k) * 1024 + i;
  }

  lemma StackArithmetic(c: nat, esp: int)
    requires c < NR_TASKS && 0 < esp <= TASK_SIZE
    ensures var a := StackAddress(c, esp);
            DirOf(a) == 16 * c + StackDir(esp) && EntryOf(a) == StackEntry(esp) && 0 <= StackDir(esp) < 16
  {
    var page := (esp - 1) / 4096;
    PageOfByte(esp - 1);
    var k, i := page / 1024, page % 1024;
    assert page == 1024 * k + i && k < 16;
    WindowAddress(c, k, i);
    assert page * 4096 + c * 0x4000000 == c * 0x4000000 + k * 0x400000 + i * 4096;
  }

  /** The eager copy of the stack page resolves the child's own entry and changes no view. */
  lemma StackStage(m2: Machine, c: nat, esp: int, r: Copy)
    requires Inv(m2) && HasFree(m2) && 1 <= c < NR_TASKS && 0 < esp <= TASK_SIZE
    requires 0 <= StackDir(esp) < 16 && Pte(m2, 16 * c + StackDir(esp), StackEntry(esp)) != 0
    requires r == PrivatePage(m2, StackAddress(c, esp))
    ensures r.Copied? && Resolved(m2, r.m, 16 * c + StackDir(esp), StackEntry(esp))
  {
    var a, d, i := StackAddress(c, esp), 16 * c + StackDir(esp), StackEntry(esp);
    StackArithmetic(c, esp);
    Lin2PhyIsTheWalk(m2, a);
    VisibleFrame(m2, d, i);
    UnWpStep(m2, d, i, UnWpPage(m2, FrameOf(Pde(m2, d)), i));
  }

  /** The page the child of a fork, or any other slot, reads at (d, i) if the fork copies all pages. */
  ghost function ForkView(m: Machine, p: nat, c: nat, nr: nat, n: nat, d: nat, i: nat): Option<Page>
    requires p < NR_TASKS && d < 1024 && i < 1024
  {
    if d / 16 != c then View(m, d, i)
    else if d % 16 < n && i < nr then View(m, 16 * p + d % 16, i)
    else None
  }

  /** The page that `ForkView` gives for (d, i) is not the page directory's. */
  ghost predicate DataSource(m: Machine, p: nat, c: nat, nr: nat, n: nat, d: nat, i: nat)
    requires p < NR_TASKS && d < 1024 && i < 1024
  {
    if d / 16 != c then NotDirectory(m, d, i) else d % 16 < n && i < nr ==> NotDirectory(m, 16 * p + d % 16, i)
  }

  ghost predicate ForkViews(m: Machine, m': Machine, p: nat, c: nat, nr: nat, n: nat)
    requires p < NR_TASKS
  {
    forall d: nat, i: nat :: ViewDir(d) && i < 1024 && DataSource(m, p, c, nr, n, d, i) ==>
      View(m', d, i) == ForkView(m, p, c, nr, n, d, i)
  }

  /** Which frames are mapped where: all but the child's stack page (td, ti) show what their source showed. */
  ghost predicate ForkEntries(m: Machine, m': Machine, p: nat, c: nat, nr: nat, n: nat, td: nat, ti: nat)
    requires p < NR_TASKS
  {
    forall d: nat, i: nat :: ViewDir(d) && i < 1024 && (d != td || i != ti) ==> EntryKept(m, m', p, c, nr, n, d, i)
  }

  ghost predicate EntryKept(m: Machine, m': Machine, p: nat, c: nat, nr: nat, n: nat, d: nat, i: nat)
    requires p < NR_TASKS && d < 1024 && i < 1024
  {
    if d / 16 != c then SameMapping(Pte(m, d, i), Pte(m', d, i))
    else if d % 16 < n && i < nr then SameMapping(Pte(m, 16 * p + d % 16, i), Pte(m', d, i))
    else Pte(m', d, i) == 0
  }

  /** What a fork leaves: the views of the eager model, and a private stack page for the child. */
  ghost predicate Forked(m: Machine, m': Machine, p: nat, c: nat, size: nat, esp: int)
    requires p < NR_TASKS && 1 <= c < NR_TASKS && 0 <= StackDir(esp) < 16
  {
    && Inv(m') && m'.task[c] != 0 && m'.task == m.task[c := m'.task[c]]
    && ForkViews(m, m', p, c, EntriesPerDir(p * TASK_SIZE), DirsFor(size))
    && ForkEntries(m, m', p, c, EntriesPerDir(p * TASK_SIZE), DirsFor(size), 16 * c + StackDir(esp), StackEntry(esp))
    && (!NotDirectory(m, 16 * p, 0) ==> View(m', 16 * c, 0) == Some(m'.mem[0]))
    && Writable(Pte(m', 16 * c + StackDir(esp), StackEntry(esp)))
    && IsPool(FrameOf(Pte(m', 16 * c + StackDir(esp), StackEntry(esp))))
  }

  lemma SameView(m: Machine, m': Machine, d: nat, d': nat, i: nat)
    requires KernelMap(m) && Entries(m) && DataKept(m, m') && ViewDir(d) && ViewDir(d') && i < 1024
    requires NotDirectory(m, d, i)
    requires SameMapping(Pte(m, d, i), Pte(m', d', i))
    ensures View(m', d', i) == View(m, d, i)
  {
    if Pte(m, d, i) != 0 {
      VisibleFrame(m, d, i);
    }
  }

  lemma WindowViews(m: Machine, m1: Machine, m2: Machine, p: nat, c: nat, nr: nat, n: nat)
    requires p < NR_TASKS && 1 <= c < NR_TASKS && p != c && n <= 16 && (p == 0 ==> n <= 1)
    requires KernelMap(m) && Entries(m) && SameTables(m, m1) && DataKept(m, m1) && WindowCopied(m1, m2, p, c, nr, n)
    ensures ForkViews(m, m2, p, c, nr, n)
  {
    forall d: nat, i: nat | ViewDir(d) && i < 1024 && DataSource(m, p, c, nr, n, d, i)
      ensures View(m2, d, i) == ForkView(m, p, c, nr, n, d, i)
    {
      WindowView(m, m1, m2, p, c, nr, n, d, i);
    }
  }

  lemma WindowView(m: Machine, m1: Machine, m2: Machine, p: nat, c: nat, nr: nat, n: nat, d: nat, i: nat)
    requires p < NR_TASKS && 1 <= c < NR_TASKS && p != c && n <= 16 && (p == 0 ==> n <= 1)
    requires KernelMap(m) && Entries(m) && SameTables(m, m1) && DataKept(m, m2) && WindowCopied(m1, m2, p, c, nr, n)
    requires ViewDir(d) && i < 1024 && DataSource(m, p, c, nr, n, d, i)
    ensures View(m2, d, i) == ForkView(m, p, c, nr, n, d, i)
  {
    assert Pte(m1, d, i) == Pte(m, d, i);
    if d / 16 != c {
      assert SameMapping(Pte(m1, d, i), Pte(m2, d, i));
      SameView(m, m2, d, d, i);
    } else {
      assert Inherits(m1, m2, p, d, i, nr, n);
      if d % 16 < n && i < nr {
        var d0 := 16 * p + d % 16;
        assert ViewDir(d0) && d0 % 16 == d % 16;
        assert Pte(m1, d0, i) == Pte(m, d0, i);
        SameView(m, m2, d0, d, i);
      }
    }
  }

  /** The three stages of a fork: task structure, shared window, private stack page. */
  lemma ForkStages(m: Machine, p: nat, c: nat, size: nat, esp: int, image: Page, r: Copy)
      returns (m1: Machine, m2: Machine)
    requires Inv(m) && CanFork(m, p, c, size, esp) && r == Fork(m, p, c, size, esp, image)
    ensures SameTables(m, m1) && DataKept(m, m1) && EmptyWindow(m1, c) && m1.task[c] != 0
    ensures m1.task == m.task[c := m1.task[c]]
    ensures DirsFor(size) <= 16 && (p == 0 ==> DirsFor(size) == 1)
    ensures WindowCopied(m1, m2, p, c, EntriesPerDir(p * TASK_SIZE), DirsFor(size))
    ensures 0 <= StackDir(esp) < 16 && Pte(m2, 16 * c + StackDir(esp), StackEntry(esp)) != 0
    ensures r.Copied? && Resolved(m2, r.m, 16 * c + StackDir(esp), StackEntry(esp))
  {
    FreeSetFacts(m);
    DirsForFits(p, size);
    m1 := NewTask(m, c, image);
    NewTaskStep(m, c, image, m1);
    var r2 := CopyPageTables(m1, p * TASK_SIZE, c * TASK_SIZE, size);
    CopyStage(m1, p, c, size, r2);
    m2 := r2.m;
    StackMapped(m, m1, m2, p, c, size, esp);
    FreeSetFacts(m2);
    StackStage(m2, c, esp, r);
  }

  lemma ForkStep(m: Machine, p: nat, c: nat, size: nat, esp: int, image: Page, r: Copy)
    requires Inv(m) && CanFork(m, p, c, size, esp) && r == Fork(m, p, c, size, esp, image)
    ensures r.Copied? && 0 <= StackDir(esp) < 16 && Forked(m, r.m, p, c, size, esp)
  {
    var m1, m2 := ForkStages(m, p, c, size, esp, image, r);
    ForkAssembled(m, m1, m2, r.m, p, c, size, esp);
  }

  lemma StackMapped(m: Machine, m1: Machine, m2: Machine, p: nat, c: nat, size: nat, esp: int)
    requires CanFork(m, p, c, size, esp) && SameTables(m, m1) && (p == 0 ==> DirsFor(size) == 1) && DirsFor(size) <= 16
    requires WindowCopied(m1, m2, p, c, EntriesPerDir(p * TASK_SIZE), DirsFor(size))
    ensures 0 <= StackDir(esp) < 16 && Pte(m2, 16 * c + StackDir(esp), StackEntry(esp)) != 0
  {
    var d, d0, i := 16 * c + StackDir(esp), 16 * p + StackDir(esp), StackEntry(esp);
    assert d / 16 == c && d % 16 == StackDir(esp);
    assert Inherits(m1, m2, p, d, i, EntriesPerDir(p * TASK_SIZE), DirsFor(size));
    assert Pte(m1, d0, i) == Pte(m, d0, i);
  }

  lemma ForkAssembled(m: Machine, m1: Machine, m2: Machine, m': Machine, p: nat, c: nat, size: nat, esp: int)
    requires Inv(m) && CanFork(m, p, c, size, esp) && 0 <= StackDir(esp) < 16 && DirsFor(size) <= 16
    requires p == 0 ==> DirsFor(size) == 1
    requires SameTables(m, m1) && DataKept(m, m1) && m1.task[c] != 0 && m1.task == m.task[c := m1.task[c]]
    requires WindowCopied(m1, m2, p, c, EntriesPerDir(p * TASK_SIZE), DirsFor(size))
    requires Resolved(m2, m', 16 * c + StackDir(esp), StackEntry(esp))
    ensures Forked(m, m', p, c, size, esp)
  {
    var nr, n := EntriesPerDir(p * TASK_SIZE), DirsFor(size);
    WindowViews(m, m1, m2, p, c, nr, n);
    forall d: nat, i: nat | ViewDir(d) && i < 1024 && DataSource(m, p, c, nr, n, d, i)
      ensures View(m', d, i) == ForkView(m, p, c, nr, n, d, i)
    {
      assert View(m', d, i) == View(m2, d, i);
    }
    EntriesKept(m, m1, m2, m', p, c, nr, n, 16 * c + StackDir(esp), StackEntry(esp));
    if !NotDirectory(m, 16 * p, 0) {
      DirectoryCopied(m, m1, m2, m', p, c, nr, n);
    }
  }

  lemma EntriesKept(m: Machine, m1: Machine, m2: Machine, m': Machine,
      p: nat, c: nat, nr: nat, n: nat, td: nat, ti: nat)
    requires p < NR_TASKS && 1 <= c < NR_TASKS && n <= 16 && (p == 0 ==> n <= 1)
    requires SameTables(m, m1) && WindowCopied(m1, m2, p, c, nr, n)
    requires 16 <= td < 1024 && td / 16 == c && ti < 1024 && Resolved(m2, m', td, ti)
    ensures ForkEntries(m, m', p, c, nr, n, td, ti)
  {
    forall d: nat, i: nat | ViewDir(d) && i < 1024 && (d != td || i != ti)
      ensures EntryKept(m, m', p, c, nr, n, d, i)
    {
      assert Pte(m', d, i) == Pte(m2, d, i) && Pte(m1, d, i) == Pte(m, d, i);
      if d / 16 != c {
        assert SameMapping(Pte(m1, d, i), Pte(m2, d, i));
      } else {
        assert Inherits(m1, m2, p, d, i, nr, n);
        assert d % 16 < n ==> Pte(m1, 16 * p + d % 16, i) == Pte(m, 16 * p + d % 16, i);
      }
    }
  }

  /** A child whose parent shows the page directory reads it as the fork leaves it, on its stack page too. */
  lemma DirectoryCopied(m: Machine, m1: Machine, m2: Machine, m': Machine, p: nat, c: nat, nr: nat, n: nat)
    requires p < NR_TASKS && 1 <= c < NR_TASKS && n >= 1 && nr >= 1 && !NotDirectory(m, 16 * p, 0)
    requires SameTables(m, m1) && WindowCopied(m1, m2, p, c, nr, n) && KernelMap(m') && SameViews(m2, m')
    requires Pde(m', 0) == Pde(m2, 0) && Pte(m', 0, 0) == Pte(m2, 0, 0)
    ensures View(m', 16 * c, 0) == Some(m'.mem[0])
  {
    assert Pte(m1, 16 * p, 0) == Pte(m, 16 * p, 0);
    assert Inherits(m1, m2, p, 16 * c, 0, nr, n);
    assert Pte(m', 0, 0) == Entry7(0);
    Entry7Facts(0);
    assert View(m', 16 * c, 0) == View(m2, 16 * c, 0) == Some(m2.mem[0]);
    assert View(m', 0, 0) == View(m2, 0, 0);
  }

  // ----- stores

  /** Frame `f` is shown by entry (d, i) and by no other entry of any slot. */
  ghost predicate OnlyShownAt(m: Machine, f: nat, d: nat, i: nat) {
    forall d', j :: ViewDir(d') && 0 <= j < 1024 && (d' != d || j != i) && Pte(m, d', j) != 0 ==>
      FrameOf(Pte(m, d', j)) != f
  }

  /** Exclusive writer: a writable page of slots 1 and up is seen through its own entry only. */
  lemma WriterIsAlone(m: Machine, d: nat, i: nat)
    requires Inv(m) && 16 <= d < 1024 && i < 1024 && Writable(Pte(m, d, i))
    ensures IsPool(FrameOf(Pte(m, d, i))) && CountOf(m, FrameOf(Pte(m, d, i))) == 1
    ensures OnlyShownAt(m, FrameOf(Pte(m, d, i)), d, i) && NotATable(m, FrameOf(Pte(m, d, i)))
  {
    var r, f := PageRef(d, i), FrameOf(Pte(m, d, i));
    assert GoodEntry(Pte(m, d, i), d, i);
    forall r' | r' in Refs(m, f) ensures r' == r {
      assert !MayShare(m, r, r');
    }
    assert Refs(m, f) == {r} by {
      assert r in Refs(m, f);
    }
    assert CountOf(m, f) == |Refs(m, f)|;
    forall d': nat | 16 <= d' < 1024 ensures Target(m, TableRef(d')) != f {
      assert TableRef(d') !in Refs(m, f);
    }
    forall d', j | ViewDir(d') && 0 <= j < 1024 && (d' != d || j != i) && Pte(m, d', j) != 0
      ensures FrameOf(Pte(m, d', j)) != f
    {
      assert d' == 0 ==> Pte(m, 0, j) == Entry7(j);
      assert d' != 0 ==> PageRef(d', j) !in Refs(m, f);
    }
  }

  /** A store through (d, i) to a frame shown nowhere else. */
  ghost predicate Stored(m: Machine, m': Machine, d: nat, i: nat, w: nat, value: Word)
    requires ViewDir(d) && i < 1024 && w < 1024
  {
    && Inv(m')
    && (forall d', j :: ViewDir(d') && 0 <= j < 1024 && (d' != d || j != i) ==> View(m', d', j) == View(m, d', j))
    && View(m, d, i).Some? && View(m', d, i) == Some(View(m, d, i).value[w := value])
  }

  lemma StoreStep(m: Machine, d: nat, i: nat, w: nat, value: Word, m': Machine)
    requires Inv(m) && ViewDir(d) && i < 1024 && w < 1024 && Pte(m, d, i) != 0 && FrameOf(Pte(m, d, i)) < FRAMES
    requires NotATable(m, FrameOf(Pte(m, d, i))) && OnlyShownAt(m, FrameOf(Pte(m, d, i)), d, i)
    requires m' == SetWord(m, FrameOf(Pte(m, d, i)), w, value)
    ensures Stored(m, m', d, i, w, value)
  {
    var f := FrameOf(Pte(m, d, i));
    WriteFrame(m, m', f);
    TablesOnly(m, m');
    forall d', j | ViewDir(d') && 0 <= j < 1024 && (d' != d || j != i) ensures View(m', d', j) == View(m, d', j) {
      assert Pte(m', d', j) == Pte(m, d', j);
    }
  }

  lemma TablesOnly(m: Machine, m': Machine)
    requires Inv(m) && SameTables(m, m') && KernelMap(m') && m'.task == m.task && m'.memMap == m.memMap
    ensures Inv(m')
  {
    forall d, j | 16 <= d < 1024 && 0 <= j < 1024 ensures GoodEntry(Pte(m', d, j), d, j) {
      assert GoodEntry(Pte(m, d, j), d, j);
    }
    forall r | IsRef(r) ensures SameRef(m, m', r) {
      match r
      case TaskRef(_) =>
      case TableRef(d') => assert Pde(m', d') == Pde(m, d');
      case PageRef(d', j) => assert Pte(m', d', j) == Pte(m, d', j);
    }
    CountsKept(m, m');
  }

  lemma LowPageIsAlone(m: Machine, i: nat)
    requires Inv(m) && OwnLowPage(m, i)
    ensures Pte(m, 0, i) != 0 && FrameOf(Pte(m, 0, i)) == i && NotATable(m, i) && OnlyShownAt(m, i, 0, i)
  {
    assert Pte(m, 0, i) == Entry7(i);
    Entry7Facts(i);
    forall d', j | ViewDir(d') && 0 <= j < 1024 && (d' != 0 || j != i) && Pte(m, d', j) != 0
      ensures FrameOf(Pte(m, d', j)) != i
    {
      assert d' == 0 ==> Pte(m, 0, j) == Entry7(j) && FrameOf(Entry7(j)) == j;
      assert d' != 0 ==> GoodEntry(Pte(m, d', j), d', j);
    }
  }

  lemma UserStoreStep(m: Machine, address: Word, value: Word, r: Copy)
    requires Inv(m) && CanStore(m, address) && r == UserStore(m, address, value)
    ensures r.Copied? && ViewDir(DirOf(address))
    ensures Stored(m, r.m, DirOf(address), EntryOf(address), address % 4096 / 4, value)
  {
    var d, i, w := DirOf(address), EntryOf(address), address % 4096 / 4;
    if d < 16 {
      LowPageIsAlone(m, i);
      assert Writable(Pte(m, 0, i)) by {
        assert Pte(m, 0, i) == Entry7(i);
        Entry7Facts(i);
      }
      StoreStep(m, 0, i, w, value, r.m);
    } else {
      VisibleFrame(m, d, i);
      assert Pde(m, d) != 0;
      if Writable(Pte(m, d, i)) {
        WriterIsAlone(m, d, i);
        StoreStep(m, d, i, w, value, r.m);
      } else {
        var m1 := DoWpPage(m, address);
        UnWpStep(m, d, i, m1);
        WriterIsAlone(m1, d, i);
        StoreStep(m1, d, i, w, value, r.m);
      }
    }
  }

  /** After a store every entry of slots 1 and up is as before, or is the one stored to and maps a pool frame. */
  lemma StoreMoves(m: Machine, address: Word, value: Word, r: Copy, d: nat, i: nat)
    requires Inv(m) && CanStore(m, address) && r == UserStore(m, address, value) && 16 <= d < 1024 && i < 1024
    ensures r.Copied? && (Pte(r.m, d, i) == Pte(m, d, i) || IsPool(FrameOf(Pte(r.m, d, i))))
    ensures d != DirOf(address) || i != EntryOf(address) ==> Pte(r.m, d, i) == Pte(m, d, i)
  {
    UserStoreStep(m, address, value, r);
    var d0, i0 := DirOf(address), EntryOf(address);
    if d0 < 16 {
      LowPageIsAlone(m, i0);
      assert Pte(m, 0, i0) == Entry7(i0);
      Entry7Facts(i0);
      WriteFrame(m, r.m, i0);
    } else if Writable(Pte(m, d0, i0)) {
      WriterIsAlone(m, d0, i0);
      WriteFrame(m, r.m, FrameOf(Pte(m, d0, i0)));
    } else {
      VisibleFrame(m, d0, i0);
      assert Pde(m, d0) != 0;
      var m1 := DoWpPage(m, address);
      UnWpStep(m, d0, i0, m1);
      WriterIsAlone(m1, d0, i0);
      WriteFrame(m1, r.m, FrameOf(Pte(m1, d0, i0)));
      assert Pte(r.m, d, i) == Pte(m1, d, i);
    }
  }

  lemma StoreKeepsTables(m: Machine, address: Word, value: Word, r: Copy, d: nat)
    requires Inv(m) && CanStore(m, address) && r == UserStore(m, address, value) && 16 <= d < 1024
    ensures r.Copied? && Pde(r.m, d) == Pde(m, d) && r.m.task == m.task
  {
    UserStoreStep(m, address, value, r);
    var d0, i0 := DirOf(address), EntryOf(address);
    if d0 < 16 {
      LowPageIsAlone(m, i0);
      WriteFrame(m, r.m, i0);
    } else if Writable(Pte(m, d0, i0)) {
      WriterIsAlone(m, d0, i0);
      WriteFrame(m, r.m, FrameOf(Pte(m, d0, i0)));
    } else {
      VisibleFrame(m, d0, i0);
      assert Pde(m, d0) != 0;
      var m1 := DoWpPage(m, address);
      UnWpStep(m, d0, i0, m1);
      WriterIsAlone(m1, d0, i0);
      WriteFrame(m1, r.m, FrameOf(Pte(m1, d0, i0)));
    }
  }

  // ----- runs

  function Run(m: Machine, ops: seq<Op>): Copy
    requires forall k :: 0 <= k < |ops| ==> GoodSlots(ops[k])
    decreases |ops|
  {
    if ops == [] then Copied(m)
    else match Step(m, ops[0])
      case Copied(m1) => Run(m1, ops[1..])
      case other => other
  }

  ghost function EagerRun(m: Machine, hot: set<nat>, eager: Eager, ops: seq<Op>): Eager
    requires IsHot(hot) && forall k :: 0 <= k < |ops| ==> GoodSlots(ops[k])
    decreases |ops|
  {
    if ops == [] then eager
    else match Step(m, ops[0])
      case Copied(m1) => EagerRun(m1, hot, EagerStep(m, m1, hot, eager, ops[0]), ops[1..])
      case _ => eager
  }

  /** Every step is enabled in the state the run has reached. */
  ghost predicate RunEnabled(m: Machine, hot: set<nat>, ops: seq<Op>)
    requires forall k :: 0 <= k < |ops| ==> GoodSlots(ops[k])
    decreases |ops|
  {
    ops == [] || (Enabled(m, hot, ops[0]) && (Step(m, ops[0]).Copied? ==> RunEnabled(Step(m, ops[0]).m, hot, ops[1..])))
  }

  /** Pages inside the window of an entry's source, as slot numbers and offsets. */
  lemma SourceDir(p: nat, d: nat, n: nat)
    requires p < NR_TASKS && n <= 16 && (p == 0 ==> n <= 1) && d % 16 < n
    ensures ViewDir(16 * p + d % 16) && (p == 0 ==> d % 16 == 0)
  {
  }

  /** What a fork leaves at one entry, from what its source showed. */
  lemma ForkAgreesAt(m: Machine, m': Machine, hot: set<nat>, eager: Eager, op: Op, d: nat, i: nat)
    requires op.ForkOp? && GoodSlots(op) && IsHot(hot) && Inv(m) && CanFork(m, op.parent, op.child, op.size, op.esp)
    requires 0 <= StackDir(op.esp) < 16 && Forked(m, m', op.parent, op.child, op.size, op.esp) && Agrees(m, hot, eager)
    requires ViewDir(d) && i < 1024 && HotFrame(m', hot, d, i).None?
    ensures View(m', d, i) == EagerStep(m, m', hot, eager, op)(d, i)
  {
    var p, c, nr, n := op.parent, op.child, EntriesPerDir(op.parent * TASK_SIZE), DirsFor(op.size);
    DirsForFits(p, op.size);
    DirsForCovers(op.size, d % 16);
    if d / 16 == c && d % 16 < n && i < nr {
      var d0 := 16 * p + d % 16;
      SourceDir(p, d, n);
      if HotFrame(m, hot, d0, i).Some? {
        HotCopied(m, m', p, c, op.size, op.esp, d0, d, i);
      } else {
        assert View(m', d, i) == ForkView(m, p, c, nr, n, d, i);
      }
    } else {
      if d / 16 != c {
        StackArithmetic(c, op.esp);
        assert EntryKept(m, m', p, c, nr, n, d, i);
      }
      assert DataSource(m, p, c, nr, n, d, i);
      assert View(m', d, i) == ForkView(m, p, c, nr, n, d, i);
    }
  }

  /** The copy of a low frame is the frame as the fork leaves it. */
  lemma HotCopied(m: Machine, m': Machine, p: nat, c: nat, size: nat, esp: int, d0: nat, d: nat, i: nat)
    requires Inv(m) && CanFork(m, p, c, size, esp) && 0 <= StackDir(esp) < 16 && Forked(m, m', p, c, size, esp)
    requires ViewDir(d0) && ViewDir(d) && i < EntriesPerDir(p * TASK_SIZE) <= 1024 && d / 16 == c
    requires d % 16 < DirsFor(size)
    requires d0 == 16 * p + d % 16 && Pte(m, d0, i) != 0 && FrameOf(Pte(m, d0, i)) < USER_PAGES
    ensures View(m', d, i) == Some(m'.mem[FrameOf(Pte(m, d0, i))])
  {
    var f, nr, n := FrameOf(Pte(m, d0, i)), EntriesPerDir(p * TASK_SIZE), DirsFor(size);
    LowFrameIs(m, d0, i);
    if f == 0 {
      assert d == 16 * c && d0 == 16 * p;
    } else {
      assert DataSource(m, p, c, nr, n, d, i);
      assert View(m', d, i) == ForkView(m, p, c, nr, n, d, i) == View(m, d0, i);
      LowFrameKept(m, m', p, c, nr, n, f);
    }
  }

  lemma LowFrameIs(m: Machine, d: nat, i: nat)
    requires KernelMap(m) && Entries(m) && ViewDir(d) && i < 1024 && Pte(m, d, i) != 0
    requires FrameOf(Pte(m, d, i)) < USER_PAGES
    ensures FrameOf(Pte(m, d, i)) == i && d % 16 == 0
  {
    if d == 0 {
      assert Pte(m, 0, i) == Entry7(i);
      Entry7Facts(i);
    } else {
      assert GoodEntry(Pte(m, d, i), d, i);
    }
  }

  lemma LowFrameKept(m: Machine, m': Machine, p: nat, c: nat, nr: nat, n: nat, f: nat)
    requires p < NR_TASKS && 1 <= c && KernelMap(m) && KernelMap(m') && ForkViews(m, m', p, c, nr, n)
    requires 1 <= f < USER_PAGES
    ensures m'.mem[f] == m.mem[f]
  {
    assert Pte(m, 0, f) == Entry7(f) == Pte(m', 0, f);
    Entry7Facts(f);
    assert DataSource(m, p, c, nr, n, 0, f);
    assert View(m', 0, f) == ForkView(m, p, c, nr, n, 0, f) == View(m, 0, f);
  }

  /** A user store leaves the entry on a frame of its own. */
  lemma StoreOwns(m: Machine, address: Word, value: Word, r: Copy)
    requires Inv(m) && CanStore(m, address) && DirOf(address) >= 16 && r == UserStore(m, address, value)
    ensures r.Copied? && IsPool(FrameOf(Pte(r.m, DirOf(address), EntryOf(address))))
  {
    var d, i := DirOf(address), EntryOf(address);
    UserStoreStep(m, address, value, r);
    StoreMoves(m, address, value, r, d, i);
    if Writable(Pte(m, d, i)) {
      WriterIsAlone(m, d, i);
    } else {
      VisibleFrame(m, d, i);
      var m1 := DoWpPage(m, address);
      assert Pde(m, d) != 0;
      UnWpStep(m, d, i, m1);
      WriterIsAlone(m1, d, i);
      WriteFrame(m1, r.m, FrameOf(Pte(m1, d, i)));
    }
  }

  lemma StoreAgreesAt(m: Machine, m': Machine, hot: set<nat>, eager: Eager, op: Op, d: nat, i: nat)
    requires op.StoreOp? && IsHot(hot) && Inv(m) && CanStore(m, op.address) && Agrees(m, hot, eager)
    requires UserStore(m, op.address, op.value) == Copied(m') && ViewDir(d) && i < 1024
    requires HotFrame(m', hot, d, i).None? && Inv(m')
    requires Stored(m, m', DirOf(op.address), EntryOf(op.address), op.address % 4096 / 4, op.value)
    ensures View(m', d, i) == EagerStep(m, m', hot, eager, op)(d, i)
  {
    if d != DirOf(op.address) || i != EntryOf(op.address) {
      if d == 0 {
        assert Pte(m, 0, i) == Pte(m', 0, i);
      } else {
        StoreMoves(m, op.address, op.value, Copied(m'), d, i);
      }
      assert HotFrame(m, hot, d, i).None?;
      assert View(m, d, i) == eager(d, i);
    } else {
      var w := op.address % 4096 / 4;
      assert View(m', d, i) == StoreTo(View(m, d, i), w, op.value);
      assert HotFrame(m, hot, d, i).None? ==> View(m, d, i) == eager(d, i);
      assert EagerStep(m, m', hot, eager, op)(d, i) ==
             StoreTo(if HotFrame(m, hot, d, i).Some? then View(m, d, i) else eager(d, i), w, op.value);
    }
  }

  lemma StoreAgrees(m: Machine, m': Machine, hot: set<nat>, eager: Eager, op: Op)
    requires op.StoreOp? && IsHot(hot) && Inv(m) && CanStore(m, op.address) && Agrees(m, hot, eager)
    requires UserStore(m, op.address, op.value) == Copied(m')
    ensures Agrees(m', hot, EagerStep(m, m', hot, eager, op))
  {
    var next := EagerStep(m, m', hot, eager, op);
    UserStoreStep(m, op.address, op.value, Copied(m'));
    forall d: nat, i: nat | ViewDir(d) && i < 1024 && HotFrame(m', hot, d, i).None?
      ensures View(m', d, i) == next(d, i)
    {
      StoreAgreesAt(m, m', hot, eager, op, d, i);
    }
  }

  /** A store to a hot frame is seen only where a hot frame is. */
  lemma HotStoreStep(m: Machine, hot: set<nat>, eager: Eager, f: nat, w: nat, value: Word, m': Machine)
    requires Inv(m) && IsHot(hot) && CanStoreHot(hot, f) && w < 1024 && m' == SetWord(m, f, w, value)
    requires Agrees(m, hot, eager)
    ensures Inv(m') && SameTables(m, m') && Agrees(m', hot, eager)
  {
    assert NotATable(m, f) by {
      assert Pte(m, 0, f) == Entry7(f);
      Entry7Facts(f);
      forall d: nat | 16 <= d < 1024 ensures Target(m, TableRef(d)) != f {
        assert Pde(m, d) == 0 || IsPool(FrameOf(Pde(m, d)));
      }
    }
    WriteFrame(m, m', f);
    TablesOnly(m, m');
    forall d: nat, i: nat | ViewDir(d) && i < 1024 && HotFrame(m', hot, d, i).None?
      ensures View(m', d, i) == eager(d, i)
    {
      assert Pte(m', d, i) == Pte(m, d, i);
      assert HotFrame(m, hot, d, i).None?;
      assert View(m, d, i) == eager(d, i);
    }
  }

  lemma StepRefines(m: Machine, hot: set<nat>, eager: Eager, op: Op, r: Copy)
    requires Inv(m) && GoodSlots(op) && IsHot(hot) && Enabled(m, hot, op) && r == Step(m, op) && Agrees(m, hot, eager)
    ensures r.Copied? && Inv(r.m) && Agrees(r.m, hot, EagerStep(m, r.m, hot, eager, op))
  {
    match op
    case ForkOp(p, c, size, esp, image) =>
      ForkStep(m, p, c, size, esp, image, r);
      var next := EagerStep(m, r.m, hot, eager, op);
      forall d: nat, i: nat | ViewDir(d) && i < 1024 && HotFrame(r.m, hot, d, i).None?
        ensures View(r.m, d, i) == next(d, i)
      {
        ForkAgreesAt(m, r.m, hot, eager, op, d, i);
      }
    case StoreOp(address, value) =>
      if CanStore(m, address) {
        UserStoreStep(m, address, value, r);
        StoreAgrees(m, r.m, hot, eager, op);
      } else {
        SlotZeroStores(m, hot, eager, address, value, r);
      }
    case KernelOp(frame, word, value) => HotStoreStep(m, hot, eager, frame, word, value, r.m);
  }

  lemma SlotZeroStores(m: Machine, hot: set<nat>, eager: Eager, address: Word, value: Word, r: Copy)
    requires Inv(m) && IsHot(hot) && DirOf(address) == 0 && CanStoreHot(hot, EntryOf(address)) && Agrees(m, hot, eager)
    requires r == UserStore(m, address, value)
    ensures r.Copied? && Inv(r.m) && SameTables(m, r.m)
    ensures Agrees(r.m, hot, EagerStep(m, r.m, hot, eager, StoreOp(address, value)))
  {
    var i := EntryOf(address);
    assert Pte(m, 0, i) == Entry7(i);
    Entry7Facts(i);
    HotStoreStep(m, hot, eager, i, address % 4096 / 4, value, r.m);
    var next := EagerStep(m, r.m, hot, eager, StoreOp(address, value));
    forall d: nat, j: nat | ViewDir(d) && j < 1024 && HotFrame(r.m, hot, d, j).None?
      ensures View(r.m, d, j) == next(d, j)
    {
      assert Pte(r.m, 0, i) == Pte(m, 0, i);
      assert View(r.m, d, j) == eager(d, j);
    }
  }

  /** Copy-on-write refines eager copying: over every run of forks, user stores and kernel stores no panic or undefined
      access is reached, the invariant holds, and every page of every slot that does not show a hot frame reads as if
      each fork had copied it. */
  lemma {:induction false} RunRefines(m: Machine, hot: set<nat>, eager: Eager, ops: seq<Op>)
    requires forall k :: 0 <= k < |ops| ==> GoodSlots(ops[k])
    requires Inv(m) && IsHot(hot) && Agrees(m, hot, eager) && RunEnabled(m, hot, ops)
    ensures Run(m, ops).Copied? && Inv(Run(m, ops).m)
    ensures Agrees(Run(m, ops).m, hot, EagerRun(m, hot, eager, ops))
    decreases |ops|
  {
    if ops != [] {
      var r := Step(m, ops[0]);
      StepRefines(m, hot, eager, ops[0], r);
      RunRefines(r.m, hot, EagerStep(m, r.m, hot, eager, ops[0]), ops[1..]);
    }
  }
}
