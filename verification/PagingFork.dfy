/** Whole routines: `copy_page_tables`, `un_wp_page` and the memory side of `copy_process`. */
module PagingFork {
  import opened Common
  import opened Paging
  import opened PagingInvariant
  import opened PagingSteps
  import opened PagingShare

  // ----- free frames

  ghost function FreeSet(m: Machine): set<int> { set k | 0 <= k < PAGING_PAGES && m.memMap[k] == 0 }

  lemma FreeSetFacts(m: Machine)
    ensures HasFree(m) <==> FreeSet(m) != {}
    ensures HasFree(m) ==> FreeSet(GetFreePage(m)) == FreeSet(m) - {FreeIndex(m.memMap)}
  {
    assert HasFree(m) ==> FreeIndex(m.memMap) in FreeSet(m);
  }

  lemma SameFreeSet(m: Machine, m': Machine)
    requires SameFree(m, m')
    ensures FreeSet(m') == FreeSet(m)
  {
  }

  // ----- claiming a frame

  lemma VisibleFrame(m: Machine, d: nat, i: nat)
    requires KernelMap(m) && Entries(m) && ViewDir(d) && i < 1024 && Pte(m, d, i) != 0
    ensures FrameOf(Pte(m, d, i)) < FRAMES
  {
    if d == 0 {
      assert Pte(m, 0, i) == Entry7(i);
    } else {
      assert GoodEntry(Pte(m, d, i), d, i);
    }
  }

  /** Contents of other frames than `f` are untouched and no page in sight is `f`. */
  lemma DataOutside(m: Machine, m': Machine, f: nat)
    requires KernelMap(m) && Entries(m) && f < FRAMES && m'.mem == m.mem[f := m'.mem[f]]
    requires f == 0 || (IsPool(f) && Refs(m, f) == {})
    ensures DataKept(m, m')
  {
    forall d, i | ViewDir(d) && 0 <= i < 1024 && Pte(m, d, i) != 0
      ensures FrameOf(Pte(m, d, i)) < FRAMES && (FrameOf(Pte(m, d, i)) != 0 ==> FrameOf(Pte(m, d, i)) != f)
    {
      VisibleFrame(m, d, i);
      assert d == 0 ==> Pte(m, 0, i) == Entry7(i);
      assert d != 0 ==> PageRef(d, i) in Refs(m, FrameOf(Pte(m, d, i)));
    }
  }

  // ----- one directory entry

  ghost predicate SameUserPtes(m: Machine, m': Machine) {
    forall d, i :: UserDir(d) && 0 <= i < 1024 ==> Pte(m', d, i) == Pte(m, d, i)
  }

  lemma FreshTable(m: Machine, fd: nat, td: nat, m2: Machine)
    requires Inv(m) && HasFree(m)
    requires 16 <= td < 1024 && (fd == 0 || 16 <= fd < 1024) && fd % 16 == td % 16 && fd / 16 != td / 16
    requires m.task[td / 16] != 0 && Pde(m, td) == 0 && Pde(m, fd) != 0 && Mirror(m, fd - td, td / 16)
    requires m2 == SetWord(GetFreePage(m), 0, td, Entry7(FreeFrame(m)))
    ensures Copying(m2, fd, td) && Pde(m2, td) == Entry7(FreeFrame(m)) && m2.task == m.task
    ensures FreeSet(m2) == FreeSet(m) - {FreeIndex(m.memMap)}
    ensures forall d :: 0 <= d < 1024 && d != td ==> Pde(m2, d) == Pde(m, d)
    ensures SameUserPtes(m, m2) && DataKept(m, m2)
  {
    var f, m1 := FreeFrame(m), GetFreePage(m);
    AllocStep(m);
    FreeSetFacts(m);
    DataOutside(m, m1, f);
    assert Pde(m1, td) == Pde(m, td);
    LinkTable(m1, td, f);
    forall d | 0 <= d < 1024 && d != td ensures Pde(m2, d) == Pde(m, d) {
      assert Pde(m2, d) == Pde(m1, d);
    }
    DataOutside(m1, m2, 0);
    MirrorKept(m, m2, fd - td, td / 16);
    assert FreeSet(m2) == FreeSet(m1);
  }

  lemma MirrorKept(m: Machine, m': Machine, delta: int, c: nat)
    requires Mirror(m, delta, c) && SameUserPtes(m, m')
    requires forall d :: 4 <= d < 16 ==> Pde(m, d) == 0 && Pde(m', d) == 0
    ensures Mirror(m', delta, c)
  {
    forall d, i | 0 <= d < 1024 && 0 <= i < 1024 ensures Pte(m', d, i) == Pte(m, d, i) {
      assert !UserDir(d) ==> Pde(m, d) == 0 && Pde(m', d) == 0;
    }
    forall d, i ensures MirrorAt(m', delta, c, d, i) {
      assert MirrorAt(m, delta, c, d, i);
    }
  }

  /** Directory entry `td` maps what the first `nr` entries of `fd` map; every other entry maps what it did. */
  ghost predicate DirCopied(m: Machine, m': Machine, fd: nat, td: nat, nr: nat)
    requires ViewDir(fd) && ViewDir(td)
  {
    && m'.task == m.task && DataKept(m, m')
    && (forall d :: 0 <= d < 1024 && d != td ==> Pde(m', d) == Pde(m, d))
    && (forall d, i :: ViewDir(d) && d != td && 0 <= i < 1024 ==> SameMapping(Pte(m, d, i), Pte(m', d, i)))
    && (forall i :: 0 <= i < 1024 ==>
         if i < nr then SameMapping(Pte(m, fd, i), Pte(m', td, i)) else Pte(m', td, i) == 0)
  }

  /** One turn of the outer loop, from a directory entry that has a table. */
  lemma FilledDirStep(m: Machine, fd: nat, td: nat, nr: nat, m': Machine)
    requires Inv(m) && HasFree(m)
    requires 16 <= td < 1024 && (fd == 0 || 16 <= fd < 1024) && FrameOf(Pde(m, fd)) < FRAMES && fd % 16 == td % 16
    requires fd / 16 != td / 16
    requires m.task[td / 16] != 0 && Pde(m, td) == 0 && Pde(m, fd) != 0 && Mirror(m, fd - td, td / 16)
    requires nr <= 1024 && (fd == 0 ==> nr <= USER_PAGES)
    requires m' == FilledDir(m, fd, td, nr)
    ensures Inv(m') && Mirror(m', fd - td, td / 16)
    ensures |FreeSet(m')| >= |FreeSet(m)| - 1 && DirCopied(m, m', fd, td, nr)
  {
    var m2 := SetWord(GetFreePage(m), 0, td, Entry7(FreeFrame(m)));
    FreshTable(m, fd, td, m2);
    Entry7Facts(FreeFrame(m));
    FillTable(m, m2, fd, td, nr, m');
  }

  lemma FillTable(m: Machine, m2: Machine, fd: nat, td: nat, nr: nat, m': Machine)
    requires Copying(m2, fd, td) && nr <= 1024 && (fd == 0 ==> nr <= USER_PAGES)
    requires Pde(m, td) == 0 && m2.task == m.task && SameUserPtes(m, m2) && DataKept(m, m2)
    requires |FreeSet(m2)| >= |FreeSet(m)| - 1
    requires forall d :: 0 <= d < 1024 && d != td ==> Pde(m2, d) == Pde(m, d)
    requires FrameOf(Pde(m2, fd)) < FRAMES && FrameOf(Pde(m2, td)) < FRAMES
    requires m' == CopyEntries(m2, FrameOf(Pde(m2, fd)), FrameOf(Pde(m2, td)), nr)
    ensures Inv(m') && Mirror(m', fd - td, td / 16)
    ensures |FreeSet(m')| >= |FreeSet(m)| - 1 && DirCopied(m, m', fd, td, nr)
  {
    forall j | 0 <= j < 1024 ensures Pte(m2, td, j) == 0 {
      assert Pte(m2, td, j) == Pte(m, td, j);
    }
    CopyEntriesStep(m2, fd, td, nr, m');
    CopiedData(m2, m', fd, td, nr);
    SameFreeSet(m2, m');
  }

  lemma VacuousCopy(m: Machine, fd: nat, td: nat, nr: nat)
    requires KernelMap(m) && Entries(m) && ViewDir(fd) && 16 <= td < 1024 && Pde(m, td) == 0 && Pde(m, fd) == 0
    ensures DirCopied(m, m, fd, td, nr)
  {
    forall d, i | ViewDir(d) && 0 <= i < 1024 && Pte(m, d, i) != 0 ensures FrameOf(Pte(m, d, i)) < FRAMES {
      VisibleFrame(m, d, i);
    }
  }

  // ----- copy_page_tables

  ghost predicate EmptyWindow(m: Machine, c: nat) { forall d :: 16 <= d < 1024 && d / 16 == c ==> Pde(m, d) == 0 }

  /** Entry (d, i) of slot `c` maps what the entry at the same offset of slot `p` mapped, if in the copied range. */
  ghost predicate Inherits(m0: Machine, m: Machine, p: nat, d: int, i: int, nr: nat, n: nat)
    requires p < NR_TASKS && 16 <= d < 1024 && 0 <= i < 1024
  {
    if d % 16 < n && i < nr then SameMapping(Pte(m0, 16 * p + d % 16, i), Pte(m, d, i)) else Pte(m, d, i) == 0
  }

  /** The first `n` directory entries of slot `c` map the pages of slot `p`; every other slot is as it was. */
  ghost predicate WindowCopied(m0: Machine, m: Machine, p: nat, c: nat, nr: nat, n: nat)
    requires p < NR_TASKS && 1 <= c < NR_TASKS
  {
    && m.task == m0.task && DataKept(m0, m)
    && (forall d :: 0 <= d < 1024 && (d / 16 != c || d % 16 >= n) ==> Pde(m, d) == Pde(m0, d))
    && (forall d, i :: ViewDir(d) && 0 <= i < 1024 && d / 16 != c ==> SameMapping(Pte(m0, d, i), Pte(m, d, i)))
    && (forall d, i :: 16 <= d < 1024 && 0 <= i < 1024 && d / 16 == c ==> Inherits(m0, m, p, d, i, nr, n))
  }

  /** The outcome after `n` turns of the outer loop. */
  ghost predicate DirsDone(m0: Machine, r: Copy, p: nat, c: nat, nr: nat, n: nat)
    requires p < NR_TASKS && 1 <= c < NR_TASKS
  {
    && r.Copied? && Inv(r.m) && Mirror(r.m, 16 * p - 16 * c, c)
    && |FreeSet(r.m)| >= |FreeSet(m0)| - n && WindowCopied(m0, r.m, p, c, nr, n)
  }

  lemma {:induction false} CopyDirsStep(m0: Machine, p: nat, c: nat, nr: nat, n: nat, r: Copy)
    requires p < NR_TASKS && 1 <= c < NR_TASKS && p != c && m0.task[c] != 0 && EmptyWindow(m0, c)
    requires n <= 16 && (p == 0 ==> n <= 1 && nr <= USER_PAGES) && nr <= 1024 && |FreeSet(m0)| >= n
    requires DirsDone(m0, Copied(m0), p, c, nr, 0) && r == CopyDirs(m0, 16 * p, 16 * c, nr, n)
    ensures DirsDone(m0, r, p, c, nr, n)
  {
    if n > 0 {
      var r1 := CopyDirs(m0, 16 * p, 16 * c, nr, n - 1);
      CopyDirsStep(m0, p, c, nr, n - 1, r1);
      NextTurn(m0, p, c, nr, n, r1, r);
    }
  }

  lemma NextTurn(m0: Machine, p: nat, c: nat, nr: nat, n: nat, r1: Copy, r: Copy)
    requires p < NR_TASKS && 1 <= c < NR_TASKS && p != c && m0.task[c] != 0 && EmptyWindow(m0, c)
    requires 1 <= n <= 16 && (p == 0 ==> n <= 1 && nr <= USER_PAGES) && nr <= 1024 && |FreeSet(m0)| >= n
    requires DirsDone(m0, r1, p, c, nr, n - 1) && r1 == CopyDirs(m0, 16 * p, 16 * c, nr, n - 1)
    requires r == CopyDirs(m0, 16 * p, 16 * c, nr, n)
    ensures DirsDone(m0, r, p, c, nr, n)
  {
    LastTurn(m0, 16 * p, 16 * c, nr, n, r1, r);
    CopyOneDir(m0, r1, r1.m, p, c, nr, n, 16 * p + n - 1, 16 * c + n - 1, r);
  }

  lemma LastTurn(m0: Machine, fd: nat, td: nat, nr: nat, n: nat, r1: Copy, r: Copy)
    requires 1 <= n && fd + n <= PAGE_WORDS && td + n <= PAGE_WORDS && nr <= PAGE_WORDS && r1.Copied?
    requires r1 == CopyDirs(m0, fd, td, nr, n - 1) && r == CopyDirs(m0, fd, td, nr, n)
    ensures r == CopyDir(r1.m, fd + n - 1, td + n - 1, nr)
  {
  }

  lemma EmptyWindowMirrors(m: Machine, p: nat, c: nat, nr: nat, delta: int)
    requires KernelMap(m) && Entries(m) && p < NR_TASKS && 1 <= c < NR_TASKS && EmptyWindow(m, c)
    ensures Mirror(m, delta, c) && WindowCopied(m, m, p, c, nr, 0)
  {
    forall d, i | 16 <= d < 1024 && 0 <= i < 1024 && d / 16 == c ensures Pte(m, d, i) == 0 {
      assert Pde(m, d) == 0;
    }
    forall d, i ensures MirrorAt(m, delta, c, d, i) {
    }
    forall d, i | ViewDir(d) && 0 <= i < 1024 && Pte(m, d, i) != 0 ensures FrameOf(Pte(m, d, i)) < FRAMES {
      VisibleFrame(m, d, i);
    }
  }

  lemma CopyOneDir(m0: Machine, r1: Copy, m: Machine, p: nat, c: nat, nr: nat, n: nat, fd: nat, td: nat, r: Copy)
    requires p < NR_TASKS && 1 <= c < NR_TASKS && p != c && m0.task[c] != 0 && EmptyWindow(m0, c)
    requires 1 <= n <= 16 && (p == 0 ==> n <= 1 && nr <= USER_PAGES) && nr <= 1024 && |FreeSet(m0)| >= n
    requires fd == 16 * p + n - 1 && td == 16 * c + n - 1
    requires DirsDone(m0, r1, p, c, nr, n - 1) && m == r1.m && r == CopyDir(m, fd, td, nr)
    ensures DirsDone(m0, r, p, c, nr, n)
  {
    assert td / 16 == c && td % 16 == n - 1 && fd / 16 == p && fd % 16 == n - 1;
    assert Pde(m, td) == Pde(m0, td) == 0;
    FreeSetFacts(m);
    if Pde(m, fd) != 0 {
      FilledDirStep(m, fd, td, nr, r.m);
    } else {
      VacuousCopy(m, fd, td, nr);
    }
    OneMoreDir(m0, m, r.m, p, c, nr, n, fd, td);
  }

  lemma OneMoreDir(m0: Machine, m: Machine, m': Machine, p: nat, c: nat, nr: nat, n: nat, fd: nat, td: nat)
    requires p < NR_TASKS && 1 <= c < NR_TASKS && p != c && 1 <= n <= 16 && (p == 0 ==> n <= 1)
    requires fd == 16 * p + n - 1 && td == 16 * c + n - 1
    requires WindowCopied(m0, m, p, c, nr, n - 1) && DirCopied(m, m', fd, td, nr) && DataKept(m0, m')
    ensures WindowCopied(m0, m', p, c, nr, n)
  {
    forall d | 0 <= d < 1024 && (d / 16 != c || d % 16 >= n) ensures Pde(m', d) == Pde(m0, d) {
      assert d != td;
    }
    forall d, i | ViewDir(d) && 0 <= i < 1024 && d / 16 != c ensures SameMapping(Pte(m0, d, i), Pte(m', d, i)) {
      assert SameMapping(Pte(m0, d, i), Pte(m, d, i)) && SameMapping(Pte(m, d, i), Pte(m', d, i));
    }
    forall d, i | 16 <= d < 1024 && 0 <= i < 1024 && d / 16 == c ensures Inherits(m0, m', p, d, i, nr, n) {
      assert Inherits(m0, m, p, d, i, nr, n - 1);
      if d == td {
        assert SameMapping(Pte(m0, fd, i), Pte(m, fd, i)) && fd / 16 == p;
      } else {
        assert d % 16 != n - 1 && SameMapping(Pte(m, d, i), Pte(m', d, i));
      }
    }
  }

  // ----- un_wp_page

  ghost predicate SameViews(m: Machine, m': Machine) {
    forall d, i :: ViewDir(d) && 0 <= i < 1024 ==> View(m', d, i) == View(m, d, i)
  }

  /** The frame's only reference turns writable. */
  lemma SoleReference(m: Machine, m': Machine, r0: Ref)
    requires NoClash(m) && Counted(m, 0) && IsRef(r0) && Target(m, r0) >= POOL && Refs(m, Target(m, r0)) == {r0}
    requires SameRefsBut(m, m', {r0}) && Target(m', r0) == Target(m, r0) && m'.memMap == m.memMap
    ensures NoClash(m') && Counted(m', 0)
  {
    forall r | IsRef(r) && r != r0 ensures SameRef(m, m', r) && Target(m', r) != Target(m', r0) {
      assert r !in Refs(m, Target(m, r0));
    }
    forall r, r' | IsRef(r) && IsRef(r') && r != r' && Target(m', r) == Target(m', r') >= POOL
      ensures MayShare(m', r, r')
    {
      assert MayShare(m, r, r');
    }
    forall f | POOL <= f < FRAMES ensures CountOf(m', f) == |Refs(m', f)| {
      RefsSame(m, m', f);
      assert CountOf(m, f) == |Refs(m, f)|;
    }
    forall f | LOW_FRAMES <= f < POOL ensures CountOf(m', f) == USED {
      assert CountOf(m, f) == USED;
    }
  }

  /** What resolving a write fault leaves behind, whichever branch was taken. */
  ghost predicate Resolved(m: Machine, m': Machine, d: nat, i: nat)
    requires 16 <= d < 1024 && i < 1024
  {
    && Inv(m') && SameViews(m, m') && m'.task == m.task && SamePdes(m, m') && SamePtesBut(m, m', d, i, d, i)
    && Writable(Pte(m', d, i)) && IsPool(FrameOf(Pte(m', d, i)))
    && |FreeSet(m')| >= |FreeSet(m)| - 1
  }

  lemma SetEntryRefs(m: Machine, m': Machine, d: nat, i: nat)
    requires 16 <= d < 1024 && i < 1024 && m'.task == m.task && SamePdes(m, m') && SamePtesBut(m, m', d, i, d, i)
    ensures SameRefsBut(m, m', {PageRef(d, i)})
  {
    forall r | IsRef(r) && r != PageRef(d, i) ensures SameRef(m, m', r) {
      match r
      case TaskRef(_) =>
      case TableRef(d') => assert Pde(m', d') == Pde(m, d');
      case PageRef(d', j) => assert Pte(m', d', j) == Pte(m, d', j);
    }
  }

  lemma CountOneIsSole(m: Machine, r0: Ref)
    requires Counted(m, 0) && IsRef(r0) && IsPool(Target(m, r0)) && CountOf(m, Target(m, r0)) == 1
    ensures Refs(m, Target(m, r0)) == {r0}
  {
    var s := Refs(m, Target(m, r0));
    assert r0 in s && |s - {r0}| == 0;
  }

  lemma LastIsWritable(f: nat)
    ensures (4096 * f + 4095) / 2 % 2 == 1
  {
    assert (4096 * f + 4095) / 2 == 2 * (1024 * f + 1023) + 1;
  }

  /** Where bit 0 is set and bit 1 is clear, setting bit 1 stays within the frame's entry. */
  lemma RoomForBit1(e: nat)
    requires e % 2 == 1 && e / 2 % 2 == 0
    ensures e % 4096 + 2 < 4096
  {
    var f, r := e / 4096, e % 4096;
    assert e == 4096 * f + r;
    if r == 4095 {
      LastIsWritable(f);
    }
  }

  /** `e'` is `e` with bit 1 set and nothing else changed. */
  ghost predicate Bit1Set(e: Word, e': Word) { e' == e + if e / 2 % 2 == 1 then 0 else 2 }

  lemma WritableArithmetic(e: Word)
    requires Present(e)
    ensures var w := MakeWritable(e);
            FrameOf(w) == FrameOf(e) && Present(w) && Writable(w) && w != 0 && (User(e) ==> User(w)) && Bit1Set(e, w)
  {
    if !Writable(e) {
      RoomForBit1(e);
      SameFrame(e, e % 4096 + 2, e + 2);
      NextBits(e);
    }
  }

  lemma SameFrame(e: nat, low: nat, w: nat)
    requires low < 4096 && w == e - e % 4096 + low
    ensures w / 4096 == e / 4096
  {
    FrameIs(e / 4096, low);
  }

  lemma ReuseStep(m: Machine, d: nat, i: nat)
    requires Inv(m) && 16 <= d < 1024 && i < 1024 && Pde(m, d) != 0 && IsPool(FrameOf(Pte(m, d, i)))
    requires CountOf(m, FrameOf(Pte(m, d, i))) == 1
    ensures Resolved(m, SetWord(m, FrameOf(Pde(m, d)), i, MakeWritable(Pte(m, d, i))), d, i)
  {
    var e := Pte(m, d, i);
    var r0, w := PageRef(d, i), MakeWritable(e);
    var m' := SetWord(m, FrameOf(Pde(m, d)), i, w);
    assert GoodEntry(e, d, i);
    WritableArithmetic(e);
    TablesAreApart(m);
    WriteEntry(m, d, i, w);
    SetEntryRefs(m, m', d, i);
    CountOneIsSole(m, r0);
    SoleReference(m, m', r0);
    EntryViews(m, m', d, i);
    assert FreeSet(m') == FreeSet(m);
  }

  /** Views survive when only table `d`'s frame changed and entry (d, i) kept its frame. */
  lemma EntryViews(m: Machine, m': Machine, d: nat, i: nat)
    requires Inv(m) && 16 <= d < 1024 && i < 1024 && Pde(m, d) != 0
    requires SamePtesBut(m, m', d, i, d, i) && SameMapping(Pte(m, d, i), Pte(m', d, i))
    requires forall f :: 0 <= f < FRAMES && f != FrameOf(Pde(m, d)) ==> m'.mem[f] == m.mem[f]
    ensures SameViews(m, m')
  {
    forall d', j | ViewDir(d') && 0 <= j < 1024 ensures View(m', d', j) == View(m, d', j) {
      assert SameMapping(Pte(m, d', j), Pte(m', d', j));
      if Pte(m, d', j) != 0 {
        PageIsNoTable(m, d', j, d);
      }
    }
  }

  lemma CopyEntryRefs(m1: Machine, m': Machine, d: nat, i: nat, f: nat)
    requires InvWith(m1, f) && f != 0 && 16 <= d < 1024 && i < 1024 && Pde(m1, d) != 0
    requires FrameOf(Pte(m1, d, i)) < FRAMES && Replaced(m1, m', d, i, f)
    ensures NoClash(m') && Counted(m', 0) && Tables(m') && Entries(m') && Slots(m')
  {
    SetEntryRefs(m1, m', d, i);
    Entry7Facts(f);
    assert Target(m', PageRef(d, i)) == f && Target(m1, PageRef(d, i)) == FrameOf(Pte(m1, d, i));
    LinkPending(m1, m', PageRef(d, i), f);
  }

  /** The copying branch: a fresh frame with the old contents takes the entry over. */
  lemma CopyStep(m: Machine, d: nat, i: nat, m': Machine)
    requires Inv(m) && HasFree(m) && 16 <= d < 1024 && i < 1024 && Pde(m, d) != 0 && Pte(m, d, i) != 0
    requires FrameOf(Pde(m, d)) < FRAMES && FrameOf(Pte(m, d, i)) < FRAMES && !Unshared(m, Pte(m, d, i))
    requires m' == UnWpPage(m, FrameOf(Pde(m, d)), i)
    ensures Resolved(m, m', d, i)
  {
    assert GoodEntry(Pte(m, d, i), d, i);
    AllocStep(m);
    CopyBranch(m, d, i, m');
    var m1 := GetFreePage(m);
    CopyEntryRefs(m1, m', d, i, FreeFrame(m));
    CopyViews(m, m', d, i, FreeFrame(m));
    CopyFreeSet(m, m', d, i);
    assert SamePdes(m, m') by {
      assert SamePdes(m1, m');
    }
    assert SamePtesBut(m, m', d, i, d, i) by {
      assert SamePtesBut(m1, m', d, i, d, i);
    }
    Entry7Facts(FreeFrame(m));
  }

  /** The copying branch stated on the tables, the frames and the counts. */
  ghost predicate Replaced(m1: Machine, m': Machine, d: nat, i: nat, f: nat)
    requires 16 <= d < 1024 && i < 1024 && FrameOf(Pte(m1, d, i)) < FRAMES && IsPool(f)
  {
    var a := FrameOf(Pte(m1, d, i));
    && m'.task == m1.task && SamePdes(m1, m') && SamePtesBut(m1, m', d, i, d, i) && Pte(m', d, i) == Entry7(f)
    && m'.memMap == (if IsPool(a) then m1.memMap[a - LOW_FRAMES := AddByte(CountOf(m1, a), -1)] else m1.memMap)
    && (forall g :: 0 <= g < FRAMES && g != f && g != FrameOf(Pde(m1, d)) ==> m'.mem[g] == m1.mem[g])
    && (f != FrameOf(Pde(m1, d)) ==> m'.mem[f] == m1.mem[a])
  }

  lemma CopyBranch(m: Machine, d: nat, i: nat, m': Machine)
    requires Inv(m) && HasFree(m) && 16 <= d < 1024 && i < 1024 && Pde(m, d) != 0 && Pte(m, d, i) != 0
    requires GoodEntry(Pte(m, d, i), d, i) && !Unshared(m, Pte(m, d, i))
    requires var f := FreeFrame(m); var m1 := GetFreePage(m); IsPool(f) && InvWith(m1, f) && SameTables(m, m1)
    requires FrameOf(Pde(m, d)) < FRAMES && FrameOf(Pte(m, d, i)) < FRAMES
    requires m' == UnWpPage(m, FrameOf(Pde(m, d)), i)
    ensures FrameOf(Pte(GetFreePage(m), d, i)) < FRAMES
    ensures Replaced(GetFreePage(m), m', d, i, FreeFrame(m)) && KernelMap(m')
  {
    var t, f, m1 := FrameOf(Pde(m, d)), FreeFrame(m), GetFreePage(m);
    var a := FrameOf(Pte(m, d, i));
    assert Pde(m1, d) == Pde(m, d) && Pte(m1, d, i) == Pte(m, d, i);
    var m3 := m1.(mem := m1.mem[f := m1.mem[a]]);
    var m4 := SetWord(m3, t, i, Entry7(f));
    UnreferencedIsNoTable(m1, f);
    TablesAreApart(m1);
    CopiedFrame(m1, m3, m4, d, i, f);
    assert m'.mem == m4.mem;
    SameMemory(m4, m');
  }

  lemma CopiedFrame(m1: Machine, m3: Machine, m4: Machine, d: nat, i: nat, f: nat)
    requires KernelMap(m1) && Tables(m1) && TablesApart(m1) && NotATable(m1, f) && 16 <= d < 1024 && i < 1024
    requires Pde(m1, d) != 0
    requires m3.mem == m1.mem[f := m3.mem[f]] && m4 == SetWord(m3, FrameOf(Pde(m1, d)), i, Entry7(f))
    ensures KernelMap(m4) && SamePdes(m1, m4) && SamePtesBut(m1, m4, d, i, d, i) && Pte(m4, d, i) == Entry7(f)
  {
    WriteFrame(m1, m3, f);
    assert Pde(m3, d) == Pde(m1, d);
    forall e, e' ensures OtherTable(m3, e, e') {
      assert OtherTable(m1, e, e');
    }
    WriteEntry(m3, d, i, Entry7(f));
  }

  lemma CopyViews(m: Machine, m': Machine, d: nat, i: nat, f: nat)
    requires Inv(m) && 16 <= d < 1024 && i < 1024 && Pde(m, d) != 0 && Pte(m, d, i) != 0
    requires HasFree(m) && f == FreeFrame(m) && IsPool(f) && Refs(m, f) == {} && NotATable(m, f)
    requires var m1 := GetFreePage(m);
             SameTables(m, m1) && FrameOf(Pte(m1, d, i)) < FRAMES && Replaced(m1, m', d, i, f)
    ensures SameViews(m, m')
  {
    var m1 := GetFreePage(m);
    assert Pde(m1, d) == Pde(m, d) && Pte(m1, d, i) == Pte(m, d, i);
    forall d', j | ViewDir(d') && 0 <= j < 1024 ensures View(m', d', j) == View(m, d', j) {
      assert Pte(m1, d', j) == Pte(m, d', j);
      if Pte(m, d', j) != 0 {
        PageIsNoTable(m, d', j, d);
        assert d' >= 16 ==> PageRef(d', j) !in Refs(m, f);
        assert d' == 0 ==> Pte(m, 0, j) == Entry7(j);
        assert FrameOf(Entry7(f)) == f;
        assert Target(m, TableRef(d)) != f;
      }
    }
  }

  /** A frame that is not unshared can lose a reference without becoming free. */
  lemma SharedCount(m: Machine, d: nat, i: nat, a: nat)
    requires NoClash(m) && Counted(m, 0) && 16 <= d < 1024 && i < 1024 && a == FrameOf(Pte(m, d, i))
    requires IsPool(a) && CountOf(m, a) != 1
    ensures CountOf(m, a) >= 2
  {
    assert CountOf(m, a) == |Refs(m, a)|;
    assert PageRef(d, i) in Refs(m, a);
  }

  lemma CopyFreeSet(m: Machine, m': Machine, d: nat, i: nat)
    requires Inv(m) && HasFree(m) && 16 <= d < 1024 && i < 1024 && Pte(m, d, i) != 0
    requires FrameOf(Pte(m, d, i)) < FRAMES && !Unshared(m, Pte(m, d, i))
    requires var m1 := GetFreePage(m);
             && SameTables(m, m1) && IsPool(FreeFrame(m)) && FrameOf(Pte(m1, d, i)) < FRAMES
             && Replaced(m1, m', d, i, FreeFrame(m))
    ensures |FreeSet(m')| >= |FreeSet(m)| - 1
  {
    var m1, a := GetFreePage(m), FrameOf(Pte(m, d, i));
    assert Pte(m1, d, i) == Pte(m, d, i);
    FreeSetFacts(m);
    if IsPool(a) {
      SharedCount(m, d, i, a);
    }
    DropKeepsFree(m, m1, m', a);
  }

  lemma DropKeepsFree(m: Machine, m1: Machine, m': Machine, a: nat)
    requires HasFree(m) && m1 == GetFreePage(m) && (IsPool(a) ==> CountOf(m, a) >= 2)
    requires m'.memMap == if IsPool(a) then m1.memMap[a - LOW_FRAMES := AddByte(CountOf(m1, a), -1)] else m1.memMap
    ensures FreeSet(m') == FreeSet(m1)
  {
  }

  /** `un_wp_page` on a mapped page: the entry becomes writable, the invariant holds and no task sees any change. */
  lemma UnWpStep(m: Machine, d: nat, i: nat, m': Machine)
    requires Inv(m) && 16 <= d < 1024 && i < 1024 && Pte(m, d, i) != 0 && (Unshared(m, Pte(m, d, i)) || HasFree(m))
    requires FrameOf(Pde(m, d)) < FRAMES && FrameOf(Pte(m, d, i)) < FRAMES
    requires m' == UnWpPage(m, FrameOf(Pde(m, d)), i)
    ensures Resolved(m, m', d, i)
    ensures if Unshared(m, Pte(m, d, i)) then Bit1Set(Pte(m, d, i), Pte(m', d, i)) && m'.memMap == m.memMap
            else Pte(m', d, i) == FreeFrame(m) * 4096 + 7
  {
    if Unshared(m, Pte(m, d, i)) {
      assert GoodEntry(Pte(m, d, i), d, i);
      ReuseStep(m, d, i);
    } else {
      CopyStep(m, d, i, m');
    }
  }
}
