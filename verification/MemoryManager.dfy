/** The memory routines as they run, in place on frames and `mem_map`, each proved to compute its pure meaning. */
module MemoryManager {
  import opened Common
  import opened Paging
  import opened CopyOnWrite
  import PagingFacts
  import PagingInvariant

  /** The outcome of a routine that may call `panic`; after a panic the kernel stops, so no state is promised. */
  datatype Status = Done | Panicked

  /** Is index `k` of `mem_map` that of a frame in [startMem, endMem)? */
  predicate FreedAtBoot(k: nat, startMem: nat, endMem: nat)
    requires LOW_MEM <= startMem <= endMem
  {
    var first := (startMem - LOW_MEM) / 4096;
    first <= k < first + (endMem - startMem) / 4096
  }

  class Memory {
    const mem: array<Page>
    const memMap: array<Byte>
    const task: array<nat>

    ghost predicate Valid()
    {
      mem.Length == FRAMES && memMap.Length == PAGING_PAGES && task.Length == NR_TASKS
      && memMap as object != task as object
    }

    ghost function M(): Machine
      requires Valid()
      reads mem, memMap, task
    {
      Machine(mem[..], memMap[..], task[..])
    }

    /** `mem_init`: every frame is USED but those of [startMem, endMem). */
    method MemInit(startMem: nat, endMem: nat)
      requires Valid() && LOW_MEM <= startMem <= endMem <= FRAMES * 4096
      modifies memMap
      ensures forall k :: 0 <= k < PAGING_PAGES ==>
                memMap[k] == if FreedAtBoot(k, startMem, endMem) then 0 else USED
    {
      var i := 0;
      while i < PAGING_PAGES
        invariant 0 <= i <= PAGING_PAGES
        invariant forall k :: 0 <= k < i ==> memMap[k] == USED
      {
        memMap[i] := USED;
        i := i + 1;
      }
      var first := (startMem - LOW_MEM) / 4096;
      i := first;
      var left := (endMem - startMem) / 4096;
      while left > 0
        invariant 0 <= left && first <= i && i + left == first + (endMem - startMem) / 4096
        invariant forall k :: 0 <= k < PAGING_PAGES ==> memMap[k] == if first <= k < i then 0 else USED
      {
        memMap[i] := 0;
        left, i := left - 1, i + 1;
      }
    }

    /** `get_free_page`: scan down from the top, claim the frame and zero it from the last word to the first. */
    method GetFreePage() returns (address: nat)
      requires Valid() && HasFree(M())
      modifies mem, memMap
      ensures M() == Paging.GetFreePage(old(M()))
      ensures address == FreeFrame(old(M())) * 4096
    {
      ghost var free := FreeIndex(memMap[..]);
      var i := PAGING_PAGES - 1;
      while memMap[i] != 0 && i >= 0
        invariant free <= i < PAGING_PAGES
        invariant forall j :: i < j < PAGING_PAGES ==> memMap[j] != 0
        decreases i
      {
        assert memMap[..][i] != 0;
        i := i - 1;
      }
      assert i == free;
      memMap[i] := 1;
      assert memMap[..] == old(memMap[..])[free := 1];
      address := i * 4096 + LOW_MEM;
      var f := address / 4096;
      var j := 1024;
      while j >= 1
        modifies mem
        invariant 0 <= j <= 1024
        invariant forall k :: j <= k < 1024 ==> mem[f][k] == 0
        invariant forall g :: 0 <= g < FRAMES && g != f ==> mem[g] == old(mem[g])
      {
        mem[f] := mem[f][j - 1 := 0];
        j := j - 1;
      }
      assert mem[f] == ZeroPage();
      assert mem[..] == old(mem[..])[f := ZeroPage()];
    }

    /** `copy_page`: 1024 words upwards. */
    method CopyPage(from: nat, to: nat)
      requires Valid() && from < FRAMES && to < FRAMES
      modifies mem
      ensures mem[..] == old(mem[..])[to := old(mem[from])]
    {
      var k := 0;
      while k < 1024
        invariant 0 <= k <= 1024
        invariant forall j :: 0 <= j < k ==> mem[to][j] == old(mem[from])[j]
        invariant from != to ==> mem[from] == old(mem[from])
        invariant from == to ==> mem[to] == old(mem[to])
        invariant forall g :: 0 <= g < FRAMES && g != to ==> mem[g] == old(mem[g])
      {
        mem[to] := mem[to][k := mem[from][k]];
        k := k + 1;
      }
      assert mem[to] == old(mem[from]);
      assert mem[..] == old(mem[..])[to := old(mem[from])];
    }

    /** One turn of the inner loop of `copy_page_tables`. */
    method ShareEntry(ft: nat, tt: nat, i: nat)
      requires Valid() && ft < FRAMES && tt < FRAMES && i < PAGE_WORDS
      modifies mem, memMap
      ensures M() == CopyEntry(old(M()), ft, tt, i)
    {
      var thisPage: int := mem[ft][i];
      if thisPage == 0 {
        return;
      }
      thisPage := ReadOnly(thisPage);
      mem[tt] := mem[tt][i := thisPage];
      if thisPage > LOW_MEM {
        mem[ft] := mem[ft][i := thisPage];
        thisPage := (thisPage - LOW_MEM) / 4096;
        // Outside `mem_map` C leaves the increment undefined; the paging invariant shows it never happens.
        if thisPage < PAGING_PAGES {
          memMap[thisPage] := AddByte(memMap[thisPage], 1);
        }
      }
    }

    method CopyTable(ft: nat, tt: nat, n: nat)
      requires Valid() && ft < FRAMES && tt < FRAMES && n <= PAGE_WORDS
      modifies mem, memMap
      ensures M() == CopyEntries(old(M()), ft, tt, n)
    {
      var i, nr := 0, n;
      while nr > 0
        invariant i + nr == n && M() == CopyEntries(old(M()), ft, tt, i)
      {
        ShareEntry(ft, tt, i);
        nr, i := nr - 1, i + 1;
      }
    }

    /** One turn of the outer loop of `copy_page_tables`. */
    method CopyOneDir(fromDir: nat, toDir: nat, nr: nat) returns (s: Status)
      requires Valid() && fromDir < PAGE_WORDS && toDir < PAGE_WORDS && nr <= PAGE_WORDS
      requires !CopyDir(M(), fromDir, toDir, nr).Wild?
      modifies mem, memMap
      ensures s == (if CopyDir(old(M()), fromDir, toDir, nr).Copied? then Done else Panicked)
      ensures s == Done ==> M() == CopyDir(old(M()), fromDir, toDir, nr).m
    {
      ghost var m := M();
      if mem[0][toDir] % 2 == 1 {
        return Panicked;
      }
      if mem[0][fromDir] % 2 == 1 {
        var fromTable := FrameOf(mem[0][fromDir]);
        var toTable := GetFreePage();
        mem[0] := mem[0][toDir := toTable + 7];
        assert M() == SetWord(Paging.GetFreePage(m), 0, toDir, Entry7(FreeFrame(m)));
        CopyTable(fromTable, toTable / 4096, nr);
      }
      s := Done;
    }

    /** `copy_page_tables`. */
    method CopyPageTables(from: Word, to: Word, size: nat) returns (s: Status)
      requires Valid() && !Paging.CopyPageTables(M(), from, to, size).Wild?
      modifies mem, memMap
      ensures s == (if Paging.CopyPageTables(old(M()), from, to, size).Copied? then Done else Panicked)
      ensures s == Done ==> M() == Paging.CopyPageTables(old(M()), from, to, size).m
    {
      ghost var m0 := M();
      if from % PDE_SPAN != 0 || to % PDE_SPAN != 0 {
        return Panicked;
      }
      var fromDir, toDir := from / PDE_SPAN, to / PDE_SPAN;
      var left := DirsFor(size);
      var nr := EntriesPerDir(from);
      ghost var fd, td, n := fromDir, toDir, left;
      assert !CopyDirs(m0, fd, td, nr, n).Wild?;
      while left > 0
        invariant 0 <= left <= n && fromDir == fd + n - left && toDir == td + n - left
        invariant CopyDirs(m0, fd, td, nr, n - left) == Copied(M())
      {
        left := left - 1;
        CopyDirsPrefix(m0, fd, td, nr, n - left, n);
        var turn := CopyOneDir(fromDir, toDir, nr);
        if turn == Panicked {
          return Panicked;
        }
        fromDir, toDir := fromDir + 1, toDir + 1;
      }
      s := Done;
    }

    /** `un_wp_page` on entry `i` of table frame `t`. */
    method UnWpPage(t: nat, i: nat)
      requires Valid() && t < FRAMES && i < PAGE_WORDS && FrameOf(mem[t][i]) < FRAMES
      requires Unshared(M(), mem[t][i]) || HasFree(M())
      modifies mem, memMap
      ensures M() == Paging.UnWpPage(old(M()), t, i)
    {
      ghost var m := M();
      var oldPage := FrameOf(mem[t][i]);
      if oldPage >= LOW_FRAMES && memMap[oldPage - LOW_FRAMES] == 1 {
        mem[t] := mem[t][i := MakeWritable(mem[t][i])];
        return;
      }
      var newPage := GetFreePage();
      if oldPage >= LOW_FRAMES {
        memMap[oldPage - LOW_FRAMES] := AddByte(memMap[oldPage - LOW_FRAMES], -1);
      }
      CopyPage(oldPage, newPage / 4096);
      mem[t] := mem[t][i := newPage + 7];
    }

    /** `do_wp_page`: the page-table walk of the fault handler. */
    method DoWpPage(address: Word)
      requires Valid()
      requires var y := FrameOf(Pde(M(), DirOf(address)));
               && y < FRAMES && FrameOf(mem[y][EntryOf(address)]) < FRAMES
               && (Unshared(M(), mem[y][EntryOf(address)]) || HasFree(M()))
      modifies mem, memMap
      ensures M() == Paging.DoWpPage(old(M()), address)
    {
      var x := address / 0x400000;
      var y := FrameOf(mem[0][x]);
      UnWpPage(y, address / 4096 % 1024);
    }

    /** `un_wp_page(lin2phy(address))`. */
    method UnWpAddress(address: Word)
      requires Valid() && PrivatePage(M(), address).Copied?
      modifies mem, memMap
      ensures PrivatePage(old(M()), address) == Copied(M())
    {
      var table := FrameOf(mem[0][address / 0x400000]);
      var entry := address / 1024 / 4 * 4 % 4096;
      UnWpPage(table, entry / 4);
    }

    /** The memory side of `copy_process`: task structure, page tables, then the stack page. */
    method CopyProcess(p: nat, c: nat, size: nat, esp: int, image: Page) returns (s: Status)
      requires Valid() && p < NR_TASKS && c < NR_TASKS && !Fork(M(), p, c, size, esp, image).Wild?
      modifies mem, memMap, task
      ensures s == (if Fork(old(M()), p, c, size, esp, image).Copied? then Done else Panicked)
      ensures s == Done ==> M() == Fork(old(M()), p, c, size, esp, image).m
    {
      ghost var m := M();
      var address := GetFreePage();
      task[c] := address / 4096;
      mem[address / 4096] := image;
      assert M() == NewTask(m, c, image);
      s := CopyPageTables(p * TASK_SIZE, c * TASK_SIZE, size);
      if s == Done {
        UnWpAddress(StackAddress(c, esp));
      }
    }
  }

  /** `mem_init(4 MB, 16 MB)` over the tables of `setup_paging` gives the initial state of the paging invariant. */
  lemma MemInitBoots(m: Machine)
    requires forall d :: 0 <= d < 1024 ==> Pde(m, d) == if d < 4 then Entry7(d + 1) else 0
    requires forall d, i :: 0 <= d < 4 && 0 <= i < 1024 ==> Pte(m, d, i) == Entry7(1024 * d + i)
    requires forall n :: 0 <= n < NR_TASKS ==> m.task[n] == 0
    requires forall k :: 0 <= k < PAGING_PAGES ==>
               m.memMap[k] == if FreedAtBoot(k, 0x400000, 0x1000000) then 0 else USED
    ensures PagingInvariant.Inv(m)
  {
    PagingFacts.BootInv(m);
  }

  /** If the first `k` turns do not end well, all `n` turns end the same way. */
  lemma {:induction false} CopyDirsPrefix(m: Machine, fd: nat, td: nat, nr: nat, k: nat, n: nat)
    requires fd + n <= PAGE_WORDS && td + n <= PAGE_WORDS && nr <= PAGE_WORDS && k <= n
    ensures !CopyDirs(m, fd, td, nr, k).Copied? ==> CopyDirs(m, fd, td, nr, n) == CopyDirs(m, fd, td, nr, k)
  {
    if k < n {
      CopyDirsPrefix(m, fd, td, nr, k, n - 1);
    }
  }
}
