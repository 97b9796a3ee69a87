/**
 The paging state of the kernel and the pure meaning of its memory routines
 (`mm/memory.c`, `mm/swap.c`, `include/linux/mm.h`).

 Physical memory is 16 MB: 4096 frames of 1024 words.  Frame 0 holds the page directory and page tables are
 ordinary frames, so a stray write to a page could damage a table; that this never happens is proved, not assumed.
 Bit masks on entries are written as arithmetic: `e & 0xfffff000` is the frame number times 4096, `e & ~2` clears
 the writable bit and `e | 2` sets it.
 */
module Paging {
  import opened Common

  type Word = w: int | 0 <= w < 0x1_0000_0000
  type Page = p: seq<Word> | |p| == PAGE_WORDS witness seq(PAGE_WORDS, _ => 0)

  const PAGE_WORDS: nat := 1024
  const FRAMES: nat := 4096
  const LOW_MEM: nat := 0x100000
  const LOW_FRAMES: nat := 256
  const POOL: nat := 1024             // first frame handed out by the allocator: 4 MB
  const PAGING_PAGES: nat := 3840
  const USED: nat := 100
  const USER_PAGES: nat := 160        // 640 KB: what a fork by slot 0 copies
  const PDE_SPAN: nat := 0x400000
  const TASK_SIZE: nat := 0x4000000

  /** `mem` are the frames, `memMap` is `mem_map`, `task[n]` the frame of slot n's task structure (0 when empty). */
  datatype RawMachine = Machine(mem: seq<Page>, memMap: seq<Byte>, task: seq<nat>)

  type Machine = m: RawMachine | |m.mem| == FRAMES && |m.memMap| == PAGING_PAGES && |m.task| == NR_TASKS
    witness Machine(seq(FRAMES, _ => ZeroPage()), seq(PAGING_PAGES, _ => 0), seq(NR_TASKS, _ => 0))

  // ----- page-table entries

  function FrameOf(e: Word): nat { e / 4096 }

  predicate Present(e: Word) { e % 2 == 1 }

  predicate Writable(e: Word) { e / 2 % 2 == 1 }

  /** Bit 2: user mode may use the entry. */
  predicate User(e: Word) { e / 4 % 2 == 1 }

  function ReadOnly(e: Word): Word { if Writable(e) then e - 2 else e }

  function MakeWritable(e: Word): Word { if Writable(e) then e else e + 2 }

  /** A present, user, writable entry for frame `f`. */
  function Entry7(f: nat): Word
    requires f < FRAMES
  {
    f * 4096 + 7
  }

  function Pde(m: Machine, d: nat): Word
    requires d < PAGE_WORDS
  {
    m.mem[0][d]
  }

  /** Entry `i` of the table of directory entry `d`, 0 when there is no such table. */
  function Pte(m: Machine, d: nat, i: nat): Word
    requires d < PAGE_WORDS && i < PAGE_WORDS
  {
    var t := FrameOf(Pde(m, d));
    if Present(Pde(m, d)) && t < FRAMES then m.mem[t][i] else 0
  }

  /** What a task reads through entry (d, i). */
  function View(m: Machine, d: nat, i: nat): Option<Page>
    requires d < PAGE_WORDS && i < PAGE_WORDS
  {
    var e := Pte(m, d, i);
    if e == 0 || FrameOf(e) >= FRAMES then None else Some(m.mem[FrameOf(e)])
  }

  function SetWord(m: Machine, f: nat, i: nat, w: Word): Machine
    requires f < FRAMES && i < PAGE_WORDS
  {
    m.(mem := m.mem[f := m.mem[f][i := w]])
  }

  // ----- get_free_page

  function ZeroPage(): Page { seq(PAGE_WORDS, _ => 0) }

  /** The highest free index of `mem_map`, -1 when there is none. */
  function FreeIndex(memMap: seq<Byte>): (i: int)
    ensures -1 <= i < |memMap|
    ensures i >= 0 ==> memMap[i] == 0
    ensures forall j :: i < j < |memMap| ==> memMap[j] != 0
  {
    if memMap == [] then -1
    else if memMap[|memMap| - 1] == 0 then |memMap| - 1
    else FreeIndex(memMap[..|memMap| - 1])
  }

  predicate HasFree(m: Machine) { FreeIndex(m.memMap) >= 0 }

  function FreeFrame(m: Machine): nat
    requires HasFree(m)
  {
    FreeIndex(m.memMap) + LOW_FRAMES
  }

  function GetFreePage(m: Machine): Machine
    requires HasFree(m)
  {
    m.(mem := m.mem[FreeFrame(m) := ZeroPage()], memMap := m.memMap[FreeIndex(m.memMap) := 1])
  }

  // ----- copy_page_tables

  /** `mem_map[k]++` on a byte; an index outside the array is left alone (see `Counted`: it never occurs). */
  function Bump(m: Machine, k: nat): Machine {
    if k < PAGING_PAGES then m.(memMap := m.memMap[k := AddByte(m.memMap[k], 1)]) else m
  }

  function Drop(m: Machine, k: nat): Machine {
    if k < PAGING_PAGES then m.(memMap := m.memMap[k := AddByte(m.memMap[k], -1)]) else m
  }

  /** One turn of the inner loop: share the page of entry `i` of table frame `ft` with table frame `tt`. */
  function CopyEntry(m: Machine, ft: nat, tt: nat, i: nat): Machine
    requires ft < FRAMES && tt < FRAMES && i < PAGE_WORDS
  {
    var e := m.mem[ft][i];
    if e == 0 then m else
    var ro := ReadOnly(e);
    var shared := SetWord(m, tt, i, ro);
    if ro > LOW_MEM then Bump(SetWord(shared, ft, i, ro), (ro - LOW_MEM) / 4096) else shared
  }

  function CopyEntries(m: Machine, ft: nat, tt: nat, n: nat): Machine
    requires ft < FRAMES && tt < FRAMES && n <= PAGE_WORDS
  {
    if n == 0 then m else CopyEntry(CopyEntries(m, ft, tt, n - 1), ft, tt, n - 1)
  }

  /** `Panic` is a call of `panic`; `Wild` is undefined behaviour: no free page, or an address outside memory. */
  datatype Copy = Copied(m: Machine) | Panic | Wild

  /** A fresh table for directory entry `td`, filled from the table of `fd`. */
  function FilledDir(m: Machine, fd: nat, td: nat, nr: nat): Machine
    requires fd < PAGE_WORDS && td < PAGE_WORDS && nr <= PAGE_WORDS && HasFree(m) && FrameOf(Pde(m, fd)) < FRAMES
  {
    var linked := SetWord(GetFreePage(m), 0, td, Entry7(FreeFrame(m)));
    CopyEntries(linked, FrameOf(Pde(m, fd)), FreeFrame(m), nr)
  }

  /** One turn of the outer loop: share the table of directory entry `fd` with directory entry `td`. */
  function CopyDir(m: Machine, fd: nat, td: nat, nr: nat): Copy
    requires fd < PAGE_WORDS && td < PAGE_WORDS && nr <= PAGE_WORDS
  {
    if Present(Pde(m, td)) then Panic
    else if !Present(Pde(m, fd)) then Copied(m)
    else if !HasFree(m) || FrameOf(Pde(m, fd)) >= FRAMES then Wild
    else Copied(FilledDir(m, fd, td, nr))
  }

  function CopyDirs(m: Machine, fd: nat, td: nat, nr: nat, n: nat): Copy
    requires fd + n <= PAGE_WORDS && td + n <= PAGE_WORDS && nr <= PAGE_WORDS
  {
    if n == 0 then Copied(m)
    else match CopyDirs(m, fd, td, nr, n - 1)
      case Copied(m1) => CopyDir(m1, fd + n - 1, td + n - 1, nr)
      case other => other
  }

  /** Directory entries covered by `size` bytes, rounded up in 32-bit arithmetic. */
  function DirsFor(size: nat): nat { (size + 0x3fffff) % 0x1_0000_0000 / 0x400000 }

  function EntriesPerDir(from: nat): nat { if from == 0 then USER_PAGES else PAGE_WORDS }

  function CopyPageTables(m: Machine, from: Word, to: Word, size: nat): Copy {
    if from % PDE_SPAN != 0 || to % PDE_SPAN != 0 then Panic
    else if from / PDE_SPAN + DirsFor(size) > PAGE_WORDS || to / PDE_SPAN + DirsFor(size) > PAGE_WORDS then Wild
    else CopyDirs(m, from / PDE_SPAN, to / PDE_SPAN, EntriesPerDir(from), DirsFor(size))
  }

  // ----- un_wp_page, do_wp_page

  /** The frame of entry `e` has exactly one reference. */
  predicate Unshared(m: Machine, e: Word) {
    LOW_FRAMES <= FrameOf(e) < FRAMES && m.memMap[FrameOf(e) - LOW_FRAMES] == 1
  }

  /** Make entry `i` of table frame `t` writable, on its own frame if that is unshared, else on a fresh copy. */
  function UnWpPage(m: Machine, t: nat, i: nat): Machine
    requires t < FRAMES && i < PAGE_WORDS && FrameOf(m.mem[t][i]) < FRAMES
    requires Unshared(m, m.mem[t][i]) || HasFree(m)
  {
    var e := m.mem[t][i];
    var oldPage := FrameOf(e);
    if Unshared(m, e) then SetWord(m, t, i, MakeWritable(e)) else
    var newPage := FreeFrame(m);
    var claimed := GetFreePage(m);
    var dropped := if oldPage >= LOW_FRAMES then Drop(claimed, oldPage - LOW_FRAMES) else claimed;
    var copied := dropped.(mem := dropped.mem[newPage := dropped.mem[oldPage]]);
    SetWord(copied, t, i, Entry7(newPage))
  }

  function DirOf(address: Word): nat { address / 0x400000 }

  function EntryOf(address: Word): nat { address / 4096 % 1024 }

  function DoWpPage(m: Machine, address: Word): Machine
    requires var t := FrameOf(Pde(m, DirOf(address)));
             && t < FRAMES && FrameOf(m.mem[t][EntryOf(address)]) < FRAMES
             && (Unshared(m, m.mem[t][EntryOf(address)]) || HasFree(m))
  {
    UnWpPage(m, FrameOf(Pde(m, DirOf(address))), EntryOf(address))
  }

  /** `lin2phy`: the physical byte address of the entry that maps `address`; masking with 0xffc is `/ 4 * 4 % 4096`. */
  function Lin2Phy(m: Machine, address: Word): nat {
    address / 1024 / 4 * 4 % 4096 + FrameOf(Pde(m, DirOf(address))) * 4096
  }

  /** `lin2phy` names the entry `do_wp_page` walks to: word `EntryOf` of the table frame, for every address. */
  lemma Lin2PhyIsTheWalk(m: Machine, address: Word)
    ensures Lin2Phy(m, address) / 4096 == FrameOf(Pde(m, DirOf(address)))
    ensures Lin2Phy(m, address) % 4096 == 4 * EntryOf(address)
  {
    var q := address / 4096;
    assert address / 1024 / 4 == q;
    assert q * 4 % 4096 == 4 * (q % 1024);
  }
}
