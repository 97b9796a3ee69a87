/** `copy_page_tables` and `un_wp_page` keep the paging invariant, and what they do to each task's view. */
module PagingShare {
  import opened Common
  import opened Paging
  import opened PagingInvariant
  import opened PagingSteps

  /** Entries of slot `c` that map pool frames repeat the frames of the entries `delta` directory entries away. */
  ghost predicate Mirror(m: Machine, delta: int, c: nat) { forall d, i :: MirrorAt(m, delta, c, d, i) }

  ghost predicate MirrorAt(m: Machine, delta: int, c: nat, d: int, i: int) {
    16 <= d < 1024 && 0 <= d + delta < 1024 && 0 <= i < 1024 && d / 16 == c && IsPool(FrameOf(Pte(m, d, i))) ==>
      FrameOf(Pte(m, d + delta, i)) == FrameOf(Pte(m, d, i))
  }

  /** Directory entries `fd` of the parent and `td` of the child both have tables and the child mirrors the parent. */
  ghost predicate Copying(m: Machine, fd: nat, td: nat) {
    && Inv(m) && 16 <= td < 1024 && (fd == 0 || 16 <= fd < 1024)
    && fd % 16 == td % 16 && fd / 16 != td / 16
    && Pde(m, fd) != 0 && Pde(m, td) != 0
    && Mirror(m, fd - td, td / 16)
  }

  ghost predicate SamePtesBut(m: Machine, m': Machine, d0: nat, i0: nat, d1: nat, i1: nat) {
    forall d, i :: UserDir(d) && 0 <= i < 1024 && !(d == d0 && i == i0) && !(d == d1 && i == i1) ==>
      Pte(m', d, i) == Pte(m, d, i)
  }

  ghost predicate SamePdes(m: Machine, m': Machine) {
    forall d :: 0 <= d < 1024 ==> Pde(m', d) == Pde(m, d)
  }

  ghost predicate SameFree(m: Machine, m': Machine) {
    forall k :: 0 <= k < PAGING_PAGES ==> (m'.memMap[k] == 0 <==> m.memMap[k] == 0)
  }

  lemma EntryArithmetic(e: Word)
    requires e != 0 && Present(e)
    ensures FrameOf(ReadOnly(e)) == FrameOf(e) && Present(ReadOnly(e)) && !Writable(ReadOnly(e)) && ReadOnly(e) != 0
    ensures ReadOnly(ReadOnly(e)) == ReadOnly(e) && (User(e) ==> User(ReadOnly(e))) && Bit1Cleared(e, ReadOnly(e))
    ensures IsPool(FrameOf(e)) ==> ReadOnly(e) > LOW_MEM && (ReadOnly(e) - LOW_MEM) / 4096 == FrameOf(e) - LOW_FRAMES
    ensures FrameOf(e) < USER_PAGES ==> ReadOnly(e) <= LOW_MEM
  {
    var f, r := e / 4096, e % 4096;
    if Writable(e) {
      assert r >= 2;
      NextBits(e - 2);
      FrameIs(f, r - 2);
      assert e - 2 == 4096 * f + (r - 2);
      MinusLow(f, r - 2);
    } else {
      MinusLow(f, r);
    }
  }

  lemma MinusLow(f: nat, s: nat)
    requires s < 4096
    ensures f >= POOL ==> 4096 * f + s > LOW_MEM && (4096 * f + s - LOW_MEM) / 4096 == f - LOW_FRAMES
  {
    if f >= POOL {
      FrameIs(f - LOW_FRAMES, s);
    }
  }

  // ----- one entry

  /** `e'` is `e` with bit 1 cleared and nothing else changed. */
  ghost predicate Bit1Cleared(e: Word, e': Word) { e' == e - if e / 2 % 2 == 1 then 2 else 0 }

  /** What one turn of the inner loop does to the tables, stated on the entries. */
  ghost predicate Shared(m: Machine, m': Machine, fd: nat, td: nat, i: nat)
    requires UserDir(fd) && UserDir(td) && i < 1024
  {
    && m'.task == m.task && SamePdes(m, m') && SamePtesBut(m, m', td, i, fd, i)
    && Bit1Cleared(Pte(m, fd, i), Pte(m', td, i))
    && (if IsPool(FrameOf(Pte(m, fd, i))) && fd != 0 then Bit1Cleared(Pte(m, fd, i), Pte(m', fd, i))
        else Pte(m', fd, i) == Pte(m, fd, i))
    && (forall f :: 0 <= f < FRAMES && f != FrameOf(Pde(m, td)) && (f != FrameOf(Pde(m, fd)) || fd == 0) ==>
         m'.mem[f] == m.mem[f])
  }

  lemma ShareShape(m: Machine, fd: nat, td: nat, i: nat, m': Machine)
    requires Copying(m, fd, td) && i < 1024 && (fd == 0 ==> i < USER_PAGES) && Pte(m, td, i) == 0
    requires FrameOf(Pde(m, fd)) < FRAMES && FrameOf(Pde(m, td)) < FRAMES
    requires m' == CopyEntry(m, FrameOf(Pde(m, fd)), FrameOf(Pde(m, td)), i)
    ensures Shared(m, m', fd, td, i) && KernelMap(m')
  {
    TablesAreApart(m);
    if fd == 0 {
      assert Pte(m, 0, i) == Entry7(i);
      Entry7Facts(i);
      ShareLow(m, fd, td, i, m');
    } else {
      assert GoodEntry(Pte(m, fd, i), fd, i);
      if IsPool(FrameOf(Pte(m, fd, i))) {
        SharePool(m, fd, td, i, m');
      } else {
        ShareLow(m, fd, td, i, m');
      }
    }
  }

  lemma ShareLow(m: Machine, fd: nat, td: nat, i: nat, m': Machine)
    requires KernelMap(m) && Tables(m) && TablesApart(m)
    requires 16 <= td < 1024 && (fd == 0 || 16 <= fd < 1024) && fd != td && i < 1024 && Pde(m, fd) != 0
    requires Pde(m, td) != 0
    requires Pte(m, td, i) == 0
    requires var e := Pte(m, fd, i); e == 0 || (Present(e) && FrameOf(e) < USER_PAGES)
    requires FrameOf(Pde(m, fd)) < FRAMES && FrameOf(Pde(m, td)) < FRAMES
    requires m' == CopyEntry(m, FrameOf(Pde(m, fd)), FrameOf(Pde(m, td)), i)
    ensures Shared(m, m', fd, td, i) && KernelMap(m')
  {
    var e := Pte(m, fd, i);
    Entry7Facts(1);
    assert fd == 0 ==> Pde(m, 0) == Entry7(1);
    assert m.mem[FrameOf(Pde(m, fd))][i] == e;
    if e != 0 {
      EntryArithmetic(e);
      WriteEntry(m, td, i, ReadOnly(e));
    }
  }

  lemma SharePool(m: Machine, fd: nat, td: nat, i: nat, m': Machine)
    requires KernelMap(m) && Tables(m) && TablesApart(m)
    requires 16 <= td < 1024 && 16 <= fd < 1024 && fd != td && i < 1024 && Pde(m, fd) != 0 && Pde(m, td) != 0
    requires var e := Pte(m, fd, i); e != 0 && Present(e) && IsPool(FrameOf(e))
    requires m' == CopyEntry(m, FrameOf(Pde(m, fd)), FrameOf(Pde(m, td)), i)
    ensures Shared(m, m', fd, td, i) && KernelMap(m')
  {
    var e := Pte(m, fd, i);
    var ro := ReadOnly(e);
    EntryArithmetic(e);
    var m1 := SetWord(m, FrameOf(Pde(m, td)), i, ro);
    WriteEntry(m, td, i, ro);
    WriteEntry(m1, fd, i, ro);
    var m2 := SetWord(m1, FrameOf(Pde(m1, fd)), i, ro);
    assert m'.mem == m2.mem && m'.task == m.task;
    SameMemory(m2, m');
  }

  lemma SameMemory(m: Machine, m': Machine)
    requires m'.mem == m.mem
    ensures SamePdes(m, m') && (KernelMap(m) ==> KernelMap(m'))
    ensures forall d, i :: 0 <= d < 1024 && 0 <= i < 1024 ==> Pte(m', d, i) == Pte(m, d, i)
  {
    forall d, i | 0 <= d < 1024 && 0 <= i < 1024 ensures Pte(m', d, i) == Pte(m, d, i) {
    }
  }

  /** Sharing one entry keeps the invariant and the mirror, and frees or claims no frame. */
  lemma ShareEntry(m: Machine, fd: nat, td: nat, i: nat, m': Machine)
    requires Copying(m, fd, td) && i < 1024 && (fd == 0 ==> i < USER_PAGES) && Pte(m, td, i) == 0
    requires FrameOf(Pde(m, fd)) < FRAMES && FrameOf(Pde(m, td)) < FRAMES
    requires m' == CopyEntry(m, FrameOf(Pde(m, fd)), FrameOf(Pde(m, td)), i)
    ensures Shared(m, m', fd, td, i) && Copying(m', fd, td) && SameFree(m, m')
  {
    ShareShape(m, fd, td, i, m');
    SharedTables(m, m', fd, td, i);
    SharedMirror(m, m', fd, td, i);
    if fd != 0 && IsPool(FrameOf(Pte(m, fd, i))) {
      SharedPoolRefs(m, m', fd, td, i);
    } else {
      SharedLowRefs(m, m', fd, td, i);
    }
  }

  lemma SharedTables(m: Machine, m': Machine, fd: nat, td: nat, i: nat)
    requires Copying(m, fd, td) && i < 1024 && Shared(m, m', fd, td, i) && (fd == 0 ==> i < USER_PAGES)
    ensures Tables(m') && Entries(m') && Slots(m')
  {
    forall d, j | 16 <= d < 1024 && 0 <= j < 1024 ensures GoodEntry(Pte(m', d, j), d, j) {
      assert GoodEntry(Pte(m, d, j), d, j);
      if j == i && d == td {
        SourceIsGood(m, fd, i);
        ClearedIsGood(Pte(m, fd, i), Pte(m', td, i), fd, td, i);
      } else if j == i && d == fd {
        SourceIsGood(m, fd, i);
        if Pte(m', fd, i) != Pte(m, fd, i) {
          ClearedIsGood(Pte(m, fd, i), Pte(m', fd, i), fd, fd, i);
        }
      }
    }
  }

  /** What may be shared: an entry of slot 0 below 640 KB, or a good entry. */
  ghost predicate Sharable(e: Word, fd: nat, i: nat) {
    if fd == 0 then i < USER_PAGES && e == Entry7(i) else GoodEntry(e, fd, i)
  }

  lemma SourceIsGood(m: Machine, fd: nat, i: nat)
    requires KernelMap(m) && Entries(m) && (fd == 0 || 16 <= fd < 1024) && i < 1024 && (fd == 0 ==> i < USER_PAGES)
    ensures Sharable(Pte(m, fd, i), fd, i)
  {
    if fd == 0 {
      assert Pte(m, 0, i) == Entry7(i);
    } else {
      assert GoodEntry(Pte(m, fd, i), fd, i);
    }
  }

  lemma ClearedIsGood(e: Word, e': Word, fd: nat, d: nat, i: nat)
    requires Sharable(e, fd, i) && Bit1Cleared(e, e') && d % 16 == fd % 16
    ensures GoodEntry(e', d, i)
  {
    if fd == 0 {
      Entry7Facts(i);
    }
    if e != 0 {
      EntryArithmetic(e);
    }
  }

  lemma SharedFrames(m: Machine, m': Machine, fd: nat, td: nat, i: nat)
    requires Copying(m, fd, td) && i < 1024 && Shared(m, m', fd, td, i) && (fd == 0 ==> i < USER_PAGES)
    ensures FrameOf(Pte(m', td, i)) == FrameOf(Pte(m, fd, i))
    ensures forall d, j :: 0 <= d < 1024 && 0 <= j < 1024 && !(d == td && j == i) ==>
            FrameOf(Pte(m', d, j)) == FrameOf(Pte(m, d, j))
  {
    var e := Pte(m, fd, i);
    if fd == 0 {
      assert e == Entry7(i);
    } else {
      assert GoodEntry(e, fd, i);
    }
    if e != 0 {
      EntryArithmetic(e);
    }
    forall d, j | 0 <= d < 1024 && 0 <= j < 1024 && !(d == td && j == i)
      ensures FrameOf(Pte(m', d, j)) == FrameOf(Pte(m, d, j))
    {
      assert !UserDir(d) ==> Pde(m, d) == 0 && Pde(m', d) == 0;
    }
  }

  lemma SharedMirror(m: Machine, m': Machine, fd: nat, td: nat, i: nat)
    requires Copying(m, fd, td) && i < 1024 && Shared(m, m', fd, td, i) && (fd == 0 ==> i < USER_PAGES)
    ensures Mirror(m', fd - td, td / 16)
  {
    SharedFrames(m, m', fd, td, i);
    MirrorFrames(m, m', fd, td, i);
  }

  lemma MirrorFrames(m: Machine, m': Machine, fd: nat, td: nat, i: nat)
    requires fd < 1024 && 16 <= td < 1024 && i < 1024 && fd / 16 != td / 16 && fd % 16 == td % 16
    requires Mirror(m, fd - td, td / 16)
    requires FrameOf(Pte(m', td, i)) == FrameOf(Pte(m, fd, i))
    requires forall d, j :: 0 <= d < 1024 && 0 <= j < 1024 && !(d == td && j == i) ==>
             FrameOf(Pte(m', d, j)) == FrameOf(Pte(m, d, j))
    ensures Mirror(m', fd - td, td / 16)
  {
    var delta, c := fd - td, td / 16;
    forall d, j ensures MirrorAt(m', delta, c, d, j) {
      assert MirrorAt(m, delta, c, d, j);
    }
  }

  /** Nobody in the child's slot maps the frame about to be shared: it would mirror a second entry of the parent. */
  lemma ChildMapsOthers(m: Machine, fd: nat, td: nat, i: nat, d: nat, j: nat)
    requires Copying(m, fd, td) && fd != 0 && i < 1024 && Pte(m, td, i) == 0 && IsPool(FrameOf(Pte(m, fd, i)))
    requires 16 <= d < 1024 && d / 16 == td / 16 && j < 1024
    ensures FrameOf(Pte(m, d, j)) != FrameOf(Pte(m, fd, i))
  {
    if d != td || j != i {
      assert MirrorAt(m, fd - td, td / 16, d, j);
      Apart(m, PageRef(fd, i), PageRef(d + fd - td, j));
    }
  }

  lemma SharedRefs(m: Machine, m': Machine, fd: nat, td: nat, i: nat)
    requires Copying(m, fd, td) && fd != 0 && i < 1024 && Pte(m, td, i) == 0 && IsPool(FrameOf(Pte(m, fd, i)))
    requires Shared(m, m', fd, td, i)
    ensures Shares(m, m', PageRef(td, i), PageRef(fd, i))
  {
    var r0, r1 := PageRef(td, i), PageRef(fd, i);
    assert GoodEntry(Pte(m, fd, i), fd, i);
    EntryArithmetic(Pte(m, fd, i));
    forall r | IsRef(r) && r !in {r0, r1} ensures SameRef(m, m', r) {
      assert r.TableRef? ==> Pde(m', r.d) == Pde(m, r.d);
    }
    forall d, j | 16 <= d < 1024 && d / 16 == td / 16 && 0 <= j < 1024 ensures FrameOf(Pte(m, d, j)) != Target(m, r1) {
      ChildMapsOthers(m, fd, td, i, d, j);
    }
    forall r | IsRef(r) && Target(m, r) == Target(m, r1) ensures SlotOf(r) != SlotOf(r0) {
      assert r != r1 ==> MayShare(m, r, r1);
    }
  }

  lemma SharedPoolRefs(m: Machine, m': Machine, fd: nat, td: nat, i: nat)
    requires Copying(m, fd, td) && fd != 0 && i < 1024 && Pte(m, td, i) == 0 && IsPool(FrameOf(Pte(m, fd, i)))
    requires Shared(m, m', fd, td, i)
    requires m' == CopyEntry(m, FrameOf(Pde(m, fd)), FrameOf(Pde(m, td)), i)
    ensures NoClash(m') && Counted(m', 0) && SameFree(m, m')
  {
    var e, f := Pte(m, fd, i), FrameOf(Pte(m, fd, i));
    assert GoodEntry(e, fd, i);
    EntryArithmetic(e);
    var r0, r1 := PageRef(td, i), PageRef(fd, i);
    SharedRefs(m, m', fd, td, i);
    assert m'.memMap == m.memMap[f - LOW_FRAMES := AddByte(CountOf(m, f), 1)];
    ShareNoClash(m, m', r0, r1);
    ShareCounted(m, m', r0, r1);
    AtMost63(m, f);
    assert r1 in Refs(m, f) && CountOf(m, f) == |Refs(m, f)|;
  }

  lemma SharedLowRefs(m: Machine, m': Machine, fd: nat, td: nat, i: nat)
    requires Copying(m, fd, td) && i < 1024 && Pte(m, td, i) == 0 && !(fd != 0 && IsPool(FrameOf(Pte(m, fd, i))))
    requires Shared(m, m', fd, td, i) && (fd == 0 ==> i < USER_PAGES)
    requires m' == CopyEntry(m, FrameOf(Pde(m, fd)), FrameOf(Pde(m, td)), i)
    ensures NoClash(m') && Counted(m', 0) && SameFree(m, m')
  {
    assert fd != 0 ==> GoodEntry(Pte(m, fd, i), fd, i);
    SharedFrames(m, m', fd, td, i);
    CountsKept(m, m');
  }

  // ----- one table

  /** Same frame, and empty or not alike: what a view depends on. */
  ghost predicate SameMapping(e: Word, e': Word) { FrameOf(e) == FrameOf(e') && (e == 0 <==> e' == 0) }

  /** The first `n` entries of the parent's table are shared and nothing else has moved. */
  ghost predicate CopiedSoFar(m0: Machine, m: Machine, fd: nat, td: nat, n: nat)
    requires UserDir(fd) && UserDir(td)
  {
    && Copying(m, fd, td) && m.task == m0.task && SamePdes(m0, m) && SameFree(m0, m)
    && (forall j :: 0 <= j < 1024 ==> if j < n then SameMapping(Pte(m0, fd, j), Pte(m, td, j)) else Pte(m, td, j) == 0)
    && (forall d, j :: UserDir(d) && 0 <= j < 1024 && d != td ==> SameMapping(Pte(m0, d, j), Pte(m, d, j)))
    && (forall f :: 0 <= f < FRAMES && f != FrameOf(Pde(m0, td)) && (f != FrameOf(Pde(m0, fd)) || fd == 0) ==>
         m.mem[f] == m0.mem[f])
  }

  lemma {:induction false} CopyEntriesStep(m0: Machine, fd: nat, td: nat, n: nat, m: Machine)
    requires Copying(m0, fd, td) && n <= 1024 && (fd == 0 ==> n <= USER_PAGES)
    requires forall j :: 0 <= j < 1024 ==> Pte(m0, td, j) == 0
    requires FrameOf(Pde(m0, fd)) < FRAMES && FrameOf(Pde(m0, td)) < FRAMES
    requires m == CopyEntries(m0, FrameOf(Pde(m0, fd)), FrameOf(Pde(m0, td)), n)
    ensures CopiedSoFar(m0, m, fd, td, n)
  {
    if n > 0 {
      var m1 := CopyEntries(m0, FrameOf(Pde(m0, fd)), FrameOf(Pde(m0, td)), n - 1);
      CopyEntriesStep(m0, fd, td, n - 1, m1);
      CopyOneEntry(m0, m1, fd, td, n, m);
    }
  }

  lemma CopyOneEntry(m0: Machine, m: Machine, fd: nat, td: nat, n: nat, m': Machine)
    requires UserDir(fd) && UserDir(td) && fd != td && 0 < n <= 1024 && (fd == 0 ==> n <= USER_PAGES)
    requires FrameOf(Pde(m0, fd)) < FRAMES && FrameOf(Pde(m0, td)) < FRAMES && CopiedSoFar(m0, m, fd, td, n - 1)
    requires m' == CopyEntry(m, FrameOf(Pde(m0, fd)), FrameOf(Pde(m0, td)), n - 1)
    ensures CopiedSoFar(m0, m', fd, td, n)
  {
    assert Pde(m, fd) == Pde(m0, fd) && Pde(m, td) == Pde(m0, td);
    assert Pte(m, td, n - 1) == 0;
    ShareEntry(m, fd, td, n - 1, m');
    SharedKeepsMappings(m, m', fd, td, n - 1);
  }

  lemma SharedKeepsMappings(m: Machine, m': Machine, fd: nat, td: nat, i: nat)
    requires Copying(m, fd, td) && i < 1024 && Shared(m, m', fd, td, i) && (fd == 0 ==> i < USER_PAGES)
    ensures SameMapping(Pte(m, fd, i), Pte(m', td, i)) && SameMapping(Pte(m, fd, i), Pte(m', fd, i))
  {
    var e := Pte(m, fd, i);
    if fd == 0 {
      assert e == Entry7(i);
    } else {
      assert GoodEntry(e, fd, i);
    }
    if e != 0 {
      EntryArithmetic(e);
    }
  }

  // ----- what tasks see

  ghost predicate ViewDir(d: int) { d == 0 || 16 <= d < 1024 }

  /** Every page a task can see in `m0`, the page directory aside, has the same contents in `m`. */
  ghost predicate DataKept(m0: Machine, m: Machine) {
    forall d, i :: ViewDir(d) && 0 <= i < 1024 && Pte(m0, d, i) != 0 ==>
      FrameOf(Pte(m0, d, i)) < FRAMES
      && (FrameOf(Pte(m0, d, i)) != 0 ==> m.mem[FrameOf(Pte(m0, d, i))] == m0.mem[FrameOf(Pte(m0, d, i))])
  }

  lemma CopiedData(m0: Machine, m: Machine, fd: nat, td: nat, n: nat)
    requires Copying(m0, fd, td) && CopiedSoFar(m0, m, fd, td, n)
    ensures DataKept(m0, m)
  {
    forall d, i | ViewDir(d) && 0 <= i < 1024 && Pte(m0, d, i) != 0
      ensures FrameOf(Pte(m0, d, i)) < FRAMES && m.mem[FrameOf(Pte(m0, d, i))] == m0.mem[FrameOf(Pte(m0, d, i))]
    {
      PageIsNoTable(m0, d, i, td);
      if fd != 0 {
        PageIsNoTable(m0, d, i, fd);
      }
    }
  }
}
