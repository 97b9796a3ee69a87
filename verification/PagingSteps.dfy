/** Each elementary effect of the memory routines keeps the paging invariant. */
module PagingSteps {
  import opened Common
  import opened Paging
  import opened PagingInvariant

  ghost predicate SameRef(m: Machine, m': Machine, r: Ref)
    requires IsRef(r)
  {
    Target(m', r) == Target(m, r) && MayWrite(m', r) == MayWrite(m, r)
  }

  ghost predicate SameRefsBut(m: Machine, m': Machine, but: set<Ref>) {
    forall r :: IsRef(r) && r !in but ==> SameRef(m, m', r)
  }

  // ----- the two ways a reference changes

  /** Linking the pending frame to a reference settles the counts. */
  lemma LinkPending(m: Machine, m': Machine, r0: Ref, p: nat)
    requires NoClash(m) && Counted(m, p) && p != 0
    requires IsRef(r0) && SameRefsBut(m, m', {r0}) && Target(m', r0) == p
    requires var a := Target(m, r0);
             && a < FRAMES
             && m'.memMap == if IsPool(a) then m.memMap[a - LOW_FRAMES := AddByte(CountOf(m, a), -1)] else m.memMap
    ensures NoClash(m') && Counted(m', 0)
  {
    forall r | IsRef(r) && r != r0
      ensures SameRef(m, m', r) && Target(m', r) != p
    {
      assert r !in Refs(m, p);
    }
    forall r, r' | IsRef(r) && IsRef(r') && r != r' && Target(m', r) == Target(m', r') >= POOL
      ensures MayShare(m', r, r')
    {
      assert MayShare(m, r, r');
    }
    forall f | POOL <= f < FRAMES
      ensures CountOf(m', f) == |Refs(m', f)|
    {
      RefsMove(m, m', r0, f);
      assert Target(m, r0) == f ==> r0 in Refs(m, f);
    }
    forall f | LOW_FRAMES <= f < POOL
      ensures CountOf(m', f) == USED
    {
      assert CountOf(m, f) == USED;
    }
  }

  /** Entry `r0` becomes a second, read-only reference to the frame of `r1`, which turns read-only too. */
  ghost predicate Shares(m: Machine, m': Machine, r0: Ref, r1: Ref)
    requires IsRef(r0) && IsRef(r1)
  {
    && r0 != r1 && r0.PageRef? && r1.PageRef?
    && SameRefsBut(m, m', {r0, r1})
    && Target(m, r0) < POOL && IsPool(Target(m, r1))
    && Target(m', r0) == Target(m', r1) == Target(m, r1)
    && !MayWrite(m', r0) && !MayWrite(m', r1)
    && (forall r :: IsRef(r) && Target(m, r) == Target(m, r1) ==> SlotOf(r) != SlotOf(r0))
  }

  lemma ShareNoClash(m: Machine, m': Machine, r0: Ref, r1: Ref)
    requires NoClash(m) && IsRef(r0) && IsRef(r1) && Shares(m, m', r0, r1)
    ensures NoClash(m')
  {
    forall r | IsRef(r) && r != r0
      ensures Target(m', r) == Target(m, r) && (MayWrite(m', r) ==> MayWrite(m, r))
    {
      assert r != r1 ==> SameRef(m, m', r);
    }
    forall r | IsRef(r) && r != r0 && Target(m', r) == Target(m, r1)
      ensures MayShare(m', r, r0) && MayShare(m', r0, r)
    {
      assert r != r1 ==> MayShare(m, r, r1);
    }
    forall r, r' | IsRef(r) && IsRef(r') && r != r' && Target(m', r) == Target(m', r') >= POOL
      ensures MayShare(m', r, r')
    {
      if r != r0 && r' != r0 {
        assert MayShare(m, r, r');
      }
    }
  }

  lemma ShareCounted(m: Machine, m': Machine, r0: Ref, r1: Ref)
    requires NoClash(m) && Counted(m, 0) && IsRef(r0) && IsRef(r1) && Shares(m, m', r0, r1)
    requires var f := Target(m, r1); m'.memMap == m.memMap[f - LOW_FRAMES := AddByte(CountOf(m, f), 1)]
    ensures Counted(m', 0)
  {
    forall r | IsRef(r) && r != r0 ensures Target(m', r) == Target(m, r) {
      assert r != r1 ==> SameRef(m, m', r);
    }
    forall f | POOL <= f < FRAMES
      ensures CountOf(m', f) == |Refs(m', f)|
    {
      RefsMove(m, m', r0, f);
      AtMost63(m, f);
    }
    forall f | LOW_FRAMES <= f < POOL
      ensures CountOf(m', f) == USED
    {
      assert CountOf(m, f) == USED;
    }
  }

  /** Changes that move no reference to a pool frame. */
  ghost predicate SamePoolRefs(m: Machine, m': Machine) {
    forall r :: IsRef(r) ==> SameRef(m, m', r) || (Target(m, r) < POOL && Target(m', r) < POOL)
  }

  lemma NothingMoved(m: Machine, m': Machine)
    requires NoClash(m) && SamePoolRefs(m, m')
    ensures NoClash(m')
    ensures forall f :: f >= POOL ==> Refs(m', f) == Refs(m, f)
  {
    forall f | f >= POOL ensures Refs(m', f) == Refs(m, f) {
      forall r | IsRef(r) ensures r in Refs(m', f) <==> r in Refs(m, f) {
        assert SameRef(m, m', r) || (Target(m, r) < POOL && Target(m', r) < POOL);
      }
    }
    forall r, r' | IsRef(r) && IsRef(r') && r != r' && Target(m', r) == Target(m', r') >= POOL
      ensures MayShare(m', r, r')
    {
      assert SameRef(m, m', r) && SameRef(m, m', r');
      assert MayShare(m, r, r');
    }
  }

  lemma CountsKept(m: Machine, m': Machine)
    requires NoClash(m) && Counted(m, 0) && SamePoolRefs(m, m') && m'.memMap == m.memMap
    ensures NoClash(m') && Counted(m', 0)
  {
    NothingMoved(m, m');
    forall f | LOW_FRAMES <= f < FRAMES ensures CountOf(m', f) == CountOf(m, f) {
    }
  }

  // ----- writing a frame that is not a table

  ghost predicate NotATable(m: Machine, f: nat) {
    5 <= f < FRAMES && forall d :: 16 <= d < 1024 ==> Target(m, TableRef(d)) != f
  }

  lemma UnreferencedIsNoTable(m: Machine, f: nat)
    requires IsPool(f) && Refs(m, f) == {}
    ensures NotATable(m, f)
  {
    forall d: nat | 16 <= d < 1024 ensures Target(m, TableRef(d)) != f {
      assert TableRef(d) !in Refs(m, f);
    }
  }

  ghost predicate SameTables(m: Machine, m': Machine) {
    && (forall d :: 0 <= d < 1024 ==> Pde(m', d) == Pde(m, d))
    && (forall d, i :: UserDir(d) && 0 <= i < 1024 ==> Pte(m', d, i) == Pte(m, d, i))
  }

  ghost predicate UserDir(d: int) { 0 <= d < 4 || 16 <= d < 1024 }

  lemma WriteFrame(m: Machine, m': Machine, f: nat)
    requires KernelMap(m) && NotATable(m, f) && m'.mem == m.mem[f := m'.mem[f]]
    ensures KernelMap(m') && SameTables(m, m')
  {
    assert forall d :: 0 <= d < 1024 ==> Pde(m', d) == Pde(m, d);
    forall d, i | UserDir(d) && 0 <= i < 1024
      ensures Pte(m', d, i) == Pte(m, d, i)
    {
      if d >= 16 {
        assert Target(m, TableRef(d)) != f;
      } else {
        assert Pde(m, d) == Entry7(d + 1);
      }
    }
  }

  // ----- get_free_page

  /** The allocator hands out a pool frame nothing refers to. */
  lemma AllocStep(m: Machine)
    requires Inv(m) && HasFree(m)
    ensures var f := FreeFrame(m); var m' := GetFreePage(m);
            IsPool(f) && Refs(m, f) == {} && NotATable(m, f) && InvWith(m', f) && SameTables(m, m')
  {
    var f := FreeFrame(m);
    var m' := GetFreePage(m);
    assert forall g :: LOW_FRAMES <= g < POOL ==> CountOf(m, g) == USED;
    assert CountOf(m, f) == 0;
    assert IsPool(f) && Refs(m, f) == {};
    UnreferencedIsNoTable(m, f);
    WriteFrame(m, m', f);
    NothingMoved(m, m');
    forall g | POOL <= g < FRAMES
      ensures CountOf(m', g) == |Refs(m', g)| + if g == f then 1 else 0
    {
      assert CountOf(m, g) == |Refs(m, g)|;
    }
    forall g | LOW_FRAMES <= g < POOL ensures CountOf(m', g) == USED {
      assert CountOf(m, g) == USED;
    }
  }

  // ----- linking a claimed frame

  lemma LinkTask(m: Machine, n: nat, f: nat, image: Page)
    requires InvWith(m, f) && f != 0 && 1 <= n < NR_TASKS && m.task[n] == 0
    ensures var m' := m.(task := m.task[n := f], mem := m.mem[f := image]);
            Inv(m') && SameTables(m, m')
  {
    var m' := m.(task := m.task[n := f], mem := m.mem[f := image]);
    UnreferencedIsNoTable(m, f);
    WriteFrame(m, m', f);
    LinkPending(m, m', TaskRef(n), f);
  }

  lemma LinkTable(m: Machine, d: nat, f: nat)
    requires InvWith(m, f) && f != 0 && 16 <= d < 1024 && m.task[d / 16] != 0 && Pde(m, d) == 0
    requires m.mem[f] == ZeroPage()
    ensures var m' := SetWord(m, 0, d, Entry7(f));
            && Inv(m')
            && (forall d', i :: UserDir(d') && 0 <= i < 1024 ==> Pte(m', d', i) == Pte(m, d', i))
  {
    var m' := SetWord(m, 0, d, Entry7(f));
    LinkedTableIsEmpty(m, d, f);
    LinkedTableShape(m, d, f);
    LinkedTableRefs(m, d, f);
    LinkPending(m, m', TableRef(d), f);
  }

  lemma LinkedTableRefs(m: Machine, d: nat, f: nat)
    requires KernelMap(m) && Tables(m) && IsPool(f) && 16 <= d < 1024 && Pde(m, d) == 0 && m.mem[f] == ZeroPage()
    ensures var m' := SetWord(m, 0, d, Entry7(f));
            SameRefsBut(m, m', {TableRef(d)}) && Target(m', TableRef(d)) == f && Target(m, TableRef(d)) == 0
  {
    var m' := SetWord(m, 0, d, Entry7(f));
    LinkedTableIsEmpty(m, d, f);
    forall r | IsRef(r) && r != TableRef(d) ensures SameRef(m, m', r) {
      assert r.TableRef? ==> Pde(m', r.d) == Pde(m, r.d);
    }
    Entry7Facts(f);
    assert Pde(m', d) == Entry7(f);
  }

  lemma LinkedTableIsEmpty(m: Machine, d: nat, f: nat)
    requires KernelMap(m) && Tables(m) && IsPool(f) && 16 <= d < 1024 && Pde(m, d) == 0 && m.mem[f] == ZeroPage()
    ensures var m' := SetWord(m, 0, d, Entry7(f));
            forall d', i :: UserDir(d') && 0 <= i < 1024 ==> Pte(m', d', i) == Pte(m, d', i)
  {
    var m' := SetWord(m, 0, d, Entry7(f));
    Entry7Facts(f);
    forall d', i | UserDir(d') && 0 <= i < 1024
      ensures Pte(m', d', i) == Pte(m, d', i)
    {
      assert d' != d ==> Pde(m', d') == Pde(m, d') && (Pde(m, d') == 0 || FrameOf(Pde(m, d')) != 0);
    }
  }

  lemma LinkedTableShape(m: Machine, d: nat, f: nat)
    requires KernelMap(m) && Tables(m) && Entries(m) && Slots(m)
    requires IsPool(f) && 16 <= d < 1024 && m.task[d / 16] != 0 && Pde(m, d) == 0 && m.mem[f] == ZeroPage()
    ensures var m' := SetWord(m, 0, d, Entry7(f)); KernelMap(m') && Tables(m') && Entries(m') && Slots(m')
  {
    var m' := SetWord(m, 0, d, Entry7(f));
    LinkedTableIsEmpty(m, d, f);
    Entry7Facts(f);
    forall d' | 0 <= d' < 1024 && d' != d ensures Pde(m', d') == Pde(m, d') {
    }
    forall d', i | 16 <= d' < 1024 && 0 <= i < 1024 ensures GoodEntry(Pte(m', d', i), d', i) {
      assert GoodEntry(Pte(m, d', i), d', i);
    }
  }

  // ----- writing a page-table entry

  ghost predicate OtherTable(m: Machine, d: int, d': int) {
    16 <= d < 1024 && 16 <= d' < 1024 && d != d' && Pde(m, d) != 0 && Pde(m, d') != 0 ==>
      FrameOf(Pde(m, d)) != FrameOf(Pde(m, d'))
  }

  ghost predicate TablesApart(m: Machine) { forall d, d' :: OtherTable(m, d, d') }

  lemma Apart(m: Machine, r: Ref, r': Ref)
    requires NoClash(m) && IsRef(r) && IsRef(r') && r != r' && Target(m, r) >= POOL && !MayShare(m, r, r')
    ensures Target(m, r) != Target(m, r')
  {
  }

  lemma FrameIs(f: nat, s: nat)
    requires s < 4096
    ensures (4096 * f + s) / 4096 == f
  {
  }

  /** Setting bit 1 where it is clear leaves bits 0 and 2 as they are. */
  lemma NextBits(e: nat)
    ensures (e + 2) / 2 == e / 2 + 1 && (e + 2) % 2 == e % 2
    ensures e / 2 % 2 == 0 ==> (e + 2) / 4 == e / 4
  {
    assert e == 4 * (e / 4) + e % 4;
  }

  lemma Entry7Facts(f: nat)
    requires f < FRAMES
    ensures FrameOf(Entry7(f)) == f && Present(Entry7(f)) && Writable(Entry7(f)) && User(Entry7(f)) && Entry7(f) != 0
    ensures Entry7(f) % 4096 == 7
  {
  }

  lemma TwoTables(m: Machine, d: nat, d': nat)
    requires Tables(m) && NoClash(m) && 16 <= d < 1024 && 16 <= d' < 1024 && d != d' && Pde(m, d) != 0
    requires Pde(m, d') != 0
    ensures FrameOf(Pde(m, d)) != FrameOf(Pde(m, d'))
  {
    assert Target(m, TableRef(d)) == FrameOf(Pde(m, d)) && Target(m, TableRef(d')) == FrameOf(Pde(m, d'));
    Apart(m, TableRef(d), TableRef(d'));
  }

  lemma TablesAreApart(m: Machine)
    requires Tables(m) && NoClash(m)
    ensures TablesApart(m)
  {
    forall d, d' ensures OtherTable(m, d, d') {
      if 16 <= d < 1024 && 16 <= d' < 1024 && d != d' && Pde(m, d) != 0 && Pde(m, d') != 0 {
        TwoTables(m, d, d');
      }
    }
  }

  /** Storing a word in a table changes that entry and no other. */
  lemma WriteEntry(m: Machine, d: nat, i: nat, w: Word)
    requires KernelMap(m) && Tables(m) && TablesApart(m) && 16 <= d < 1024 && i < 1024 && Pde(m, d) != 0
    ensures var m' := SetWord(m, FrameOf(Pde(m, d)), i, w);
            && KernelMap(m') && Tables(m') && TablesApart(m')
            && (forall d' :: 0 <= d' < 1024 ==> Pde(m', d') == Pde(m, d'))
            && Pte(m', d, i) == w
            && (forall d', i' :: UserDir(d') && 0 <= i' < 1024 && (d' != d || i' != i) ==>
                 Pte(m', d', i') == Pte(m, d', i'))
  {
    var t := FrameOf(Pde(m, d));
    var m' := SetWord(m, t, i, w);
    forall d' | 0 <= d' < 1024 ensures Pde(m', d') == Pde(m, d') {
      assert m'.mem[0] == m.mem[0];
    }
    forall d', i' | UserDir(d') && 0 <= i' < 1024 && (d' != d || i' != i)
      ensures Pte(m', d', i') == Pte(m, d', i')
    {
      assert OtherTable(m, d, d');
      assert d' < 4 ==> Pde(m, d') == Entry7(d' + 1) && FrameOf(Entry7(d' + 1)) == d' + 1;
    }
    forall d', d'' ensures OtherTable(m', d', d'') {
      assert OtherTable(m, d', d'');
    }
  }

  /** A page a task can see is never a page table. */
  lemma PageIsNoTable(m: Machine, d: nat, i: nat, t: nat)
    requires Inv(m) && (d == 0 || 16 <= d < 1024) && i < 1024 && Pte(m, d, i) != 0
    requires 16 <= t < 1024 && Pde(m, t) != 0
    ensures FrameOf(Pte(m, d, i)) != FrameOf(Pde(m, t)) && FrameOf(Pte(m, d, i)) < FRAMES
  {
    if d == 0 {
      assert Pte(m, 0, i) == Entry7(i);
    } else {
      assert GoodEntry(Pte(m, d, i), d, i);
      Apart(m, TableRef(t), PageRef(d, i));
    }
  }
}
