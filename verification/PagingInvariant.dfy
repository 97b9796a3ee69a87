/**
 What every memory routine keeps.  A *reference* is anything that owns or maps a frame on behalf of slots 1 and up:
 a task structure, a page table, or a page-table entry.  Two facts carry everything else: `mem_map` counts the
 references of each pool frame, and two references share a frame only when both are read-only pages of different
 slots.
 */
module PagingInvariant {
  import opened Common
  import opened Paging

  datatype Ref = TaskRef(n: nat) | TableRef(d: nat) | PageRef(d: nat, i: nat)

  ghost predicate IsRef(r: Ref) {
    match r
    case TaskRef(n) => 1 <= n < NR_TASKS
    case TableRef(d) => 16 <= d < 1024
    case PageRef(d, i) => 16 <= d < 1024 && i < 1024
  }

  ghost function AllRefs(): (all: set<Ref>)
    ensures forall r {:trigger r in all} :: r in all <==> IsRef(r)
  {
    (set n: nat | 1 <= n < NR_TASKS :: TaskRef(n))
    + (set d: nat | 16 <= d < 1024 :: TableRef(d))
    + (set d: nat, i: nat | 16 <= d < 1024 && i < 1024 :: PageRef(d, i))
  }

  /** The frame a reference holds, 0 when it holds none. */
  ghost function Target(m: Machine, r: Ref): nat
    requires IsRef(r)
  {
    match r
    case TaskRef(n) => m.task[n]
    case TableRef(d) => if Present(Pde(m, d)) then FrameOf(Pde(m, d)) else 0
    case PageRef(d, i) => FrameOf(Pte(m, d, i))
  }

  ghost predicate MayWrite(m: Machine, r: Ref)
    requires IsRef(r)
  {
    r.PageRef? && Writable(Pte(m, r.d, r.i))
  }

  ghost function Refs(m: Machine, f: nat): (s: set<Ref>)
    ensures forall r {:trigger r in s} :: r in s <==> IsRef(r) && Target(m, r) == f
  {
    set r | r in AllRefs() && Target(m, r) == f
  }

  ghost function SlotOf(r: Ref): nat
  {
    match r
    case TaskRef(n) => n
    case TableRef(d) => d / 16
    case PageRef(d, _) => d / 16
  }

  // ----- the invariant

  /** Slot 0: four page tables in frames 1 to 4 that map all 16 MB to itself, and nothing else below entry 16. */
  ghost predicate KernelMap(m: Machine) {
    && (forall d :: 0 <= d < 16 ==> Pde(m, d) == if d < 4 then Entry7(d + 1) else 0)
    && (forall d, i :: 0 <= d < 4 && 0 <= i < 1024 ==> Pte(m, d, i) == Entry7(1024 * d + i))
  }

  ghost predicate IsPool(f: nat) { POOL <= f < FRAMES }

  ghost predicate Tables(m: Machine) {
    forall d :: 16 <= d < 1024 ==>
      Pde(m, d) == 0 || (IsPool(FrameOf(Pde(m, d))) && Present(Pde(m, d)) && Pde(m, d) == Entry7(FrameOf(Pde(m, d))))
  }

  /** An entry of slots 1 and up is empty, maps a pool frame, or maps, read-only, slot 0's page at the same offset; user
      mode may use it. */
  ghost predicate GoodEntry(e: Word, d: nat, i: nat) {
    || e == 0
    || (Present(e) && User(e) && (IsPool(FrameOf(e)) || (FrameOf(e) == i < USER_PAGES && d % 16 == 0 && !Writable(e))))
  }

  ghost predicate Entries(m: Machine) {
    forall d, i {:trigger GoodEntry(Pte(m, d, i), d, i)} ::
      16 <= d < 1024 && 0 <= i < 1024 ==> GoodEntry(Pte(m, d, i), d, i)
  }

  ghost predicate Slots(m: Machine) {
    && (forall n :: 1 <= n < NR_TASKS ==> m.task[n] == 0 || IsPool(m.task[n]))
    && (forall d :: 16 <= d < 1024 && m.task[d / 16] == 0 ==> Pde(m, d) == 0)
  }

  /** Different references to one pool frame are read-only pages of different slots. */
  ghost predicate NoClash(m: Machine) {
    forall r, r' {:trigger MayShare(m, r, r')} ::
      IsRef(r) && IsRef(r') && r != r' && Target(m, r) == Target(m, r') >= POOL ==> MayShare(m, r, r')
  }

  ghost predicate MayShare(m: Machine, r: Ref, r': Ref)
    requires IsRef(r) && IsRef(r')
  {
    r.PageRef? && r'.PageRef? && !MayWrite(m, r) && !MayWrite(m, r') && SlotOf(r) != SlotOf(r')
  }

  ghost function CountOf(m: Machine, f: nat): Byte
    requires LOW_FRAMES <= f < FRAMES
  {
    m.memMap[f - LOW_FRAMES]
  }

  /** `mem_map` counts references; `pending` is a frame claimed but not yet linked anywhere (0 when there is none). */
  ghost predicate Counted(m: Machine, pending: nat) {
    && (forall f :: LOW_FRAMES <= f < POOL ==> CountOf(m, f) == USED)
    && (forall f :: POOL <= f < FRAMES ==>
          CountOf(m, f) == |Refs(m, f)| + if f == pending then 1 else 0)
    && (pending != 0 ==> IsPool(pending) && Refs(m, pending) == {})
  }

  ghost predicate InvWith(m: Machine, pending: nat) {
    KernelMap(m) && Tables(m) && Entries(m) && Slots(m) && NoClash(m) && Counted(m, pending)
  }

  ghost predicate Inv(m: Machine) { InvWith(m, 0) }

  // ----- counting

  /** Retargeting one reference moves one unit of count. */
  lemma RefsMove(m: Machine, m': Machine, r0: Ref, f: nat)
    requires IsRef(r0)
    requires forall r :: IsRef(r) && r != r0 ==> Target(m', r) == Target(m, r)
    ensures |Refs(m', f)| == |Refs(m, f)|
            + (if Target(m', r0) == f then 1 else 0) - (if Target(m, r0) == f then 1 else 0)
  {
    var both := Refs(m, f) - {r0};
    assert both == Refs(m', f) - {r0};
    assert Refs(m, f) == if Target(m, r0) == f then both + {r0} else both;
    assert Refs(m', f) == if Target(m', r0) == f then both + {r0} else both;
  }

  lemma RefsSame(m: Machine, m': Machine, f: nat)
    requires forall r :: IsRef(r) ==> Target(m', r) == Target(m, r)
    ensures Refs(m', f) == Refs(m, f)
  {
  }

  /** References of pairwise different slots in 1..k are at most k. */
  lemma {:induction false} DistinctSlots(s: set<Ref>, k: nat)
    requires forall r :: r in s ==> 1 <= SlotOf(r) <= k
    requires forall r, r' :: r in s && r' in s && r != r' ==> SlotOf(r) != SlotOf(r')
    ensures |s| <= k
  {
    if r :| r in s && SlotOf(r) == k {
      DistinctSlots(s - {r}, k - 1);
    } else if k > 0 {
      DistinctSlots(s, k - 1);
    } else {
      assert s == {};
    }
  }

  /** No pool frame has more than 63 references, so the byte in `mem_map` never wraps. */
  lemma AtMost63(m: Machine, f: nat)
    requires NoClash(m) && IsPool(f)
    ensures |Refs(m, f)| <= 63
  {
    var s := Refs(m, f);
    forall r, r' | r in s && r' in s && r != r' ensures MayShare(m, r, r') {
    }
    if r :| r in s && !r.PageRef? {
      assert s == {r};
    } else {
      DistinctSlots(s, 63);
    }
  }
}
