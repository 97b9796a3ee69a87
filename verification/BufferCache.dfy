/** The buffer cache routines of `fs/buffer.c` in place, on the header array, the hash table and the list head. */
module BufferCache {
  import opened Common
  import opened BufferProtocol
  import opened BufferLinks
  import BufferInit

  class Buffers {
    const head: array<Head>
    const hash: array<Option<nat>>
    var freeList: nat
    ghost var ring: seq<nat>
    ghost var chains: seq<seq<nat>>

    ghost function S(): Links
      reads this, head, hash
    {
      Links(head[..], freeList, hash[..])
    }

    ghost predicate Valid()
      reads this, head, hash
    {
      hash.Length == NR_HASH && Represents(S(), ring, chains) && InRange(C())
    }

    /** The abstract cache. */
    ghost function C(): Cache
      reads this, head, hash
    {
      Abstract(S(), ring)
    }

    /** `buffer_init`: the ring in header order, every header unbound and unused, the hash table empty. */
    constructor (start: nat, bufferEnd: nat)
      requires BufferInit.AllBlocks(start, bufferEnd) != []
      ensures Valid() && fresh(head) && fresh(hash) && head.Length == |BufferInit.AllBlocks(start, bufferEnd)|
      ensures ring == seq(head.Length, i => i) && forall b :: 0 <= b < head.Length ==> BufferInit.Unused(head[b])
      ensures Unique(C().buf)
    {
      var heads, data := BufferInit.Fill(start, bufferEnd);
      head := new Head[|heads|](i requires 0 <= i < |heads| => heads[i]);
      hash := new Option<nat>[NR_HASH](_ => None);
      freeList := 0;
      ring := seq(|heads|, i => i);
      chains := seq(NR_HASH, _ => []);
      new;
      assert head[..] == heads && hash[..] == seq(NR_HASH, _ => None);
      BufferInit.FreshCache(heads);
      RingIsPermutation(S(), ring, chains);
    }

    /** Pointers that will be followed point to headers. */
    ghost predicate GoodPointers(b: nat)
      reads this, head, hash
    {
      && b < head.Length && hash.Length == NR_HASH && freeList < head.Length
      && head[b].nextFree < head.Length && head[b].prevFree < head.Length && head[freeList].prevFree < head.Length
      && (head[b].next.Some? ==> head[b].next.value < head.Length)
      && (head[b].prev.Some? ==> head[b].prev.value < head.Length)
      && (forall w :: 0 <= w < NR_HASH && hash[w].Some? ==> hash[w].value < head.Length)
    }

    /** `remove_from_queues`, hash table half. */
    method RemoveFromHash(b: nat)
      requires GoodPointers(b)
      modifies head, hash
      ensures S() == UnlinkHash(old(S()), b)
    {
      if head[b].next.Some? {
        var x := head[b].next.value;
        head[x] := head[x].(prev := head[b].prev);
      }
      assert head[b].prev == old(head[b].prev) && head[b].next == old(head[b].next);
      if head[b].prev.Some? {
        var x := head[b].prev.value;
        head[x] := head[x].(next := head[b].next);
      }
      var w := HashFn(head[b].b.dev, head[b].b.block);
      assert w == BucketOf(old(S()).head[b]);
      if hash[w] == Some(b) {
        hash[w] := head[b].next;
      }
    }

    /** `remove_from_queues`, free ring half. */
    method RemoveFromRing(b: nat)
      requires b < head.Length && head[b].nextFree < head.Length && head[b].prevFree < head.Length
      modifies this`freeList, head
      ensures S() == UnlinkRing(old(S()), b)
    {
      var n := head[b].nextFree;
      head[n] := head[n].(prevFree := head[b].prevFree);
      var p := head[b].prevFree;
      head[p] := head[p].(nextFree := head[b].nextFree);
      if freeList == b {
        freeList := head[freeList].nextFree;
      }
    }

    /** `remove_from_queues`. */
    method RemoveFromQueues(b: nat)
      requires GoodPointers(b)
      modifies this`freeList, head, hash
      ensures S() == Removed(old(S()), b)
    {
      ghost var s := S();
      RemoveFromHash(b);
      assert head[b] == S().head[b] && s.head[b] == old(head[b]);
      RemoveFromRing(b);
    }

    /** `insert_into_queues`, free ring half. */
    method InsertIntoRing(b: nat)
      requires b < head.Length && freeList < head.Length && head[freeList].prevFree < head.Length
      modifies head
      ensures S() == LinkRing(old(S()), b)
    {
      var last := head[freeList].prevFree;
      head[b] := head[b].(prevFree := last);
      head[b] := head[b].(nextFree := freeList);
      head[last] := head[last].(nextFree := b);
      head[freeList] := head[freeList].(prevFree := b);
    }

    /** `insert_into_queues`, hash table half; a header bound to no device goes on no chain. */
    method InsertIntoHash(b: nat)
      requires b < head.Length && hash.Length == NR_HASH
      requires forall w :: 0 <= w < NR_HASH && hash[w].Some? ==> hash[w].value < head.Length
      modifies head, hash
      ensures S() == LinkHash(old(S()), b)
    {
      head[b] := head[b].(prev := None);
      head[b] := head[b].(next := None);
      if head[b].b.dev == 0 {
        return;
      }
      var w := HashFn(head[b].b.dev, head[b].b.block);
      var first := hash[w];
      hash[w] := Some(b);
      head[b] := head[b].(next := first);
      if first.Some? {
        head[first.value] := head[first.value].(prev := Some(b));
      }
    }

    /** `insert_into_queues`. */
    method InsertIntoQueues(b: nat)
      requires b < head.Length && hash.Length == NR_HASH && freeList < head.Length
      requires head[freeList].prevFree < head.Length
      requires forall w :: 0 <= w < NR_HASH && hash[w].Some? ==> hash[w].value < head.Length
      modifies head, hash
      ensures S() == Inserted(old(S()), b)
    {
      InsertIntoRing(b);
      InsertIntoHash(b);
    }

    /** `find_buffer`: walk the block's hash chain.  It finds a header bound to the block exactly when there is one. */
    method FindBuffer(dev: nat, block: nat) returns (r: Option<nat>)
      requires Valid() && dev != 0
      ensures r.Some? ==> r.value < head.Length && Bound(head[r.value].b, dev, block)
      ensures r.None? ==> forall b :: 0 <= b < head.Length ==> !Bound(head[b].b, dev, block)
      ensures Unique(C().buf) ==> r == Find(C().buf, dev, block)
    {
      ghost var w := HashFn(dev, block);
      ghost var c := chains[w];
      ghost var i := 0;
      assert ChainIs(S(), w, c);
      var tmp := hash[HashFn(dev, block)];
      while tmp.Some?
        invariant 0 <= i <= |c| && tmp == (if i < |c| then Some(c[i]) else None)
        invariant forall j :: 0 <= j < i ==> c[j] < head.Length && !Bound(head[c[j]].b, dev, block)
        decreases |c| - i
      {
        InChain(S(), w, c, i);
        if head[tmp.value].b.dev == dev && head[tmp.value].b.block == block {
          if Unique(C().buf) {
            FindIsThe(C().buf, dev, block, 0, tmp.value);
          }
          return tmp;
        }
        tmp := head[tmp.value].next;
        i := i + 1;
      }
      forall b | 0 <= b < head.Length ensures !Bound(head[b].b, dev, block) {
        if Bound(head[b].b, dev, block) {
          BoundIsOnChain(S(), ring, chains, dev, block, b);
        }
      }
      assert Find(C().buf, dev, block).None?;
      r := None;
    }

    /** The do-while scan of `getblk` over the free ring: `visited` are the headers looked at, in ring order and each
        once at most; the scan stops before the end only at a clean victim. */
    method ScanRing() returns (bh: Option<nat>, ghost visited: seq<nat>)
      requires Valid()
      ensures bh == Victim(C())
      ensures visited <= ring && NoRepeats(visited)
      ensures visited != ring ==> bh.Some? && bh.value < head.Length && Badness(head[bh.value].b) == 0
    {
      RingIsPermutation(S(), ring, chains);
      ghost var c, n := C(), |ring|;
      bh, visited := None, [];
      var tmp := freeList;
      ghost var i := 0;
      assert Linked(S(), ring[0], ring[Succ(0, n)]);
      while true
        invariant 0 <= i < n && tmp == ring[i] && tmp < head.Length && visited == ring[..i]
        invariant bh.Some? ==> bh.value < head.Length
        invariant ScanFrom(c, i, bh) == Victim(c)
        decreases n - i
      {
        assert Linked(S(), ring[i], ring[Succ(i, n)]);
        visited := ring[..i + 1];
        if head[tmp].b.count == 0 && (bh.None? || Badness(head[tmp].b) < Badness(head[bh.value].b)) {
          bh := Some(tmp);
          if Badness(head[tmp].b) == 0 {
            break;
          }
        }
        tmp := head[tmp].nextFree;
        if tmp == freeList {
          assert i == n - 1;
          break;
        }
        i := i + 1;
      }
    }

    /** The end of `getblk`: claim the victim, take it off both lists, bind it and put it back. */
    method BindVictim(b: nat, dev: nat, block: nat)
      requires Valid() && b < head.Length
      modifies this, head, hash
      ensures Valid() && C() == Rebind(old(C()), b, dev, block) && ring == Without(old(ring), b) + [b]
    {
      ghost var s0, r, cs := S(), ring, chains;
      head[b] := head[b].(b := head[b].b.(count := 1, dirt := false, uptodate := false));
      ghost var s1 := S();
      assert s1 == SetBuf(s0, b, s0.head[b].b.(count := 1, dirt := false, uptodate := false));
      KeepBinding(s0, r, cs, b, s1.head[b].b);
      RepresentedPointers(s1, r, cs, b);
      RemoveFromQueues(b);
      ghost var s2 := S();
      head[b] := head[b].(b := head[b].b.(dev := dev, block := block));
      ghost var s3 := S();
      assert s3 == SetBuf(s2, b, s2.head[b].b.(dev := dev, block := block));
      NamedPointers(s1, r, cs, b, s2, s3.head[b].b, s3);
      InsertIntoQueues(b);
      assert S() == Rebound(s0, b, dev, block);
      chains := ReboundStep(s0, r, cs, b, dev, block, S());
      ring := Without(r, b) + [b];
      RingIsPermutation(S(), ring, chains);
    }

    /** `getblk` after `wait_on_buffer` on a victim. */
    method TakeVictim(dev: nat, block: nat, b: nat) returns (pc: Pc)
      requires Valid() && Unique(C().buf) && dev != 0 && b < head.Length
      modifies this, head, hash
      ensures Valid() && Outcome(C(), pc) == BufferProtocol.TakeVictim(old(C()), dev, block, b)
      ensures Unique(C().buf)
    {
      if head[b].b.lock {
        return OnVictim(dev, block, b);
      }
      if head[b].b.count > 0 {
        return Repeat(dev, block);
      }
      if head[b].b.dirt {
        return Repeat(dev, block);
      }
      var again := FindBuffer(dev, block);
      if again.Some? {
        return Repeat(dev, block);
      }
      RingIsPermutation(S(), ring, chains);
      RebindKeepsShape(C(), b, dev, block);
      BindVictim(b, dev, block);
      pc := Got(dev, block, b);
    }

    method AddCount(b: nat, k: int)
      requires Valid() && b < head.Length
      modifies head
      ensures Valid() && C() == BufferProtocol.AddCount(old(C()), b, k)
      ensures old(Unique(C().buf)) ==> Unique(C().buf)
    {
      ghost var s0 := S();
      head[b] := head[b].(b := head[b].b.(count := AddByte(head[b].b.count, k)));
      assert S() == SetBuf(s0, b, S().head[b].b);
      KeepBinding(s0, ring, chains, b, S().head[b].b);
      SameContents(S(), ring, BufferProtocol.AddCount(Abstract(s0, ring), b, k));
    }

    /** The driver's side: lock, dirty and update flags of any header change at any time. */
    method ChangeFlags(b: nat, lock: bool, dirt: bool, uptodate: bool)
      requires Valid() && b < head.Length
      modifies head
      ensures Valid() && C() == BufferProtocol.SetFlags(old(C()), b, lock, dirt, uptodate)
      ensures var f := C().buf[b]; f.lock == lock && f.dirt == dirt && f.uptodate == uptodate
      ensures old(Unique(C().buf)) ==> Unique(C().buf)
    {
      ghost var s0, c0 := S(), C();
      head[b] := head[b].(b := WithFlags(head[b].b, lock, dirt, uptodate));
      assert S() == SetBuf(s0, b, S().head[b].b);
      KeepBinding(s0, ring, chains, b, S().head[b].b);
      SameContents(S(), ring, BufferProtocol.SetFlags(c0, b, lock, dirt, uptodate));
    }

    /** `get_hash_table` after `wait_on_buffer` on a found buffer. */
    method TakeHit(dev: nat, block: nat, b: nat) returns (pc: Pc)
      requires Valid() && b < head.Length
      modifies head
      ensures Valid() && Outcome(C(), pc) == BufferProtocol.TakeHit(old(C()), dev, block, b)
      ensures old(Unique(C().buf)) ==> Unique(C().buf)
    {
      if head[b].b.lock {
        return OnHit(dev, block, b);
      }
      if head[b].b.dev == dev && head[b].b.block == block {
        return Got(dev, block, b);
      }
      AddCount(b, -1);
      pc := Repeat(dev, block);
    }

    /** `getblk` from `repeat` to its next sleep, `repeat` or return. */
    method Attempt(dev: nat, block: nat) returns (pc: Pc)
      requires Valid() && Unique(C().buf) && dev != 0
      modifies this, head, hash
      ensures Valid() && Outcome(C(), pc) == BufferProtocol.Attempt(old(C()), dev, block)
      ensures Unique(C().buf)
    {
      var bh := FindBuffer(dev, block);
      if bh.Some? {
        AddCount(bh.value, 1);
        assert head[bh.value].b == C().buf[bh.value];
        pc := TakeHit(dev, block, bh.value);
        return;
      }
      ghost var visited: seq<nat>;
      bh, visited := ScanRing();
      if bh.None? {
        return OnAny(dev, block);
      }
      pc := TakeVictim(dev, block, bh.value);
    }
  }

  lemma RepresentedPointers(s: Links, r: seq<nat>, cs: seq<seq<nat>>, b: nat)
    requires Represents(s, r, cs) && b < |s.head|
    ensures b in r && s.freeList < |s.head| && s.head[s.freeList].prevFree < |s.head|
    ensures s.head[b].nextFree < |s.head| && s.head[b].prevFree < |s.head|
    ensures s.head[b].next.Some? ==> s.head[b].next.value < |s.head|
    ensures s.head[b].prev.Some? ==> s.head[b].prev.value < |s.head|
    ensures forall w :: 0 <= w < NR_HASH && s.hash[w].Some? ==> s.hash[w].value < |s.head|
  {
    RingIsPermutation(s, r, cs);
    FullRing(Abstract(s, r), b);
    RingPointers(s, r);
    var k :| 0 <= k < |r| && r[k] == b;
    HashPointers(s, cs);
    assert Indexed(s, cs, b);
    if s.head[b].b.dev != 0 {
      var w := BucketOf(s.head[b]);
      assert ChainIs(s, w, cs[w]);
      var i :| 0 <= i < |cs[w]| && cs[w][i] == b;
      InChain(s, w, cs[w], i);
      if i + 1 < |cs[w]| {
        InChain(s, w, cs[w], i + 1);
      }
      if i > 0 {
        InChain(s, w, cs[w], i - 1);
      }
    }
  }

  lemma RingPointers(s: Links, r: seq<nat>)
    requires RingIs(s, r)
    ensures s.freeList < |s.head|
    ensures forall k :: 0 <= k < |r| ==>
            r[k] < |s.head| && s.head[r[k]].nextFree < |s.head| && s.head[r[k]].prevFree < |s.head|
  {
    forall k | 0 <= k < |r|
      ensures r[k] < |s.head| && s.head[r[k]].nextFree < |s.head| && s.head[r[k]].prevFree < |s.head|
    {
      var before := if k > 0 then k - 1 else |r| - 1;
      assert Linked(s, r[k], r[Succ(k, |r|)]) && Linked(s, r[before], r[Succ(before, |r|)]);
    }
  }

  lemma HashPointers(s: Links, cs: seq<seq<nat>>)
    requires HashIs(s, cs)
    ensures forall w :: 0 <= w < NR_HASH && s.hash[w].Some? ==> s.hash[w].value < |s.head|
  {
    forall w | 0 <= w < NR_HASH && s.hash[w].Some? ensures s.hash[w].value < |s.head| {
      assert ChainIs(s, w, cs[w]);
      InChain(s, w, cs[w], 0);
    }
  }

  /** The removed header, once renamed, can be inserted again. */
  lemma NamedPointers(s1: Links, r: seq<nat>, cs: seq<seq<nat>>, b: nat, s2: Links, v: Buf, s3: Links)
    requires Represents(s1, r, cs) && b < |s1.head| && b in r && s2 == Removed(s1, b) && s3 == SetBuf(s2, b, v)
    ensures s3.freeList < |s3.head| == |s1.head| && s3.head[s3.freeList].prevFree < |s3.head| && |s3.hash| == NR_HASH
    ensures forall w :: 0 <= w < NR_HASH && s3.hash[w].Some? ==> s3.hash[w].value < |s3.head|
  {
    RemoveStep(s1, r, cs, b, s2);
    var r', cs' := Without(r, b), ChainsWithout(s1, cs, b);
    SetBufDetached(s2, r', cs', b, v);
    RingPointers(s3, if r' == [] then [b] else r');
    HashPointers(s3, cs');
  }
}
