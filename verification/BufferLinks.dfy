/**
 The linked representation of the buffer cache: every header is on a circular doubly linked free ring, and bound headers
 are also on a doubly linked hash chain.  A pointer to a header is its index in the header array of `buffer_init`.
 */
module BufferLinks {
  import opened Common
  import opened BufferProtocol

  const NR_HASH: nat := 307

  datatype Head = Head(b: Buf, prev: Option<nat>, next: Option<nat>, prevFree: nat, nextFree: nat)

  datatype Links = Links(head: seq<Head>, freeList: nat, hash: seq<Option<nat>>)

  /** Bitwise exclusive or. */
  function Xor(a: nat, b: nat): nat
    decreases a + b
  {
    if a == 0 then b else if b == 0 then a else (a % 2 + b % 2) % 2 + 2 * Xor(a / 2, b / 2)
  }

  /** `(unsigned)(dev ^ block) % NR_HASH`. */
  function HashFn(dev: nat, block: nat): (w: nat)
    ensures w < NR_HASH
  {
    Xor(dev, block) % NR_HASH
  }

  /** Bit `k`. */
  function Bit(n: nat, k: nat): nat { if k == 0 then n % 2 else Bit(n / 2, k - 1) }

  lemma OneBit(x: nat, y: nat, high: nat)
    requires x <= 1 && y <= 1
    ensures ((x + y) % 2 + 2 * high) / 2 == high && (((x + y) % 2 + 2 * high) % 2 == 1 <==> x != y)
  {
    assert (x + y) % 2 == if x == y then 0 else 1;
  }

  lemma XorStep(a: nat, b: nat)
    requires a > 0 && b > 0
    ensures Xor(a, b) / 2 == Xor(a / 2, b / 2) && (Xor(a, b) % 2 == 1 <==> a % 2 != b % 2)
  {
    var x, y, high := a % 2, b % 2, Xor(a / 2, b / 2);
    OneBit(x, y, high);
    assert Xor(a, b) == (x + y) % 2 + 2 * high;
  }

  /** Every bit is set where exactly one of the two has it. */
  lemma {:induction false} XorBit(a: nat, b: nat, k: nat)
    ensures Bit(Xor(a, b), k) == 1 <==> Bit(a, k) != Bit(b, k)
    decreases k
  {
    ZeroBit(k);
    BitIsBit(a, k);
    BitIsBit(b, k);
    if a > 0 && b > 0 {
      XorStep(a, b);
      if k > 0 {
        XorBit(a / 2, b / 2, k - 1);
      }
    }
  }

  lemma {:induction false} ZeroBit(k: nat)
    ensures Bit(0, k) == 0
  {
    if k > 0 {
      ZeroBit(k - 1);
    }
  }

  lemma {:induction false} BitIsBit(n: nat, k: nat)
    ensures Bit(n, k) == 0 || Bit(n, k) == 1
  {
    if k > 0 {
      BitIsBit(n / 2, k - 1);
    }
  }

  /** The bucket is the remainder of that modulo 307. */
  lemma HashIsRemainder(dev: nat, block: nat)
    ensures exists q: nat :: Xor(dev, block) == 307 * q + HashFn(dev, block)
    ensures HashFn(dev, block) < 307
  {
    var x := Xor(dev, block);
    assert x == 307 * (x / 307) + HashFn(dev, block);
  }

  function BucketOf(h: Head): (w: nat)
    ensures w < NR_HASH
  {
    HashFn(h.b.dev, h.b.block)
  }

  // ----- the two lists

  ghost predicate Linked(s: Links, x: nat, y: nat) {
    x < |s.head| && y < |s.head| && s.head[x].nextFree == y && s.head[y].prevFree == x
  }

  function Succ(i: nat, n: nat): nat { if i + 1 < n then i + 1 else 0 }

  /** Following `b_next_free` from `free_list` gives `r` and comes back; `b_prev_free` is the inverse. */
  ghost predicate RingIs(s: Links, r: seq<nat>) {
    && r != [] && NoRepeats(r) && s.freeList == r[0]
    && forall i :: 0 <= i < |r| ==> Linked(s, r[i], r[Succ(i, |r|)])
  }

  /** Bucket `w` is the list `c`: bound headers that hash to `w`, each once, with mutually inverse links. */
  ghost predicate ChainIs(s: Links, w: nat, c: seq<nat>)
    requires w < |s.hash|
  {
    && NoRepeats(c) && s.hash[w] == (if c == [] then None else Some(c[0]))
    && forall i :: 0 <= i < |c| ==> LinkOk(s, w, c, i)
  }

  ghost predicate LinkOk(s: Links, w: nat, c: seq<nat>, i: nat)
    requires i < |c|
  {
    && c[i] < |s.head| && s.head[c[i]].next == NextIn(c, i) && s.head[c[i]].prev == PrevIn(c, i)
    && s.head[c[i]].b.dev != 0 && BucketOf(s.head[c[i]]) == w
  }

  /** Is the header on the chain it belongs on: its own bucket's if bound, none if not? */
  ghost predicate Indexed(s: Links, cs: seq<seq<nat>>, b: nat)
    requires b < |s.head| && |cs| == NR_HASH
  {
    if s.head[b].b.dev == 0 then s.head[b].prev == None && s.head[b].next == None else b in cs[BucketOf(s.head[b])]
  }

  ghost predicate HashIs(s: Links, cs: seq<seq<nat>>) {
    && |s.hash| == |cs| == NR_HASH
    && forall w :: 0 <= w < NR_HASH ==> ChainIs(s, w, cs[w])
  }

  ghost predicate Represents(s: Links, r: seq<nat>, cs: seq<seq<nat>>) {
    && RingIs(s, r) && |r| == |s.head| && HashIs(s, cs)
    && forall b :: 0 <= b < |s.head| ==> Indexed(s, cs, b)
  }

  // ----- remove_from_queues

  function SetPrev(s: Links, x: nat, p: Option<nat>): Links {
    if x < |s.head| then s.(head := s.head[x := s.head[x].(prev := p)]) else s
  }

  function SetNext(s: Links, x: nat, n: Option<nat>): Links {
    if x < |s.head| then s.(head := s.head[x := s.head[x].(next := n)]) else s
  }

  function SetPrevFree(s: Links, x: nat, p: nat): Links {
    if x < |s.head| then s.(head := s.head[x := s.head[x].(prevFree := p)]) else s
  }

  function SetNextFree(s: Links, x: nat, n: nat): Links {
    if x < |s.head| then s.(head := s.head[x := s.head[x].(nextFree := n)]) else s
  }

  function UnlinkHash(s: Links, b: nat): Links
    requires b < |s.head| && |s.hash| == NR_HASH
  {
    var prev, next, w := s.head[b].prev, s.head[b].next, BucketOf(s.head[b]);
    var s1 := if next.Some? then SetPrev(s, next.value, prev) else s;
    var s2 := if prev.Some? then SetNext(s1, prev.value, next) else s1;
    if s2.hash[w] == Some(b) then s2.(hash := s2.hash[w := s2.head[b].next]) else s2
  }

  function UnlinkRing(s: Links, b: nat): Links
    requires b < |s.head|
  {
    var s1 := SetPrevFree(s, s.head[b].nextFree, s.head[b].prevFree);
    var s2 := SetNextFree(s1, s1.head[b].prevFree, s1.head[b].nextFree);
    if s2.freeList == b then s2.(freeList := s2.head[b].nextFree) else s2
  }

  /** `remove_from_queues`. */
  function Removed(s: Links, b: nat): (s': Links)
    requires b < |s.head| && |s.hash| == NR_HASH
    ensures |s'.head| == |s.head| && |s'.hash| == NR_HASH
  {
    UnlinkRing(UnlinkHash(s, b), b)
  }

  // ----- insert_into_queues

  /** `insert_into_queues`; a list head outside the headers, which C would follow anywhere, is left alone. */
  function Inserted(s: Links, b: nat): Links
    requires b < |s.head| && |s.hash| == NR_HASH
  {
    if s.freeList < |s.head| then LinkHash(LinkRing(s, b), b) else s
  }

  function LinkRing(s: Links, b: nat): Links
    requires b < |s.head| && s.freeList < |s.head|
  {
    var last := s.head[s.freeList].prevFree;
    var s1 := SetNextFree(SetPrevFree(s, b, last), b, s.freeList);
    SetPrevFree(SetNextFree(s1, last, b), s.freeList, b)
  }

  function LinkHash(s: Links, b: nat): Links
    requires b < |s.head| && |s.hash| == NR_HASH
  {
    var s1 := SetNext(SetPrev(s, b, None), b, None);
    if s.head[b].b.dev == 0 then s1 else
    var w := BucketOf(s1.head[b]);
    var first := s1.hash[w];
    var s2 := SetNext(s1.(hash := s1.hash[w := Some(b)]), b, first);
    if first.Some? then SetPrev(s2, first.value, Some(b)) else s2
  }

  function SetBuf(s: Links, b: nat, v: Buf): Links
    requires b < |s.head|
  {
    s.(head := s.head[b := s.head[b].(b := v)])
  }

  /** What `getblk` does to the victim: take it off both lists, bind it, put it back. */
  function Rebound(s: Links, b: nat, dev: nat, block: nat): Links
    requires b < |s.head| && |s.hash| == NR_HASH
  {
    var off := Removed(SetBuf(s, b, s.head[b].b.(count := 1, dirt := false, uptodate := false)), b);
    Inserted(SetBuf(off, b, off.head[b].b.(dev := dev, block := block)), b)
  }

  // ----- the ring

  /** Only ring pointers differ. */
  ghost predicate SameButRing(s: Links, s': Links) {
    && s'.hash == s.hash && |s'.head| == |s.head|
    && forall x :: 0 <= x < |s.head| ==>
         s'.head[x].b == s.head[x].b && s'.head[x].prev == s.head[x].prev && s'.head[x].next == s.head[x].next
  }

  /** Position `i` of the shortened list in the list it was cut from. */
  function Old(i: nat, k: nat): nat { if i < k then i else i + 1 }

  lemma CutFacts(r: seq<nat>, k: nat)
    requires NoRepeats(r) && k < |r|
    ensures |Cut(r, k)| == |r| - 1 && NoRepeats(Cut(r, k)) && r[k] !in Cut(r, k)
    ensures forall i :: 0 <= i < |r| - 1 ==> Cut(r, k)[i] == r[Old(i, k)]
  {
    var c := Cut(r, k);
    assert forall i :: 0 <= i < |c| ==> c[i] == r[Old(i, k)];
  }

  /** Taking a header off a ring of at least two: its neighbours are joined, the list head moves on if it was first. */
  lemma UnlinkRingStep(s: Links, r: seq<nat>, k: nat, s': Links)
    requires RingIs(s, r) && |r| >= 2 && k < |r| && r[k] < |s.head| && s' == UnlinkRing(s, r[k])
    ensures RingIs(s', Cut(r, k)) && SameButRing(s, s')
  {
    var b, n, c := r[k], |r|, Cut(r, k);
    CutFacts(r, k);
    var before := if k > 0 then k - 1 else n - 1;
    assert Linked(s, r[before], r[Succ(before, n)]) && Linked(s, b, r[Succ(k, n)]);
    forall i | 0 <= i < |c| ensures Linked(s', c[i], c[Succ(i, |c|)]) {
      var j := Old(i, k);
      assert Linked(s, r[j], r[Succ(j, n)]);
      if j != before {
        assert Succ(j, n) == Old(Succ(i, |c|), k);
        assert r[Succ(j, n)] != r[Succ(k, n)];
      }
    }
  }

  /** Putting a header at the end of the ring, just before the list head. */
  lemma LinkRingStep(s: Links, r: seq<nat>, b: nat, s': Links)
    requires RingIs(s, r) && b < |s.head| && b !in r && s.freeList < |s.head| && s' == LinkRing(s, b)
    ensures RingIs(s', r + [b]) && SameButRing(s, s')
  {
    var n, r' := |r|, r + [b];
    assert Linked(s, r[n - 1], r[Succ(n - 1, n)]);
    forall i | 0 <= i < |r'| ensures Linked(s', r'[i], r'[Succ(i, |r'|)]) {
      if i < n - 1 {
        assert Linked(s, r[i], r[Succ(i, n)]);
      }
    }
  }

  /** A ring of one header is unchanged by taking it off and putting it back. */
  lemma LonelyRing(s: Links, b: nat)
    requires RingIs(s, [b])
    ensures b < |s.head| && s.freeList < |s.head| && UnlinkRing(s, b) == s && LinkRing(s, b) == s
  {
    assert Linked(s, [b][0], [b][Succ(0, 1)]);
  }

  // ----- the hash chains

  lemma HashKept(s: Links, s': Links, cs: seq<seq<nat>>)
    requires HashIs(s, cs) && SameButRing(s, s')
    ensures HashIs(s', cs)
  {
    forall w | 0 <= w < NR_HASH ensures ChainIs(s', w, cs[w]) {
      assert ChainIs(s, w, cs[w]);
      forall i | 0 <= i < |cs[w]| ensures LinkOk(s', w, cs[w], i) {
        InChain(s, w, cs[w], i);
      }
    }
  }

  ghost predicate OnNoChain(cs: seq<seq<nat>>, b: nat) { forall w :: 0 <= w < |cs| ==> b !in cs[w] }

  /** Only hash pointers differ. */
  ghost predicate SameButHash(s: Links, s': Links) {
    && s'.freeList == s.freeList && |s'.head| == |s.head|
    && forall x :: 0 <= x < |s.head| ==>
    && s'.head[x].b == s.head[x].b && s'.head[x].prevFree == s.head[x].prevFree
    && s'.head[x].nextFree == s.head[x].nextFree
  }

  lemma OwnChainOnly(s: Links, cs: seq<seq<nat>>, b: nat, w: nat)
    requires HashIs(s, cs) && w < NR_HASH && b in cs[w]
    ensures b < |s.head| && s.head[b].b.dev != 0 && BucketOf(s.head[b]) == w
  {
    assert ChainIs(s, w, cs[w]);
    var i :| 0 <= i < |cs[w]| && cs[w][i] == b;
    InChain(s, w, cs[w], i);
  }

  /** What unlinking does, field by field. */
  ghost predicate Unlinked(s: Links, s': Links, b: nat)
    requires b < |s.head|
  {
    var prev, next, w := s.head[b].prev, s.head[b].next, BucketOf(s.head[b]);
    && SameButHash(s, s') && |s.hash| == |s'.hash| == NR_HASH
    && s'.hash == (if s.hash[w] == Some(b) then s.hash[w := next] else s.hash)
    && (forall x :: 0 <= x < |s.head| ==> s'.head[x].next == if prev == Some(x) then next else s.head[x].next)
    && (forall x :: 0 <= x < |s.head| ==> s'.head[x].prev == if next == Some(x) then prev else s.head[x].prev)
  }

  lemma UnlinkFields(s: Links, b: nat)
    requires b < |s.head| && |s.hash| == NR_HASH && s.head[b].prev != Some(b) && s.head[b].next != Some(b)
    ensures Unlinked(s, UnlinkHash(s, b), b)
  {
  }

  lemma InChain(s: Links, w: nat, c: seq<nat>, i: nat)
    requires w < |s.hash| && ChainIs(s, w, c) && i < |c|
    ensures LinkOk(s, w, c, i)
  {
  }

  /** Taking a bound header off its chain. */
  lemma UnlinkHashStep(s: Links, cs: seq<seq<nat>>, w: nat, k: nat, s': Links)
    requires HashIs(s, cs) && w < NR_HASH && k < |cs[w]| && cs[w][k] < |s.head| && s' == UnlinkHash(s, cs[w][k])
    ensures HashIs(s', cs[w := Cut(cs[w], k)]) && SameButHash(s, s')
  {
    assert ChainIs(s, w, cs[w]);
    InChain(s, w, cs[w], k);
    UnlinkFields(s, cs[w][k]);
    UnlinkedChains(s, cs, w, k, s');
  }

  lemma UnlinkedChains(s: Links, cs: seq<seq<nat>>, w: nat, k: nat, s': Links)
    requires HashIs(s, cs) && w < NR_HASH && k < |cs[w]| && cs[w][k] < |s.head| && Unlinked(s, s', cs[w][k])
    ensures HashIs(s', cs[w := Cut(cs[w], k)])
  {
    assert ChainIs(s, w, cs[w]);
    CutChain(s, w, cs[w], k, s');
    forall v | 0 <= v < NR_HASH && v != w ensures ChainIs(s', v, cs[v]) {
      assert ChainIs(s, v, cs[v]);
      OtherChain(s, w, v, cs[w], cs[v], k, s');
    }
  }

  lemma CutChain(s: Links, w: nat, c: seq<nat>, k: nat, s': Links)
    requires w < |s.hash| == NR_HASH && ChainIs(s, w, c) && k < |c| && c[k] < |s.head| && Unlinked(s, s', c[k])
    ensures w < |s'.hash| && ChainIs(s', w, Cut(c, k))
  {
    var c' := Cut(c, k);
    CutFacts(c, k);
    InChain(s, w, c, k);
    InChain(s, w, c, 0);
    assert c' != [] ==> c'[0] == if k == 0 then c[1] else c[0];
    forall i | 0 <= i < |c'| ensures LinkOk(s', w, c', i) {
      CutLink(s, w, c, k, s', i);
    }
  }

  lemma CutLink(s: Links, w: nat, c: seq<nat>, k: nat, s': Links, i: nat)
    requires w < |s.hash| == NR_HASH && ChainIs(s, w, c) && k < |c| && c[k] < |s.head| && Unlinked(s, s', c[k])
    requires |Cut(c, k)| == |c| - 1 && i < |Cut(c, k)|
    ensures LinkOk(s', w, Cut(c, k), i)
  {
    var c', j := Cut(c, k), Old(i, k);
    InChain(s, w, c, k);
    InChain(s, w, c, j);
    assert c'[i] == c[j] && j != k;
    assert i + 1 < |c'| ==> c'[i + 1] == c[Old(i + 1, k)];
    assert i > 0 ==> c'[i - 1] == c[Old(i - 1, k)];
  }

  lemma OtherChain(s: Links, w: nat, v: nat, c: seq<nat>, d: seq<nat>, k: nat, s': Links)
    requires w < |s.hash| == NR_HASH && v < NR_HASH && v != w && ChainIs(s, w, c) && ChainIs(s, v, d)
    requires k < |c| && c[k] < |s.head| && Unlinked(s, s', c[k])
    ensures v < |s'.hash| && ChainIs(s', v, d)
  {
    InChain(s, w, c, k);
    if k + 1 < |c| {
      InChain(s, w, c, k + 1);
    }
    if k > 0 {
      InChain(s, w, c, k - 1);
    }
    forall i | 0 <= i < |d| ensures LinkOk(s', v, d, i) {
      InChain(s, v, d, i);
    }
  }

  /** An unbound header is on no chain, so there is nothing to unlink. */
  lemma UnlinkUnbound(s: Links, cs: seq<seq<nat>>, b: nat)
    requires HashIs(s, cs) && b < |s.head| && s.head[b].b.dev == 0 && Indexed(s, cs, b)
    ensures UnlinkHash(s, b) == s && OnNoChain(cs, b)
  {
    forall w | 0 <= w < |cs| ensures b !in cs[w] && s.hash[w] != Some(b) {
      assert ChainIs(s, w, cs[w]);
      forall i | 0 <= i < |cs[w]| ensures cs[w][i] != b {
        InChain(s, w, cs[w], i);
      }
    }
  }

  /** Putting a header that is on no chain at the front of its bucket. */
  lemma LinkHashStep(s: Links, cs: seq<seq<nat>>, b: nat, s': Links)
    requires HashIs(s, cs) && b < |s.head| && s.head[b].b.dev != 0 && OnNoChain(cs, b) && s' == LinkHash(s, b)
    ensures var w := BucketOf(s.head[b]); HashIs(s', cs[w := [b] + cs[w]]) && SameButHash(s, s')
  {
    var w := BucketOf(s.head[b]);
    assert ChainIs(s, w, cs[w]) && b !in cs[w];
    PushChain(s, w, cs[w], b, s');
    forall v | 0 <= v < NR_HASH && v != w ensures ChainIs(s', v, cs[v]) {
      assert ChainIs(s, v, cs[v]) && b !in cs[v];
      assert cs[w] != [] ==> LinkOk(s, w, cs[w], 0);
      forall i | 0 <= i < |cs[v]| ensures LinkOk(s', v, cs[v], i) {
        InChain(s, v, cs[v], i);
      }
    }
  }

  lemma PushChain(s: Links, w: nat, c: seq<nat>, b: nat, s': Links)
    requires w < |s.hash| == NR_HASH && ChainIs(s, w, c) && b < |s.head| && b !in c
    requires s.head[b].b.dev != 0 && BucketOf(s.head[b]) == w && s' == LinkHash(s, b)
    ensures w < |s'.hash| && ChainIs(s', w, [b] + c)
  {
    var c' := [b] + c;
    forall i | 0 <= i < |c'| ensures LinkOk(s', w, c', i) {
      if i > 0 {
        InChain(s, w, c, i - 1);
        assert c'[i] == c[i - 1];
      }
      if c != [] {
        InChain(s, w, c, 0);
      }
    }
  }

  // ----- removing and inserting a header

  /** Header `b` is off both lists; the others are in place.  Alone, it stays linked to itself. */
  ghost predicate Detached(s: Links, r: seq<nat>, cs: seq<seq<nat>>, b: nat) {
    && b < |s.head| && |r| + 1 == |s.head| && b !in r
    && (if r == [] then RingIs(s, [b]) else RingIs(s, r))
    && HashIs(s, cs) && OnNoChain(cs, b)
    && forall x :: 0 <= x < |s.head| && x != b ==> Indexed(s, cs, x)
  }

  ghost function ChainsWithout(s: Links, cs: seq<seq<nat>>, b: nat): seq<seq<nat>>
    requires b < |s.head| && |cs| == NR_HASH
  {
    if s.head[b].b.dev == 0 then cs else cs[BucketOf(s.head[b]) := Without(cs[BucketOf(s.head[b])], b)]
  }

  ghost function ChainsWith(s: Links, cs: seq<seq<nat>>, b: nat): seq<seq<nat>>
    requires b < |s.head| && |cs| == NR_HASH
  {
    if s.head[b].b.dev == 0 then cs else cs[BucketOf(s.head[b]) := [b] + cs[BucketOf(s.head[b])]]
  }

  /** The hash half of `remove_from_queues`. */
  lemma HashRemoved(s: Links, cs: seq<seq<nat>>, b: nat, s': Links)
    requires HashIs(s, cs) && b < |s.head| && (forall x :: 0 <= x < |s.head| ==> Indexed(s, cs, x))
    requires s' == UnlinkHash(s, b)
    ensures var cs' := ChainsWithout(s, cs, b);
            && HashIs(s', cs') && OnNoChain(cs', b) && SameButHash(s, s')
            && forall x :: 0 <= x < |s.head| && x != b ==> Indexed(s', cs', x)
  {
    var cs' := ChainsWithout(s, cs, b);
    assert Indexed(s, cs, b);
    if s.head[b].b.dev == 0 {
      UnlinkUnbound(s, cs, b);
      assert forall x :: 0 <= x < |s.head| ==> Indexed(s, cs, x);
    } else {
      var w := BucketOf(s.head[b]);
      var k :| 0 <= k < |cs[w]| && cs[w][k] == b;
      assert ChainIs(s, w, cs[w]);
      CutIsWithout(cs[w], k);
      CutFacts(cs[w], k);
      UnlinkHashStep(s, cs, w, k, s');
      forall v | 0 <= v < |cs'| ensures b !in cs'[v] {
        if v != w && b in cs[v] {
          OwnChainOnly(s, cs, b, v);
        }
      }
      forall x | 0 <= x < |s.head| && x != b ensures Indexed(s', cs', x) {
        StillIndexed(s, cs, w, k, s', x);
      }
    }
  }

  lemma UnboundKept(s: Links, w: nat, c: seq<nat>, k: nat, s': Links, x: nat)
    requires w < |s.hash| == NR_HASH && ChainIs(s, w, c) && k < |c| && c[k] < |s.head| && Unlinked(s, s', c[k])
    requires x < |s.head| && x != c[k] && s.head[x].b.dev == 0
    ensures x < |s'.head| && s'.head[x] == s.head[x]
  {
    assert LinkOk(s, w, c, k);
    assert k + 1 < |c| ==> LinkOk(s, w, c, k + 1);
    assert k > 0 ==> LinkOk(s, w, c, k - 1);
  }

  lemma StillIndexed(s: Links, cs: seq<seq<nat>>, w: nat, k: nat, s': Links, x: nat)
    requires HashIs(s, cs) && w < NR_HASH && k < |cs[w]| && cs[w][k] < |s.head| && s' == UnlinkHash(s, cs[w][k])
    requires x < |s.head| && x != cs[w][k] && Indexed(s, cs, x)
    ensures x < |s'.head| && Indexed(s', cs[w := Cut(cs[w], k)], x)
  {
    var c := cs[w];
    assert ChainIs(s, w, c);
    InChain(s, w, c, k);
    UnlinkFields(s, c[k]);
    CutFacts(c, k);
    if s.head[x].b.dev == 0 {
      UnboundKept(s, w, c, k, s', x);
    } else if BucketOf(s.head[x]) == w {
      var j :| 0 <= j < |c| && c[j] == x;
      assert Cut(c, k)[if j < k then j else j - 1] == x;
    }
  }

  /** `remove_from_queues`. */
  lemma RemoveStep(s: Links, r: seq<nat>, cs: seq<seq<nat>>, b: nat, s': Links)
    requires Represents(s, r, cs) && b < |s.head| && b in r && s' == Removed(s, b)
    ensures Detached(s', Without(r, b), ChainsWithout(s, cs, b), b)
    ensures forall x :: 0 <= x < |s.head| ==> s'.head[x].b == s.head[x].b
  {
    var s1, cs' := UnlinkHash(s, b), ChainsWithout(s, cs, b);
    HashRemoved(s, cs, b, s1);
    var k :| 0 <= k < |r| && r[k] == b;
    CutIsWithout(r, k);
    CutFacts(r, k);
    if |r| == 1 {
      assert r == [b];
      LonelyRing(s1, b);
    } else {
      UnlinkRingStep(s1, r, k, s');
      HashKept(s1, s', cs');
      IndexKept(s1, s', cs', b);
    }
  }

  lemma IndexKept(s: Links, s': Links, cs: seq<seq<nat>>, b: nat)
    requires |cs| == NR_HASH && SameButRing(s, s') && forall x :: 0 <= x < |s.head| && x != b ==> Indexed(s, cs, x)
    ensures forall x :: 0 <= x < |s'.head| && x != b ==> Indexed(s', cs, x)
  {
    forall x | 0 <= x < |s'.head| && x != b ensures Indexed(s', cs, x) {
      assert Indexed(s, cs, x);
    }
  }

  /** The hash half of `insert_into_queues`. */
  lemma HashInserted(s: Links, cs: seq<seq<nat>>, b: nat, s': Links)
    requires HashIs(s, cs) && b < |s.head| && OnNoChain(cs, b) && s' == LinkHash(s, b)
    requires forall x :: 0 <= x < |s.head| && x != b ==> Indexed(s, cs, x)
    ensures var cs' := ChainsWith(s, cs, b);
            HashIs(s', cs') && SameButHash(s, s') && forall x :: 0 <= x < |s'.head| ==> Indexed(s', cs', x)
  {
    var cs', w := ChainsWith(s, cs, b), BucketOf(s.head[b]);
    assert ChainIs(s, w, cs[w]);
    if s.head[b].b.dev == 0 {
      forall v | 0 <= v < NR_HASH ensures ChainIs(s', v, cs[v]) {
        assert ChainIs(s, v, cs[v]) && b !in cs[v];
        forall i | 0 <= i < |cs[v]| ensures LinkOk(s', v, cs[v], i) {
          InChain(s, v, cs[v], i);
        }
      }
    } else {
      LinkHashStep(s, cs, b, s');
    }
    forall x | 0 <= x < |s'.head| ensures Indexed(s', cs', x) {
      if x != b {
        assert Indexed(s, cs, x);
        assert cs[w] != [] ==> LinkOk(s, w, cs[w], 0);
      }
    }
  }

  /** `insert_into_queues`. */
  lemma InsertStep(s: Links, r: seq<nat>, cs: seq<seq<nat>>, b: nat, s': Links)
    requires Detached(s, r, cs, b) && s' == Inserted(s, b)
    ensures Represents(s', r + [b], ChainsWith(s, cs, b))
    ensures |s'.head| == |s.head| && forall x :: 0 <= x < |s.head| ==> s'.head[x].b == s.head[x].b
  {
    assert Linked(s, s.freeList, if |r| > 1 then r[1] else s.freeList) by {
      if r != [] {
        assert Linked(s, r[0], r[Succ(0, |r|)]);
      } else {
        assert Linked(s, [b][0], [b][Succ(0, 1)]);
      }
    }
    var s1 := LinkRing(s, b);
    if r == [] {
      LonelyRing(s, b);
      assert r + [b] == [b];
    } else {
      LinkRingStep(s, r, b, s1);
      HashKept(s, s1, cs);
      IndexKept(s, s1, cs, b);
    }
    HashInserted(s1, cs, b, s');
  }

  // ----- rebinding

  /** Changing a header that is on no chain, or changing neither device nor block, disturbs neither list. */
  lemma SetBufDetached(s: Links, r: seq<nat>, cs: seq<seq<nat>>, b: nat, v: Buf)
    requires Detached(s, r, cs, b)
    ensures Detached(SetBuf(s, b, v), r, cs, b)
  {
    var s' := SetBuf(s, b, v);
    forall w | 0 <= w < NR_HASH ensures ChainIs(s', w, cs[w]) {
      assert ChainIs(s, w, cs[w]) && b !in cs[w];
      forall i | 0 <= i < |cs[w]| ensures LinkOk(s', w, cs[w], i) {
        InChain(s, w, cs[w], i);
      }
    }
    forall x | 0 <= x < |s'.head| && x != b ensures Indexed(s', cs, x) {
      assert Indexed(s, cs, x);
    }
  }

  lemma KeepBinding(s: Links, r: seq<nat>, cs: seq<seq<nat>>, b: nat, v: Buf)
    requires Represents(s, r, cs) && b < |s.head| && v.dev == s.head[b].b.dev && v.block == s.head[b].b.block
    ensures Represents(SetBuf(s, b, v), r, cs)
  {
    var s' := SetBuf(s, b, v);
    forall w | 0 <= w < NR_HASH ensures ChainIs(s', w, cs[w]) {
      assert ChainIs(s, w, cs[w]);
      forall i | 0 <= i < |cs[w]| ensures LinkOk(s', w, cs[w], i) {
        InChain(s, w, cs[w], i);
      }
    }
    forall x | 0 <= x < |s'.head| ensures Indexed(s', cs, x) {
      assert Indexed(s, cs, x);
    }
  }

  /** The abstract cache a representation stands for. */
  function Abstract(s: Links, r: seq<nat>): Cache {
    Cache(r, seq(|s.head|, i requires 0 <= i < |s.head| => s.head[i].b))
  }

  /** Taking the victim off both lists, binding it and putting it back turns ring r into (r without it) + [it], keeps
      the index exact, and is the abstract rebinding. */
  lemma ReboundStep(s: Links, r: seq<nat>, cs: seq<seq<nat>>, b: nat, dev: nat, block: nat, s': Links)
      returns (cs': seq<seq<nat>>)
    requires Represents(s, r, cs) && b < |s.head| && s' == Rebound(s, b, dev, block)
    ensures Represents(s', Without(r, b) + [b], cs')
    ensures Abstract(s', Without(r, b) + [b]) == Rebind(Abstract(s, r), b, dev, block)
  {
    var c := Abstract(s, r);
    RingIsPermutation(s, r, cs);
    FullRing(c, b);
    var marked := SetBuf(s, b, s.head[b].b.(count := 1, dirt := false, uptodate := false));
    KeepBinding(s, r, cs, b, marked.head[b].b);
    var off := Removed(marked, b);
    RemoveStep(marked, r, cs, b, off);
    var cs1 := ChainsWithout(marked, cs, b);
    var named := SetBuf(off, b, off.head[b].b.(dev := dev, block := block));
    SetBufDetached(off, Without(r, b), cs1, b, named.head[b].b);
    InsertStep(named, Without(r, b), cs1, b, s');
    cs' := ChainsWith(named, cs1, b);
    SameContents(s', Without(r, b) + [b], Rebind(c, b, dev, block));
  }

  lemma SameContents(s: Links, r: seq<nat>, c: Cache)
    requires c.ring == r && |c.buf| == |s.head| && forall x :: 0 <= x < |s.head| ==> s.head[x].b == c.buf[x]
    ensures Abstract(s, r) == c
  {
  }

  lemma RingIsPermutation(s: Links, r: seq<nat>, cs: seq<seq<nat>>)
    requires Represents(s, r, cs)
    ensures Permutation(Abstract(s, r)) && s.freeList < |s.head|
  {
    forall k | 0 <= k < |r| ensures r[k] < |s.head| {
      assert Linked(s, r[k], r[Succ(k, |r|)]);
    }
    assert Linked(s, r[0], r[Succ(0, |r|)]);
  }

  // ----- the index agrees with linear search

  lemma {:induction false} FindIsThe(buf: seq<Buf>, dev: nat, block: nat, i: nat, b: nat)
    requires Unique(buf) && dev != 0 && i <= b < |buf| && Bound(buf[b], dev, block)
    ensures FindFrom(buf, dev, block, i) == Some(b)
    decreases |buf| - i
  {
    if !Bound(buf[i], dev, block) {
      FindIsThe(buf, dev, block, i + 1, b);
    }
  }

  /** A header is bound to the block exactly when it is met on the block's chain. */
  lemma BoundIsOnChain(s: Links, r: seq<nat>, cs: seq<seq<nat>>, dev: nat, block: nat, b: nat)
    requires Represents(s, r, cs) && dev != 0 && b < |s.head| && Bound(s.head[b].b, dev, block)
    ensures b in cs[HashFn(dev, block)]
  {
    assert Indexed(s, cs, b);
  }
}
