/**
 The buffer cache as `getblk` uses it, without its linked representation: the order of the free ring and what each
 buffer holds.  Tasks interleave at every sleep and at every `goto repeat`; lock, dirty and update flags change freely.
 */
module BufferProtocol {
  import opened Common

  /** `dev` 0 means that the buffer is bound to no block. */
  datatype Buf = Buf(dev: nat, block: nat, count: Byte, dirt: bool, lock: bool, uptodate: bool)

  function WithFlags(b: Buf, lock: bool, dirt: bool, uptodate: bool): Buf {
    b.(lock := lock, dirt := dirt, uptodate := uptodate)
  }

  datatype Cache = Cache(ring: seq<nat>, buf: seq<Buf>)

  predicate Bound(b: Buf, dev: nat, block: nat) { b.dev == dev && b.block == block }

  // ----- lookup: linear search, which the hash table must agree with

  function FindFrom(buf: seq<Buf>, dev: nat, block: nat, i: nat): (r: Option<nat>)
    requires i <= |buf|
    ensures r.Some? ==> i <= r.value < |buf| && Bound(buf[r.value], dev, block)
    ensures r.None? ==> forall j :: i <= j < |buf| ==> !Bound(buf[j], dev, block)
    decreases |buf| - i
  {
    if i == |buf| then None
    else if Bound(buf[i], dev, block) then Some(i)
    else FindFrom(buf, dev, block, i + 1)
  }

  function Find(buf: seq<Buf>, dev: nat, block: nat): Option<nat> { FindFrom(buf, dev, block, 0) }

  /** No two buffers are bound to one block. */
  ghost predicate Unique(buf: seq<Buf>) {
    forall i, j ::
      0 <= i < |buf| && 0 <= j < |buf| && buf[i].dev != 0 && buf[i].dev == buf[j].dev && buf[i].block == buf[j].block
      ==> i == j
  }

  // ----- victim choice

  function Badness(b: Buf): nat { (if b.dirt then 2 else 0) + if b.lock then 1 else 0 }

  /** The scan of the ring from position `i` on, with the best candidate so far. */
  function ScanFrom(c: Cache, i: nat, best: Option<nat>): (r: Option<nat>)
    requires i <= |c.ring| && (forall k :: 0 <= k < |c.ring| ==> c.ring[k] < |c.buf|)
    requires best.Some? ==> best.value < |c.buf|
    ensures r.Some? ==> r.value < |c.buf|
    decreases |c.ring| - i
  {
    if i == |c.ring| then best else
    var b := c.ring[i];
    if c.buf[b].count > 0 then ScanFrom(c, i + 1, best)
    else if best.None? || Badness(c.buf[b]) < Badness(c.buf[best.value]) then
      if Badness(c.buf[b]) == 0 then Some(b) else ScanFrom(c, i + 1, Some(b))
    else ScanFrom(c, i + 1, best)
  }

  function Victim(c: Cache): Option<nat>
    requires forall k :: 0 <= k < |c.ring| ==> c.ring[k] < |c.buf|
  {
    ScanFrom(c, 0, None)
  }

  ghost predicate InRange(c: Cache) { forall k :: 0 <= k < |c.ring| ==> c.ring[k] < |c.buf| }

  /** Position `p` holds an unused buffer, the earliest of least badness among the unused ones before `end`. */
  ghost predicate BestBefore(c: Cache, p: nat, end: nat)
    requires InRange(c) && end <= |c.ring|
  {
    && p < end && c.buf[c.ring[p]].count == 0
    && forall k :: 0 <= k < end && c.buf[c.ring[k]].count == 0 ==>
         if k < p then Badness(c.buf[c.ring[p]]) < Badness(c.buf[c.ring[k]])
         else Badness(c.buf[c.ring[p]]) <= Badness(c.buf[c.ring[k]])
  }

  ghost predicate AllUsed(c: Cache, end: nat)
    requires InRange(c) && end <= |c.ring|
  {
    forall k :: 0 <= k < end ==> c.buf[c.ring[k]].count > 0
  }

  lemma BetterFound(c: Cache, i: nat, p: nat)
    requires InRange(c) && i < |c.ring| && c.buf[c.ring[i]].count == 0
    requires AllUsed(c, i) || (BestBefore(c, p, i) && Badness(c.buf[c.ring[i]]) < Badness(c.buf[c.ring[p]]))
    ensures BestBefore(c, i, i + 1)
    ensures Badness(c.buf[c.ring[i]]) == 0 ==> BestBefore(c, i, |c.ring|)
  {
  }

  lemma StillBest(c: Cache, i: nat, p: nat)
    requires InRange(c) && i < |c.ring| && BestBefore(c, p, i)
    requires c.buf[c.ring[i]].count > 0 || Badness(c.buf[c.ring[i]]) >= Badness(c.buf[c.ring[p]])
    ensures BestBefore(c, p, i + 1)
  {
  }

  lemma {:induction false} ScanIsBest(c: Cache, i: nat, best: Option<nat>, p: nat)
    requires InRange(c) && i <= |c.ring| && (best.Some? ==> best.value < |c.buf|)
    requires if best.None? then AllUsed(c, i) else p < i && c.ring[p] == best.value && BestBefore(c, p, i)
    ensures var r := ScanFrom(c, i, best);
            if r.None? then AllUsed(c, |c.ring|)
            else exists q :: 0 <= q < |c.ring| && c.ring[q] == r.value && BestBefore(c, q, |c.ring|)
    decreases |c.ring| - i
  {
    if i < |c.ring| {
      var b := c.ring[i];
      if c.buf[b].count == 0 && (best.None? || Badness(c.buf[b]) < Badness(c.buf[best.value])) {
        BetterFound(c, i, p);
        if Badness(c.buf[b]) > 0 {
          ScanIsBest(c, i + 1, Some(b), i);
        }
      } else {
        if best.Some? {
          StillBest(c, i, p);
        }
        ScanIsBest(c, i + 1, best, p);
      }
    } else if best.Some? {
      assert BestBefore(c, p, |c.ring|);
    }
  }

  /** Victim choice: none exactly when every buffer is in use, else the earliest unused buffer of least badness. */
  lemma VictimIsBest(c: Cache)
    requires InRange(c)
    ensures Victim(c).None? <==> AllUsed(c, |c.ring|)
    ensures Victim(c).Some? ==>
            exists q :: 0 <= q < |c.ring| && c.ring[q] == Victim(c).value && BestBefore(c, q, |c.ring|)
  {
    ScanIsBest(c, 0, None, 0);
  }

  // ----- rebinding

  function Without(r: seq<nat>, b: nat): seq<nat> {
    if r == [] then [] else if r[0] == b then r[1..] else [r[0]] + Without(r[1..], b)
  }

  /** Bind the victim to the block, in use once, at the end of the ring. */
  function Rebind(c: Cache, b: nat, dev: nat, block: nat): Cache
    requires b < |c.buf|
  {
    Cache(Without(c.ring, b) + [b], c.buf[b := Buf(dev, block, 1, false, c.buf[b].lock, false)])
  }

  function AddCount(c: Cache, b: nat, k: int): Cache
    requires b < |c.buf|
  {
    c.(buf := c.buf[b := c.buf[b].(count := AddByte(c.buf[b].count, k))])
  }

  function SetFlags(c: Cache, b: nat, lock: bool, dirt: bool, uptodate: bool): Cache
    requires b < |c.buf|
  {
    c.(buf := c.buf[b := WithFlags(c.buf[b], lock, dirt, uptodate)])
  }

  // ----- getblk between sleeps

  /** Where a task is in `getblk`: nowhere, at `repeat`, asleep on a found buffer, asleep for any buffer, asleep on a
      victim, or returned with buffer `b`. */
  datatype Pc =
    | Idle
    | Repeat(dev: nat, block: nat)
    | OnHit(dev: nat, block: nat, b: nat)
    | OnAny(dev: nat, block: nat)
    | OnVictim(dev: nat, block: nat, b: nat)
    | Got(dev: nat, block: nat, b: nat)

  datatype Outcome = Outcome(c: Cache, pc: Pc)

  /** After `wait_on_buffer(bh)` on a victim. */
  function TakeVictim(c: Cache, dev: nat, block: nat, b: nat): Outcome
    requires b < |c.buf|
  {
    if c.buf[b].lock then Outcome(c, OnVictim(dev, block, b))
    else if c.buf[b].count > 0 || c.buf[b].dirt || Find(c.buf, dev, block).Some? then Outcome(c, Repeat(dev, block))
    else Outcome(Rebind(c, b, dev, block), Got(dev, block, b))
  }

  /** After `wait_on_buffer(bh)` on a found buffer, with the recheck of `get_hash_table`. */
  function TakeHit(c: Cache, dev: nat, block: nat, b: nat): Outcome
    requires b < |c.buf|
  {
    if c.buf[b].lock then Outcome(c, OnHit(dev, block, b))
    else if Bound(c.buf[b], dev, block) then Outcome(c, Got(dev, block, b))
    else Outcome(AddCount(c, b, -1), Repeat(dev, block))
  }

  /** From `repeat` to the next sleep, `repeat` or return. */
  function Attempt(c: Cache, dev: nat, block: nat): Outcome
    requires forall k :: 0 <= k < |c.ring| ==> c.ring[k] < |c.buf|
  {
    var hit := Find(c.buf, dev, block);
    if hit.Some? then TakeHit(AddCount(c, hit.value, 1), dev, block, hit.value) else
    var v := Victim(c);
    if v.None? then Outcome(c, OnAny(dev, block)) else TakeVictim(c, dev, block, v.value)
  }

  // ----- the system

  /** `grants` lists the returned buffers; nothing in the kernel ever releases one. */
  datatype System = System(c: Cache, pc: seq<Pc>, grants: seq<Pc>)

  datatype Event =
    | Begin(t: nat, dev: nat, block: nat)
    | Run(t: nat)
    | Flags(b: nat, lock: bool, dirt: bool, uptodate: bool)

  const MAX_DEV: nat := 0xffff

  /** Places refer to buffers; `Inv` implies it. */
  ghost predicate Wellformed(s: System) {
    && InRange(s.c)
    && (forall t :: 0 <= t < |s.pc| ==> (s.pc[t].OnHit? || s.pc[t].OnVictim? ==> s.pc[t].b < |s.c.buf|))
  }

  /** A request names a real device, and a task runs when it is inside `getblk`. */
  ghost predicate Enabled(s: System, e: Event) {
    match e
    case Begin(t, dev, _) => t < |s.pc| && (s.pc[t].Idle? || s.pc[t].Got?) && 0 < dev <= MAX_DEV
    case Run(t) => t < |s.pc| && !s.pc[t].Idle? && !s.pc[t].Got?
    case Flags(b, _, _, _) => b < |s.c.buf|
  }

  ghost function Turn(c: Cache, pc: Pc): Outcome
    requires InRange(c) && !pc.Idle? && !pc.Got? && (pc.OnHit? || pc.OnVictim? ==> pc.b < |c.buf|)
  {
    match pc
    case Repeat(dev, block) => Attempt(c, dev, block)
    case OnHit(dev, block, b) => TakeHit(c, dev, block, b)
    case OnAny(dev, block) => Outcome(c, Repeat(dev, block))
    case OnVictim(dev, block, b) => TakeVictim(c, dev, block, b)
  }

  ghost function Step(s: System, e: Event): System
    requires Wellformed(s) && Enabled(s, e)
  {
    match e
    case Begin(t, dev, block) => s.(pc := s.pc[t := Repeat(dev, block)])
    case Run(t) =>
      var o := Turn(s.c, s.pc[t]);
      System(o.c, s.pc[t := o.pc], if o.pc.Got? then s.grants + [o.pc] else s.grants)
    case Flags(b, lock, dirt, uptodate) => s.(c := SetFlags(s.c, b, lock, dirt, uptodate))
  }

  // ----- the invariant

  /** How many of these requests keep buffer `b` pinned. */
  ghost function Pins(ps: seq<Pc>, b: nat): nat {
    if ps == [] then 0 else (if Pinning(ps[0]) && ps[0].b == b then 1 else 0) + Pins(ps[1..], b)
  }

  /** A found buffer being waited for. */
  ghost predicate Pinning(p: Pc) { p.OnHit? }

  ghost function GrantsOf(gs: seq<Pc>, b: nat): nat {
    if gs == [] then 0 else (if gs[0].Got? && gs[0].b == b then 1 else 0) + GrantsOf(gs[1..], b)
  }

  ghost predicate Permutation(c: Cache) {
    && InRange(c) && |c.ring| == |c.buf|
    && forall i, j :: 0 <= i < j < |c.ring| ==> c.ring[i] != c.ring[j]
  }

  ghost predicate Serves(c: Cache, p: Pc)
    requires p.OnHit? || p.Got?
  {
    p.b < |c.buf| && 0 < p.dev && Bound(c.buf[p.b], p.dev, p.block)
  }

  /** How many requests use buffer `b`: wait for it, or were given it. */
  ghost function Users(s: System, b: nat): nat { Pins(s.pc, b) + GrantsOf(s.grants, b) }

  /** The ring holds every buffer, bindings are unique, and the byte `b_count` is the number of users modulo 256. */
  ghost predicate Inv(s: System) {
    && Permutation(s.c) && Unique(s.c.buf)
    && (forall b :: 0 <= b < |s.c.buf| ==> s.c.buf[b].count == Users(s, b) % 256)
    && (forall t :: 0 <= t < |s.pc| ==> PlaceOk(s, s.pc[t]))
    && (forall g :: 0 <= g < |s.grants| ==> s.grants[g].Got? && s.grants[g].b < |s.c.buf|)
  }

  ghost predicate PlaceOk(s: System, p: Pc) {
    (p.Idle? || 0 < p.dev) && (p.OnHit? || p.OnVictim? ==> p.b < |s.c.buf|)
  }

  /** Every buffer that is waited for or was given is bound to the block it was wanted for. */
  ghost predicate Served(s: System) {
    && (forall t :: 0 <= t < |s.pc| && s.pc[t].OnHit? ==> Serves(s.c, s.pc[t]))
    && (forall g :: 0 <= g < |s.grants| && s.grants[g].Got? ==> Serves(s.c, s.grants[g]))
  }

  ghost predicate FewUsers(s: System) { forall b :: 0 <= b < |s.c.buf| ==> Users(s, b) < 256 }

  lemma {:induction false} PinsUpdate(ps: seq<Pc>, t: nat, p: Pc, b: nat)
    requires t < |ps|
    ensures Pins(ps[t := p], b) + (if Pinning(ps[t]) && ps[t].b == b then 1 else 0)
         == Pins(ps, b) + (if Pinning(p) && p.b == b then 1 else 0)
  {
    var ps' := ps[t := p];
    if t == 0 {
      assert ps'[1..] == ps[1..];
    } else {
      PinsUpdate(ps[1..], t - 1, p, b);
      assert ps'[1..] == ps[1..][t - 1 := p];
    }
  }

  lemma {:induction false} GrantsAppend(gs: seq<Pc>, p: Pc, b: nat)
    ensures GrantsOf(gs + [p], b) == GrantsOf(gs, b) + (if p.Got? && p.b == b then 1 else 0)
  {
    if gs == [] {
      assert gs + [p] == [p];
    } else {
      GrantsAppend(gs[1..], p, b);
      assert (gs + [p])[1..] == gs[1..] + [p];
    }
  }

  lemma {:induction false} PinnedHasCount(ps: seq<Pc>, t: nat)
    requires t < |ps| && Pinning(ps[t])
    ensures Pins(ps, ps[t].b) > 0
  {
    if t > 0 {
      PinnedHasCount(ps[1..], t - 1);
    }
  }

  lemma {:induction false} GrantHasCount(gs: seq<Pc>, g: nat)
    requires g < |gs| && gs[g].Got?
    ensures GrantsOf(gs, gs[g].b) > 0
  {
    if g > 0 {
      GrantHasCount(gs[1..], g - 1);
    }
  }

  lemma InvIsWellformed(s: System)
    requires Inv(s)
    ensures Wellformed(s)
  {
    forall t | 0 <= t < |s.pc| && (s.pc[t].OnHit? || s.pc[t].OnVictim?) ensures s.pc[t].b < |s.c.buf| {
      assert PlaceOk(s, s.pc[t]);
    }
  }

  // ----- every step keeps it

  lemma {:induction false} WithoutFacts(r: seq<nat>, b: nat)
    requires NoRepeats(r)
    ensures NoRepeats(Without(r, b)) && b !in Without(r, b)
    ensures forall x :: x in Without(r, b) ==> x in r
    ensures |Without(r, b)| == if b in r then |r| - 1 else |r|
  {
    if r != [] {
      assert NoRepeats(r[1..]);
      assert forall x :: x in r <==> x == r[0] || x in r[1..];
      WithoutFacts(r[1..], b);
      if r[0] != b {
        assert r[0] !in r[1..];
      }
    }
  }

  lemma FullRing(c: Cache, b: nat)
    requires Permutation(c) && b < |c.buf|
    ensures b in c.ring
  {
    if b !in c.ring {
      Pigeonhole(c.ring + [b], |c.buf|);
    }
  }

  lemma RebindKeepsShape(c: Cache, b: nat, dev: nat, block: nat)
    requires Permutation(c) && Unique(c.buf) && b < |c.buf| && Find(c.buf, dev, block).None?
    ensures Permutation(Rebind(c, b, dev, block)) && Unique(Rebind(c, b, dev, block).buf)
  {
    var c' := Rebind(c, b, dev, block);
    FullRing(c, b);
    WithoutFacts(c.ring, b);
    forall k | 0 <= k < |c'.ring| ensures c'.ring[k] < |c'.buf| {
      assert c'.ring[k] in Without(c.ring, b) + [b];
    }
  }

  /** What one turn of a task in `getblk` does, whatever place it is in. */
  ghost predicate TurnOk(c: Cache, p: Pc, o: Outcome)
    requires !p.Idle? && !o.pc.Idle?
  {
    && Permutation(o.c) && Unique(o.c.buf) && |o.c.buf| == |c.buf|
    && o.pc.dev == p.dev && o.pc.block == p.block
    && (o.pc.Got? ==> Serves(o.c, o.pc)) && (o.pc.OnHit? && (p.OnHit? ==> Serves(c, p)) ==> Serves(o.c, o.pc))
    && (o.pc.OnHit? || o.pc.OnVictim? ==> o.pc.b < |c.buf|)
    && (forall b :: 0 <= b < |c.buf| && c.buf[b].count > 0 ==>
         o.c.buf[b].dev == c.buf[b].dev && o.c.buf[b].block == c.buf[b].block)
    && (forall b :: 0 <= b < |c.buf| ==>
          o.c.buf[b].count == AddByte(c.buf[b].count, Weight(o.pc, b) - Weight(p, b)))
    && (o.pc.Got? || o.c.ring == c.ring)
  }

  /** One when the place keeps buffer `b` counted. */
  ghost function Weight(p: Pc, b: nat): nat { if (p.OnHit? || p.Got?) && p.b == b then 1 else 0 }

  lemma TurnIsOk(c: Cache, p: Pc, o: Outcome)
    requires Permutation(c) && Unique(c.buf) && !p.Idle? && !p.Got? && 0 < p.dev
    requires (p.OnHit? || p.OnVictim? ==> p.b < |c.buf|) && o == Turn(c, p)
    ensures !o.pc.Idle? && TurnOk(c, p, o)
  {
    match p
    case Repeat(dev, block) =>
      if Find(c.buf, dev, block).Some? {
        HitTurn(c, p, Find(c.buf, dev, block).value, o);
      } else if Victim(c).Some? {
        VictimTurn(c, p, Victim(c).value, o);
      }
    case OnVictim(_, _, b) => VictimTurn(c, p, b, o);
    case OnHit(_, _, _) => RecheckTurn(c, p, o);
    case OnAny(_, _) =>
  }

  lemma RecheckTurn(c: Cache, p: Pc, o: Outcome)
    requires Permutation(c) && Unique(c.buf) && p.OnHit? && 0 < p.dev && p.b < |c.buf|
    requires o == TakeHit(c, p.dev, p.block, p.b)
    ensures !o.pc.Idle? && TurnOk(c, p, o)
  {
  }

  lemma HitTurn(c: Cache, p: Pc, b: nat, o: Outcome)
    requires Permutation(c) && Unique(c.buf) && p.Repeat? && 0 < p.dev && b < |c.buf| && Bound(c.buf[b], p.dev, p.block)
    requires o == TakeHit(AddCount(c, b, 1), p.dev, p.block, b)
    ensures !o.pc.Idle? && TurnOk(c, p, o)
  {
  }

  lemma VictimTurn(c: Cache, p: Pc, b: nat, o: Outcome)
    requires Permutation(c) && Unique(c.buf) && (p.Repeat? || p.OnVictim?) && 0 < p.dev && b < |c.buf|
    requires o == TakeVictim(c, p.dev, p.block, b)
    ensures !o.pc.Idle? && TurnOk(c, p, o)
  {
    if o.pc.Got? {
      RebindKeepsShape(c, b, p.dev, p.block);
    }
  }

  lemma UsersMove(s: System, t: nat, o: Outcome, s': System, b: nat)
    requires t < |s.pc| && !s.pc[t].Got? && b < |s.c.buf|
    requires s' == System(o.c, s.pc[t := o.pc], if o.pc.Got? then s.grants + [o.pc] else s.grants)
    ensures Users(s', b) == Users(s, b) + Weight(o.pc, b) - Weight(s.pc[t], b)
  {
    PinsUpdate(s.pc, t, o.pc, b);
    GrantsAppend(s.grants, o.pc, b);
  }

  lemma OutcomeKeepsInv(s: System, t: nat, o: Outcome, s': System)
    requires Inv(s) && t < |s.pc| && !s.pc[t].Idle? && !s.pc[t].Got? && !o.pc.Idle? && TurnOk(s.c, s.pc[t], o)
    requires s' == System(o.c, s.pc[t := o.pc], if o.pc.Got? then s.grants + [o.pc] else s.grants)
    ensures Inv(s')
  {
    assert PlaceOk(s, s.pc[t]);
    forall b | 0 <= b < |s'.c.buf| ensures s'.c.buf[b].count == Users(s', b) % 256 {
      UsersMove(s, t, o, s', b);
    }
    forall i | 0 <= i < |s'.pc| ensures PlaceOk(s', s'.pc[i]) {
      assert PlaceOk(s, s.pc[i]);
    }
  }

  /** A request for a counted buffer that is served stays served in a turn of another task. */
  lemma ServedStays(c: Cache, p: Pc, o: Outcome, q: Pc)
    requires !p.Idle? && !o.pc.Idle? && TurnOk(c, p, o) && (q.OnHit? || q.Got?) && Serves(c, q) && c.buf[q.b].count > 0
    ensures Serves(o.c, q)
  {
  }

  /** Fewer than 256 users show in the count. */
  lemma UseShows(s: System, p: Pc)
    requires Inv(s) && FewUsers(s) && ((p.OnHit? && p in s.pc) || (p.Got? && p in s.grants)) && p.b < |s.c.buf|
    ensures s.c.buf[p.b].count > 0
  {
    if p.OnHit? {
      var t :| 0 <= t < |s.pc| && s.pc[t] == p;
      PinnedHasCount(s.pc, t);
    } else {
      var g :| 0 <= g < |s.grants| && s.grants[g] == p;
      GrantHasCount(s.grants, g);
    }
    assert 0 < Users(s, p.b) < 256;
  }

  lemma OutcomeKeepsServed(s: System, t: nat, o: Outcome, s': System)
    requires Inv(s) && Served(s) && FewUsers(s)
    requires t < |s.pc| && !s.pc[t].Idle? && !s.pc[t].Got? && !o.pc.Idle? && TurnOk(s.c, s.pc[t], o)
    requires s' == System(o.c, s.pc[t := o.pc], if o.pc.Got? then s.grants + [o.pc] else s.grants)
    ensures Served(s')
  {
    forall i | 0 <= i < |s'.pc| && s'.pc[i].OnHit? ensures Serves(s'.c, s'.pc[i]) {
      if i != t {
        OneStaysServed(s, t, o, s.pc[i]);
      }
    }
    forall g | 0 <= g < |s'.grants| && s'.grants[g].Got? ensures Serves(s'.c, s'.grants[g]) {
      if g < |s.grants| {
        OneStaysServed(s, t, o, s.grants[g]);
      }
    }
  }

  lemma OneStaysServed(s: System, t: nat, o: Outcome, q: Pc)
    requires Inv(s) && FewUsers(s) && t < |s.pc| && !s.pc[t].Idle? && !o.pc.Idle? && TurnOk(s.c, s.pc[t], o)
    requires (q.OnHit? && q in s.pc) || (q.Got? && q in s.grants)
    requires Serves(s.c, q)
    ensures Serves(o.c, q)
  {
    UseShows(s, q);
    ServedStays(s.c, s.pc[t], o, q);
  }

  lemma BeginMoves(s: System, t: nat, p: Pc, b: nat)
    requires t < |s.pc| && !Pinning(s.pc[t]) && !Pinning(p)
    ensures Users(s.(pc := s.pc[t := p]), b) == Users(s, b)
  {
    PinsUpdate(s.pc, t, p, b);
  }

  lemma StepKeepsInv(s: System, e: Event)
    requires Inv(s) && Enabled(s, e)
    ensures Wellformed(s) && Inv(Step(s, e))
  {
    InvIsWellformed(s);
    var s' := Step(s, e);
    match e
    case Begin(t, dev, block) =>
      forall b | 0 <= b < |s'.c.buf| ensures s'.c.buf[b].count == Users(s', b) % 256 {
        BeginMoves(s, t, Repeat(dev, block), b);
      }
      forall i | 0 <= i < |s'.pc| ensures PlaceOk(s', s'.pc[i]) {
        assert PlaceOk(s, s.pc[i]);
      }
    case Run(t) =>
      assert PlaceOk(s, s.pc[t]);
      TurnIsOk(s.c, s.pc[t], Turn(s.c, s.pc[t]));
      OutcomeKeepsInv(s, t, Turn(s.c, s.pc[t]), s');
    case Flags(b, _, _, _) =>
      forall i | 0 <= i < |s'.pc| ensures PlaceOk(s', s'.pc[i]) {
        assert PlaceOk(s, s.pc[i]);
      }
  }

  /** As long as no buffer has 256 users, all of them keep what they wanted. */
  lemma StepKeepsServed(s: System, e: Event)
    requires Inv(s) && Served(s) && FewUsers(s) && Enabled(s, e)
    ensures Wellformed(s) && Served(Step(s, e))
  {
    InvIsWellformed(s);
    if e.Run? {
      assert PlaceOk(s, s.pc[e.t]);
      TurnIsOk(s.c, s.pc[e.t], Turn(s.c, s.pc[e.t]));
      OutcomeKeepsServed(s, e.t, Turn(s.c, s.pc[e.t]), Step(s, e));
    }
  }

  // ----- what follows

  /** A buffer in use keeps its binding through every step of every task, unless the number of its users is a positive
      multiple of 256: then its count shows 0. */
  lemma InUseIsNeverRebound(s: System, e: Event, b: nat)
    requires Inv(s) && Enabled(s, e) && b < |s.c.buf|
    ensures Wellformed(s) && (s.c.buf[b].count == 0 <==> Users(s, b) % 256 == 0)
    ensures Users(s, b) % 256 != 0 ==>
              var b' := Step(s, e).c.buf; b < |b'| && b'[b].dev == s.c.buf[b].dev && b'[b].block == s.c.buf[b].block
  {
    InvIsWellformed(s);
    if e.Run? {
      assert PlaceOk(s, s.pc[e.t]);
      TurnIsOk(s.c, s.pc[e.t], Turn(s.c, s.pc[e.t]));
    }
  }

  /** So the recheck after waiting for a found buffer succeeds whenever the wait is over, exactly if the buffer is still
      the wanted one. */
  lemma RecheckSucceeds(s: System, t: nat)
    requires Inv(s) && t < |s.pc| && s.pc[t].OnHit?
    requires s.pc[t].b < |s.c.buf| ==> !s.c.buf[s.pc[t].b].lock
    ensures Wellformed(s) && (Served(s) ==> Turn(s.c, s.pc[t]).pc.Got?)
    ensures Turn(s.c, s.pc[t]) == Outcome(s.c, Got(s.pc[t].dev, s.pc[t].block, s.pc[t].b)) <==> Serves(s.c, s.pc[t])
  {
    InvIsWellformed(s);
    assert PlaceOk(s, s.pc[t]);
  }

  /** The ring with position `k` taken out. */
  function Cut(r: seq<nat>, k: nat): seq<nat>
    requires k < |r|
  {
    r[..k] + r[k + 1..]
  }

  lemma {:induction false} CutIsWithout(r: seq<nat>, k: nat)
    requires NoRepeats(r) && k < |r|
    ensures Without(r, r[k]) == Cut(r, k)
  {
    if k > 0 {
      CutIsWithout(r[1..], k - 1);
      assert [r[0]] + Cut(r[1..], k - 1) == Cut(r, k);
    } else {
      assert Cut(r, 0) == r[1..];
    }
  }

  // ----- runs

  /** Every event is possible in the state the run has reached. */
  ghost predicate RunEnabled(s: System, run: seq<Event>)
    decreases |run|
  {
    run == [] || (Enabled(s, run[0]) && (Wellformed(s) ==> RunEnabled(Step(s, run[0]), run[1..])))
  }

  /** The state after the run; it would stop at a state that is not well-formed, and never meets one. */
  ghost function After(s: System, run: seq<Event>): System
    requires RunEnabled(s, run)
    decreases |run|
  {
    if run == [] || !Wellformed(s) then s else After(Step(s, run[0]), run[1..])
  }

  /** `reached` is where the whole run leads, event by event. */
  ghost predicate Reaches(s: System, run: seq<Event>, reached: System)
    decreases |run|
  {
    if run == [] then s == reached
    else Wellformed(s) && Enabled(s, run[0]) && Reaches(Step(s, run[0]), run[1..], reached)
  }

  lemma {:induction false} InvOverRuns(s: System, run: seq<Event>)
    requires Inv(s) && RunEnabled(s, run)
    ensures Inv(After(s, run)) && Reaches(s, run, After(s, run))
    decreases |run|
  {
    if run != [] {
      StepKeepsInv(s, run[0]);
      InvOverRuns(Step(s, run[0]), run[1..]);
    }
  }

  ghost predicate Initial(s: System) {
    && Permutation(s.c) && s.grants == []
    && (forall b :: 0 <= b < |s.c.buf| ==> s.c.buf[b].dev == 0 && s.c.buf[b].count == 0)
    && (forall t :: 0 <= t < |s.pc| ==> s.pc[t].Idle?)
  }

  lemma InitialInv(s: System)
    requires Initial(s)
    ensures Inv(s) && Served(s)
  {
    forall b | 0 <= b < |s.c.buf| ensures s.c.buf[b].count == Users(s, b) % 256 {
      NoPins(s.pc, b);
    }
  }

  lemma {:induction false} NoPins(ps: seq<Pc>, b: nat)
    requires forall t :: 0 <= t < |ps| ==> ps[t].Idle?
    ensures Pins(ps, b) == 0
  {
    if ps != [] {
      NoPins(ps[1..], b);
    }
  }
}
