/**
 What `getblk` answers and when, spelled out on the headers: hits, waits, retries, the choice of the victim, and that no
 dirty or locked buffer is ever rebound.
 */
module BufferAnswers {
  import opened Common
  import opened BufferProtocol

  /** A hit leaves the ring alone; a completed miss takes the victim from its position and puts it at the end, the order
      of the others unchanged; a miss that has to wait or retry changes nothing at all. */
  lemma RingOrder(c: Cache, dev: nat, block: nat)
    requires Permutation(c)
    ensures var o := Attempt(c, dev, block);
            if Find(c.buf, dev, block).Some? then o.c.ring == c.ring
            else if o.pc.Got? then exists k :: MovedToEnd(c, o, k)
            else o.c == c
  {
    var o := Attempt(c, dev, block);
    if Find(c.buf, dev, block).None? && o.pc.Got? {
      FullRing(c, o.pc.b);
      var k :| 0 <= k < |c.ring| && c.ring[k] == o.pc.b;
      CutIsWithout(c.ring, k);
      assert MovedToEnd(c, o, k);
    }
  }

  /** The returned buffer is the victim, it was at position `k` and is now last. */
  ghost predicate MovedToEnd(c: Cache, o: Outcome, k: int)
    requires InRange(c) && o.pc.Got?
  {
    0 <= k < |c.ring| && c.ring[k] == o.pc.b && Victim(c) == Some(o.pc.b) && o.c.ring == Cut(c.ring, k) + [o.pc.b]
  }

  ghost predicate IsHeld(c: Cache, dev: nat, block: nat) {
    exists h :: 0 <= h < |c.buf| && Bound(c.buf[h], dev, block)
  }

  /** What a pass from `repeat` does.  A buffer bound to the block gets one more user and is returned, or waited for if
      locked.  With every buffer in use the task waits for any buffer.  Otherwise the best unused buffer is waited for
      if locked, tried again if dirty, and else returned; only then does the cache change. */
  lemma PassMeans(c: Cache, dev: nat, block: nat) returns (b: nat)
    requires InRange(c)
    ensures var o := Attempt(c, dev, block);
            if IsHeld(c, dev, block) then
              && b < |c.buf| && Bound(c.buf[b], dev, block)
              && o.pc == (if c.buf[b].lock then OnHit(dev, block, b) else Got(dev, block, b))
              && o.c == Cache(c.ring, c.buf[b := c.buf[b].(count := (c.buf[b].count + 1) % 256)])
            else if AllUsed(c, |c.ring|) then o == Outcome(c, OnAny(dev, block))
            else
              && b < |c.buf| && (exists q :: 0 <= q < |c.ring| && c.ring[q] == b && BestBefore(c, q, |c.ring|))
              && if c.buf[b].lock then o == Outcome(c, OnVictim(dev, block, b))
                 else if c.buf[b].dirt then o == Outcome(c, Repeat(dev, block))
                 else o.pc == Got(dev, block, b)
  {
    VictimIsBest(c);
    if Find(c.buf, dev, block).Some? {
      b := Find(c.buf, dev, block).value;
      assert IsHeld(c, dev, block);
    } else {
      assert !IsHeld(c, dev, block);
      b := if Victim(c).Some? then Victim(c).value else 0;
    }
  }

  /** What a task does that wakes up from waiting for a victim: wait on if it is locked, start again if it is in use,
      dirty, or no longer needed because another task brought the block in; else it is returned. */
  lemma WokenMeans(c: Cache, dev: nat, block: nat, b: nat)
    requires b < |c.buf|
    ensures var o := TakeVictim(c, dev, block, b);
            if c.buf[b].lock then o == Outcome(c, OnVictim(dev, block, b))
            else if c.buf[b].count > 0 || c.buf[b].dirt || IsHeld(c, dev, block) then
              o == Outcome(c, Repeat(dev, block))
            else o.pc == Got(dev, block, b)
  {
    assert Find(c.buf, dev, block).Some? ==> Bound(c.buf[Find(c.buf, dev, block).value], dev, block);
  }

  /** What a task does that wakes up from waiting for the buffer it found: wait on if it is locked; return it if it
      still holds the block; else give its use back and start again. */
  lemma FoundMeans(c: Cache, dev: nat, block: nat, b: nat)
    requires b < |c.buf|
    ensures var o := TakeHit(c, dev, block, b);
            if c.buf[b].lock then o == Outcome(c, OnHit(dev, block, b))
            else if c.buf[b].dev == dev && c.buf[b].block == block then o == Outcome(c, Got(dev, block, b))
            else o.pc == Repeat(dev, block) && |o.c.buf| == |c.buf| && o.c.ring == c.ring
                 && (o.c.buf[b].count + 1) % 256 == c.buf[b].count
  {
  }

  /** Preference spelled out: clean before dirty, and unlocked before locked among equally dirty ones. */
  lemma VictimPreference(c: Cache, k: nat)
    requires InRange(c) && k < |c.ring| && c.buf[c.ring[k]].count == 0
    ensures Victim(c).Some?
    ensures var v, b := c.buf[Victim(c).value], c.buf[c.ring[k]];
            && v.count == 0 && (v.dirt ==> b.dirt) && (v.dirt == b.dirt && v.lock ==> b.lock)
  {
    VictimIsBest(c);
    assert !AllUsed(c, |c.ring|);
    var q :| 0 <= q < |c.ring| && c.ring[q] == Victim(c).value && BestBefore(c, q, |c.ring|);
    assert Badness(c.buf[c.ring[q]]) <= Badness(c.buf[c.ring[k]]);
  }

  /** Progress: a miss with a clean, unlocked, unused buffer in the ring returns in one pass without sleeping. */
  lemma CleanBufferSuffices(c: Cache, dev: nat, block: nat, k: nat)
    requires Permutation(c) && Find(c.buf, dev, block).None? && k < |c.ring|
    requires c.buf[c.ring[k]].count == 0 && !c.buf[c.ring[k]].dirt && !c.buf[c.ring[k]].lock
    ensures Attempt(c, dev, block).pc.Got?
  {
    VictimPreference(c, k);
  }

  ghost predicate SameBinding(b: Buf, b': Buf) { b.dev == b'.dev && b.block == b'.block }

  /** What a turn may do to buffer contents. */
  ghost predicate SafeTurn(c: Cache, o: Outcome) {
    && |o.c.buf| == |c.buf|
    && (forall b :: 0 <= b < |c.buf| ==> SafeChange(c.buf[b], o.c.buf[b], b, o.pc))
    && (o.pc.Got? ==> o.pc.b < |c.buf| && !o.c.buf[o.pc.b].lock)
  }

  /** The binding changes only from unused, clean and unlocked to in use once, clean and not up to date; else the flags
      stay. */
  ghost predicate SafeChange(v: Buf, v': Buf, b: nat, pc: Pc) {
    if SameBinding(v, v') then v'.dirt == v.dirt && v'.lock == v.lock && v'.uptodate == v.uptodate
    else
      && v.count == 0 && !v.dirt && !v.lock && v'.count == 1 && !v'.dirt && !v'.lock && !v'.uptodate
      && pc == Got(v'.dev, v'.block, b)
  }

  lemma TurnIsSafe(c: Cache, p: Pc, o: Outcome)
    requires InRange(c) && !p.Idle? && !p.Got? && (p.OnHit? || p.OnVictim? ==> p.b < |c.buf|) && o == Turn(c, p)
    ensures SafeTurn(c, o)
  {
    match p
    case Repeat(dev, block) =>
      if Find(c.buf, dev, block).Some? {
        HitIsSafe(AddCount(c, Find(c.buf, dev, block).value, 1), dev, block, Find(c.buf, dev, block).value);
      } else if Victim(c).Some? {
        VictimIsSafe(c, dev, block, Victim(c).value);
      }
    case OnVictim(dev, block, b) => VictimIsSafe(c, dev, block, b);
    case OnHit(dev, block, b) => HitIsSafe(c, dev, block, b);
    case OnAny(_, _) =>
  }

  lemma HitIsSafe(c: Cache, dev: nat, block: nat, b: nat)
    requires b < |c.buf|
    ensures SafeTurn(c, TakeHit(c, dev, block, b))
  {
  }

  lemma VictimIsSafe(c: Cache, dev: nat, block: nat, b: nat)
    requires b < |c.buf|
    ensures SafeTurn(c, TakeVictim(c, dev, block, b))
  {
  }

  /** No data is lost: over every interleaving a buffer whose binding changes was unused, clean and unlocked before the
      step, and is then in use once, clean and not up to date, returned to the task that ran. */
  lemma RebindingIsSafe(s: System, e: Event, b: nat)
    requires Inv(s) && Enabled(s, e) && b < |s.c.buf|
    ensures Wellformed(s) && b < |Step(s, e).c.buf|
    ensures var v, v' := s.c.buf[b], Step(s, e).c.buf[b];
            !SameBinding(v, v') ==>
              && v.count == 0 && !v.dirt && !v.lock && v'.count == 1 && !v'.dirt && !v'.lock && !v'.uptodate
              && e.Run? && Step(s, e).pc[e.t] == Got(v'.dev, v'.block, b)
  {
    InvIsWellformed(s);
    if e.Run? {
      TurnIsSafe(s.c, s.pc[e.t], Turn(s.c, s.pc[e.t]));
      assert SafeChange(s.c.buf[b], Step(s, e).c.buf[b], b, Step(s, e).pc[e.t]);
    }
  }

  /** The flags of a buffer that keeps its binding are changed by no task in `getblk`; so dirty data is never
      dropped. */
  lemma FlagsStay(s: System, t: nat, b: nat)
    requires Inv(s) && Enabled(s, Event.Run(t)) && b < |s.c.buf|
    ensures Wellformed(s) && b < |Step(s, Event.Run(t)).c.buf|
    ensures var v, v' := s.c.buf[b], Step(s, Event.Run(t)).c.buf[b];
            SameBinding(v, v') ==> v'.dirt == v.dirt && v'.lock == v.lock && v'.uptodate == v.uptodate
  {
    InvIsWellformed(s);
    TurnIsSafe(s.c, s.pc[t], Turn(s.c, s.pc[t]));
    assert SafeChange(s.c.buf[b], Step(s, Event.Run(t)).c.buf[b], b, Step(s, Event.Run(t)).pc[t]);
  }

  /** A buffer is returned, hit or miss, bound to the block that was asked for and unlocked. */
  lemma ReturnedIsUnlocked(s: System, t: nat)
    requires Inv(s) && Enabled(s, Event.Run(t))
    ensures Wellformed(s) && t < |Step(s, Event.Run(t)).pc|
    ensures var s', p := Step(s, Event.Run(t)), Step(s, Event.Run(t)).pc[t];
            p.Got? ==>
              && p.b < |s'.c.buf| && !s'.c.buf[p.b].lock && Bound(s'.c.buf[p.b], p.dev, p.block)
              && !s.pc[t].Idle? && p.dev == s.pc[t].dev && p.block == s.pc[t].block && s'.grants == s.grants + [p]
  {
    InvIsWellformed(s);
    assert PlaceOk(s, s.pc[t]);
    TurnIsOk(s.c, s.pc[t], Turn(s.c, s.pc[t]));
    TurnIsSafe(s.c, s.pc[t], Turn(s.c, s.pc[t]));
  }
}
