/**
 What the byte `b_count` means for those who hold a buffer: everybody keeps the buffer of the block asked for as long as
 no block is asked for 256 times, and not one time longer.
 */
module BufferRequests {
  import opened Common
  import opened BufferProtocol

  // ----- requests for a block

  ghost predicate Asks(p: Pc, dev: nat, block: nat) { !p.Idle? && p.dev == dev && p.block == block }

  /** Tasks inside `getblk` for the block. */
  ghost function Inside(ps: seq<Pc>, dev: nat, block: nat): nat {
    if ps == [] then 0 else (if Asks(ps[0], dev, block) && !ps[0].Got? then 1 else 0) + Inside(ps[1..], dev, block)
  }

  ghost function Given(gs: seq<Pc>, dev: nat, block: nat): nat {
    if gs == [] then 0 else (if Asks(gs[0], dev, block) then 1 else 0) + Given(gs[1..], dev, block)
  }

  /** Requests for the block so far, in progress or answered. */
  ghost function Asked(s: System, dev: nat, block: nat): nat { Inside(s.pc, dev, block) + Given(s.grants, dev, block) }

  /** Requests for the block in the run. */
  ghost function Requests(run: seq<Event>, dev: nat, block: nat): nat {
    if run == [] then 0
    else (if run[0].Begin? && run[0].dev == dev && run[0].block == block then 1 else 0) + Requests(run[1..], dev, block)
  }

  lemma {:induction false} InsideUpdate(ps: seq<Pc>, t: nat, p: Pc, dev: nat, block: nat)
    requires t < |ps|
    ensures Inside(ps[t := p], dev, block) + (if Asks(ps[t], dev, block) && !ps[t].Got? then 1 else 0)
         == Inside(ps, dev, block) + (if Asks(p, dev, block) && !p.Got? then 1 else 0)
  {
    var ps' := ps[t := p];
    if t == 0 {
      assert ps'[1..] == ps[1..];
    } else {
      InsideUpdate(ps[1..], t - 1, p, dev, block);
      assert ps'[1..] == ps[1..][t - 1 := p];
    }
  }

  lemma {:induction false} GivenAppend(gs: seq<Pc>, p: Pc, dev: nat, block: nat)
    ensures Given(gs + [p], dev, block) == Given(gs, dev, block) + if Asks(p, dev, block) then 1 else 0
  {
    if gs == [] {
      assert gs + [p] == [p];
    } else {
      GivenAppend(gs[1..], p, dev, block);
      assert (gs + [p])[1..] == gs[1..] + [p];
    }
  }

  /** Only a new request adds to a block's requests. */
  lemma AskedStep(s: System, e: Event, dev: nat, block: nat)
    requires Inv(s) && Enabled(s, e)
    ensures Wellformed(s)
    ensures Asked(Step(s, e), dev, block) == Asked(s, dev, block) + Requests([e], dev, block)
  {
    InvIsWellformed(s);
    assert [e][1..] == [];
    match e
    case Begin(t, d, b) => InsideUpdate(s.pc, t, Repeat(d, b), dev, block);
    case Run(t) =>
      assert PlaceOk(s, s.pc[t]);
      var o := Turn(s.c, s.pc[t]);
      TurnIsOk(s.c, s.pc[t], o);
      InsideUpdate(s.pc, t, o.pc, dev, block);
      GivenAppend(s.grants, o.pc, dev, block);
    case Flags(_, _, _, _) =>
  }

  lemma {:induction false} PinsAreInside(c: Cache, ps: seq<Pc>, b: nat)
    requires b < |c.buf| && forall t :: 0 <= t < |ps| && ps[t].OnHit? ==> Serves(c, ps[t])
    ensures Pins(ps, b) <= Inside(ps, c.buf[b].dev, c.buf[b].block)
  {
    if ps != [] {
      PinsAreInside(c, ps[1..], b);
    }
  }

  lemma {:induction false} GrantsAreGiven(c: Cache, gs: seq<Pc>, b: nat)
    requires b < |c.buf| && forall g :: 0 <= g < |gs| && gs[g].Got? ==> Serves(c, gs[g])
    ensures GrantsOf(gs, b) <= Given(gs, c.buf[b].dev, c.buf[b].block)
  {
    if gs != [] {
      GrantsAreGiven(c, gs[1..], b);
    }
  }

  /** A buffer's users asked for the block it is bound to. */
  lemma UsersAsked(s: System, b: nat)
    requires Served(s) && b < |s.c.buf|
    ensures Users(s, b) <= Asked(s, s.c.buf[b].dev, s.c.buf[b].block)
  {
    PinsAreInside(s.c, s.pc, b);
    GrantsAreGiven(s.c, s.grants, b);
  }

  // ----- runs

  /** No block is asked for 256 times. */
  ghost predicate FewRequests(s: System, run: seq<Event>) {
    forall dev, block :: Asked(s, dev, block) + Requests(run, dev, block) < 256
  }

  lemma {:induction false} ServedOverRuns(s: System, run: seq<Event>)
    requires Inv(s) && Served(s) && RunEnabled(s, run) && FewRequests(s, run)
    ensures Inv(After(s, run)) && Served(After(s, run)) && FewUsers(After(s, run))
    decreases |run|
  {
    forall b | 0 <= b < |s.c.buf| ensures Users(s, b) < 256 {
      UsersAsked(s, b);
      assert Asked(s, s.c.buf[b].dev, s.c.buf[b].block) + Requests(run, s.c.buf[b].dev, s.c.buf[b].block) < 256;
    }
    if run != [] {
      StepKeepsInv(s, run[0]);
      StepKeepsServed(s, run[0]);
      var s1 := Step(s, run[0]);
      forall dev, block ensures Asked(s1, dev, block) + Requests(run[1..], dev, block) < 256 {
        AskedStep(s, run[0], dev, block);
        assert [run[0]][0] == run[0] && [run[0]][1..] == [];
        assert Asked(s, dev, block) + Requests(run, dev, block) < 256;
      }
      ServedOverRuns(s1, run[1..]);
    }
  }

  ghost predicate SameBuffer(p: Pc, p': Pc) {
    p.Got? && p'.Got? && p.dev == p'.dev && p.block == p'.block ==> p.b == p'.b
  }

  /** Over every interleaving no two buffers are bound to one block; and if no block is asked for 256 times, all tasks
      that asked for a block were given the same buffer, and it is still bound to it. */
  lemma OneBufferPerBlock(s: System, run: seq<Event>)
    requires Initial(s) && RunEnabled(s, run)
    ensures var s' := After(s, run);
            && Reaches(s, run, s') && Unique(s'.c.buf) && Permutation(s'.c)
            && ((forall dev, block :: Requests(run, dev, block) < 256) ==>
            && (forall g :: 0 <= g < |s'.grants| ==> s'.grants[g].Got? && Serves(s'.c, s'.grants[g]))
            && (forall g, h :: 0 <= g < |s'.grants| && 0 <= h < |s'.grants| ==>
                      SameBuffer(s'.grants[g], s'.grants[h])))
  {
    InitialInv(s);
    InvOverRuns(s, run);
    if forall dev, block :: Requests(run, dev, block) < 256 {
      forall dev, block ensures Asked(s, dev, block) + Requests(run, dev, block) < 256 {
        NobodyInside(s.pc, dev, block);
      }
      ServedOverRuns(s, run);
    }
  }

  lemma {:induction false} NobodyInside(ps: seq<Pc>, dev: nat, block: nat)
    requires forall t :: 0 <= t < |ps| ==> ps[t].Idle?
    ensures Inside(ps, dev, block) == 0
  {
    if ps != [] {
      NobodyInside(ps[1..], dev, block);
    }
  }

  // ----- the 256th request

  const BLOCK_A: Event := Begin(0, 1, 0)
  const BLOCK_B: Event := Begin(0, 1, 1)

  /** One buffer, one task. */
  ghost function Small(b: Buf, p: Pc, grants: seq<Pc>): System { System(Cache([0], [b]), [p], grants) }

  ghost function Fresh(): System { Small(Buf(0, 0, 0, false, false, false), Idle, []) }

  /** After `u` requests for the first block. */
  ghost function Held(u: nat): System
    requires u >= 1
  {
    Small(Buf(1, 0, u % 256, false, false, false), Got(1, 0, 0), seq(u, _ => Got(1, 0, 0)))
  }

  ghost function Asking(u: nat): seq<Event> { if u == 0 then [] else Asking(u - 1) + [BLOCK_A, Run(0)] }

  lemma {:induction false} ReachesAppend(s: System, run: seq<Event>, s1: System, run1: seq<Event>, s2: System)
    requires Reaches(s, run, s1) && Reaches(s1, run1, s2)
    ensures Reaches(s, run + run1, s2)
    decreases |run|
  {
    if run == [] {
      assert run + run1 == run1;
    } else {
      ReachesAppend(Step(s, run[0]), run[1..], s1, run1, s2);
      assert (run + run1)[1..] == run[1..] + run1;
    }
  }

  lemma TwoSteps(s: System, e: Event, e': Event, s1: System, s2: System)
    requires Wellformed(s) && Enabled(s, e) && s1 == Step(s, e)
    requires Wellformed(s1) && Enabled(s1, e') && s2 == Step(s1, e')
    ensures Reaches(s, [e, e'], s2)
  {
    assert [e, e'][1..] == [e'] && [e'][1..] == [];
    assert Reaches(s2, [], s2);
    assert Reaches(s1, [e'], s2);
  }

  /** Every further request for the block finds the buffer and counts it up. */
  lemma HoldAgain(u: nat)
    requires u >= 1
    ensures Reaches(Held(u), [BLOCK_A, Run(0)], Held(u + 1))
  {
    var s, s2 := Held(u), Held(u + 1);
    var s1 := Step(s, BLOCK_A);
    assert s1.pc == [Repeat(1, 0)];
    assert Find(s1.c.buf, 1, 0) == Some(0);
    var o := Turn(s1.c, s1.pc[0]);
    assert o == Outcome(s2.c, Got(1, 0, 0));
    assert s.grants + [o.pc] == s2.grants;
    TwoSteps(s, BLOCK_A, Run(0), s1, s2);
  }

  lemma HoldFirst()
    ensures Reaches(Fresh(), [BLOCK_A, Run(0)], Held(1))
  {
    var s, s2 := Fresh(), Held(1);
    var s1 := Step(s, BLOCK_A);
    assert s1.pc == [Repeat(1, 0)];
    assert Find(s1.c.buf, 1, 0).None?;
    assert Victim(s1.c) == Some(0);
    var o := Turn(s1.c, s1.pc[0]);
    assert Without([0], 0) + [0] == [0];
    assert o == Outcome(s2.c, Got(1, 0, 0));
    assert s.grants + [o.pc] == s2.grants;
    TwoSteps(s, BLOCK_A, Run(0), s1, s2);
  }

  lemma {:induction false} HoldMany(u: nat)
    requires u >= 1
    ensures Reaches(Fresh(), Asking(u), Held(u)) && Requests(Asking(u), 1, 0) == u
    decreases u
  {
    if u == 1 {
      HoldFirst();
      assert Asking(1) == [] + [BLOCK_A, Run(0)] == [BLOCK_A, Run(0)];
    } else {
      HoldMany(u - 1);
      HoldAgain(u - 1);
      ReachesAppend(Fresh(), Asking(u - 1), Held(u - 1), [BLOCK_A, Run(0)], Held(u));
    }
    CountAsking(u);
  }

  lemma {:induction false} RequestsAppend(a: seq<Event>, b: seq<Event>, dev: nat, block: nat)
    ensures Requests(a + b, dev, block) == Requests(a, dev, block) + Requests(b, dev, block)
  {
    if a == [] {
      assert a + b == b;
    } else {
      RequestsAppend(a[1..], b, dev, block);
      assert (a + b)[1..] == a[1..] + b;
    }
  }

  lemma {:induction false} CountAsking(u: nat)
    ensures Requests(Asking(u), 1, 0) == u
  {
    if u > 0 {
      CountAsking(u - 1);
      RequestsAppend(Asking(u - 1), [BLOCK_A, Run(0)], 1, 0);
      assert [BLOCK_A, Run(0)][1..] == [Run(0)] && [Run(0)][1..] == [];
    }
  }

  /** The bound is tight: 256 requests for one block wrap its count to 0, and the next miss takes the buffer away from
      all 256 holders. */
  lemma CountWraps() returns (run: seq<Event>, s': System)
    ensures Initial(Fresh()) && Requests(run, 1, 0) == 256 && Reaches(Fresh(), run, s')
    ensures forall g :: 0 <= g < 256 ==> g < |s'.grants| && s'.grants[g] == Got(1, 0, 0) && !Serves(s'.c, s'.grants[g])
  {
    HoldMany(256);
    var s := Held(256);
    var s1 := Step(s, BLOCK_B);
    assert s1.pc == [Repeat(1, 1)];
    assert Find(s1.c.buf, 1, 1).None?;
    assert s1.c.buf[0].count == 0;
    assert Victim(s1.c) == Some(0);
    var o := Turn(s1.c, s1.pc[0]);
    assert o.pc == Got(1, 1, 0);
    s' := Step(s1, Run(0));
    TwoSteps(s, BLOCK_B, Run(0), s1, s');
    run := Asking(256) + [BLOCK_B, Run(0)];
    ReachesAppend(Fresh(), Asking(256), s, [BLOCK_B, Run(0)], s');
    RequestsAppend(Asking(256), [BLOCK_B, Run(0)], 1, 0);
    assert [BLOCK_B, Run(0)][1..] == [Run(0)] && [Run(0)][1..] == [];
  }
}
