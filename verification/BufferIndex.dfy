/**
 The hash index over whole runs: whatever sequence of bindings and changes of counts and flags the cache goes through,
 walking a block's chain finds what a search of all headers would.
 */
module BufferIndex {
  import opened Common
  import opened BufferProtocol
  import opened BufferLinks
  import opened BufferInit

  /** What happens to headers: `getblk` binds one, and counts and flags change. */
  datatype Change =
    | Bind(b: nat, dev: nat, block: nat)
    | Mark(b: nat, count: Byte, dirt: bool, lock: bool, uptodate: bool)

  /** A header is bound only to a block of a real device that no header is bound to. */
  ghost predicate Allowed(c: Cache, e: Change) {
    e.b < |c.buf| && (e.Bind? ==> e.dev != 0 && Find(c.buf, e.dev, e.block).None?)
  }

  function Marked(v: Buf, e: Change): Buf
    requires e.Mark?
  {
    WithFlags(v, e.lock, e.dirt, e.uptodate).(count := e.count)
  }

  /** The change on the pointers. */
  function Apply(s: Links, e: Change): Links
    requires e.b < |s.head| && |s.hash| == NR_HASH
  {
    match e
    case Bind(b, dev, block) => Rebound(s, b, dev, block)
    case Mark(b, _, _, _, _) => SetBuf(s, b, Marked(s.head[b].b, e))
  }

  /** The change on the abstract cache. */
  function ApplyTo(c: Cache, e: Change): Cache
    requires e.b < |c.buf|
  {
    match e
    case Bind(b, dev, block) => Rebind(c, b, dev, block)
    case Mark(b, _, _, _, _) => c.(buf := c.buf[b := Marked(c.buf[b], e)])
  }

  ghost predicate AllowedRun(c: Cache, run: seq<Change>)
    decreases |run|
  {
    run == [] || (Allowed(c, run[0]) && AllowedRun(ApplyTo(c, run[0]), run[1..]))
  }

  ghost function RunOn(c: Cache, run: seq<Change>): Cache
    requires AllowedRun(c, run)
    decreases |run|
  {
    if run == [] then c else RunOn(ApplyTo(c, run[0]), run[1..])
  }

  /** The pointers after a run; a change the pointers cannot follow would be skipped. */
  function RunLinks(s: Links, run: seq<Change>): Links
    decreases |run|
  {
    if run == [] then s
    else RunLinks(if run[0].b < |s.head| && |s.hash| == NR_HASH then Apply(s, run[0]) else s, run[1..])
  }

  lemma ApplyStep(s: Links, r: seq<nat>, cs: seq<seq<nat>>, e: Change, s': Links)
      returns (r': seq<nat>, cs': seq<seq<nat>>)
    requires Represents(s, r, cs) && Unique(Abstract(s, r).buf) && Allowed(Abstract(s, r), e) && s' == Apply(s, e)
    ensures Represents(s', r', cs') && Unique(Abstract(s', r').buf)
    ensures Abstract(s', r') == ApplyTo(Abstract(s, r), e)
  {
    RingIsPermutation(s, r, cs);
    match e
    case Bind(b, dev, block) =>
      cs' := ReboundStep(s, r, cs, b, dev, block, s');
      r' := Without(r, b) + [b];
      RebindKeepsShape(Abstract(s, r), b, dev, block);
    case Mark(b, _, _, _, _) =>
      r', cs' := r, cs;
      KeepBinding(s, r, cs, b, Marked(s.head[b].b, e));
      SameContents(s', r, ApplyTo(Abstract(s, r), e));
  }

  /** Ring, chains and unique bindings are kept over every run, and the pointers go where the abstract cache goes. */
  lemma {:induction false} LinksOverRuns(s: Links, r: seq<nat>, cs: seq<seq<nat>>, run: seq<Change>)
      returns (r': seq<nat>, cs': seq<seq<nat>>)
    requires Represents(s, r, cs) && Unique(Abstract(s, r).buf) && AllowedRun(Abstract(s, r), run)
    ensures Represents(RunLinks(s, run), r', cs') && Unique(Abstract(RunLinks(s, run), r').buf)
    ensures Abstract(RunLinks(s, run), r') == RunOn(Abstract(s, r), run)
    decreases |run|
  {
    if run == [] {
      r', cs' := r, cs;
    } else {
      var s1 := Apply(s, run[0]);
      var r1, cs1 := ApplyStep(s, r, cs, run[0], s1);
      r', cs' := LinksOverRuns(s1, r1, cs1, run[1..]);
    }
  }

  // ----- lookup

  /** `find_buffer` from pointer `p`, for at most `steps` headers. */
  function Walk(s: Links, p: Option<nat>, dev: nat, block: nat, steps: nat): Option<nat>
    decreases steps
  {
    if steps == 0 || p.None? || p.value >= |s.head| then None
    else if Bound(s.head[p.value].b, dev, block) then p
    else Walk(s, s.head[p.value].next, dev, block, steps - 1)
  }

  function Lookup(s: Links, dev: nat, block: nat): Option<nat>
    requires |s.hash| == NR_HASH
  {
    Walk(s, s.hash[HashFn(dev, block)], dev, block, |s.head|)
  }

  lemma {:induction false} WalkChain(s: Links, w: nat, c: seq<nat>, i: nat, dev: nat, block: nat, steps: nat)
    requires w < |s.hash| && ChainIs(s, w, c) && i <= |c| && |c| - i <= steps
    ensures var r := Walk(s, At(c, i), dev, block, steps);
            if r.Some? then r.value < |s.head| && Bound(s.head[r.value].b, dev, block)
            else forall j :: i <= j < |c| ==> c[j] < |s.head| && !Bound(s.head[c[j]].b, dev, block)
    decreases |c| - i
  {
    if i < |c| {
      InChain(s, w, c, i);
      assert NextIn(c, i) == At(c, i + 1);
      WalkChain(s, w, c, i + 1, dev, block, if steps > 0 then steps - 1 else 0);
    }
  }

  lemma LookupIsFind(s: Links, r: seq<nat>, cs: seq<seq<nat>>, dev: nat, block: nat)
    requires Represents(s, r, cs) && Unique(Abstract(s, r).buf) && dev != 0
    ensures Lookup(s, dev, block) == Find(Abstract(s, r).buf, dev, block)
  {
    var w, buf := HashFn(dev, block), Abstract(s, r).buf;
    var c := cs[w];
    assert ChainIs(s, w, c);
    forall i | 0 <= i < |c| ensures c[i] < |s.head| {
      InChain(s, w, c, i);
    }
    Pigeonhole(c, |s.head|);
    assert At(c, 0) == s.hash[w];
    WalkChain(s, w, c, 0, dev, block, |s.head|);
    var found := Lookup(s, dev, block);
    if found.Some? {
      FindIsThe(buf, dev, block, 0, found.value);
    } else if Find(buf, dev, block).Some? {
      BoundIsOnChain(s, r, cs, dev, block, Find(buf, dev, block).value);
    }
  }

  /** From `buffer_init` on, after any sequence of bindings and changes, the hash lookup and the linear search agree, at
      most one header is bound to a block, and the ring holds every header once. */
  lemma IndexAgrees(heads: seq<Head>, run: seq<Change>, dev: nat, block: nat) returns (r': seq<nat>)
    requires heads != [] && forall i :: 0 <= i < |heads| ==> Unused(heads[i])
    requires RingIs(Links(heads, 0, seq(NR_HASH, _ => None)), seq(|heads|, i => i))
    requires AllowedRun(Abstract(Links(heads, 0, seq(NR_HASH, _ => None)), seq(|heads|, i => i)), run) && dev != 0
    ensures var s' := RunLinks(Links(heads, 0, seq(NR_HASH, _ => None)), run);
            && RingIs(s', r') && Permutation(Abstract(s', r')) && Unique(Abstract(s', r').buf)
            && |s'.hash| == NR_HASH && Lookup(s', dev, block) == Find(Abstract(s', r').buf, dev, block)
  {
    var s := Links(heads, 0, seq(NR_HASH, _ => None));
    FreshCache(heads);
    var cs: seq<seq<nat>>;
    r', cs := LinksOverRuns(s, seq(|heads|, i => i), seq(NR_HASH, _ => []), run);
    RingIsPermutation(RunLinks(s, run), r', cs);
    LookupIsFind(RunLinks(s, run), r', cs, dev, block);
  }
}
