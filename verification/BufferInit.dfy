/** `buffer_init`: headers grow up from the end of the kernel, data blocks grow down from the end of buffer memory. */
module BufferInit {
  import opened Common
  import opened BufferProtocol
  import opened BufferLinks

  const BLOCK_SIZE: nat := 1024
  const HOLE_START: nat := 0xa0000    // video memory and ROM, up to 1 MB
  const HOLE_END: nat := 0x100000

  /** Where header `n` starts, and header `n - 1` ends: a `struct buffer_head` has 36 bytes on a 32-bit machine. */
  function HeadAt(start: nat, n: nat): nat { start + 36 * n }

  function FirstTop(bufferEnd: nat): nat { if bufferEnd == HOLE_END then HOLE_START else bufferEnd }

  function SkipHole(b: nat): nat { if b == HOLE_END then HOLE_START else b }

  /** Does the block below `top` clear the end of header `h`? */
  predicate Fits(start: nat, top: nat, h: nat) { top >= BLOCK_SIZE && top - BLOCK_SIZE >= HeadAt(start, h + 1) }

  /** The data blocks handed out below `top`, given that `h` headers are already in place. */
  function Blocks(start: nat, top: nat, h: nat): seq<nat>
    decreases top
  {
    if Fits(start, top, h) then [top - BLOCK_SIZE] + Blocks(start, SkipHole(top - BLOCK_SIZE), h + 1) else []
  }

  function AllBlocks(start: nat, bufferEnd: nat): seq<nat> { Blocks(start, FirstTop(bufferEnd), 0) }

  ghost predicate Aligned(top: nat) { top % BLOCK_SIZE == 0 && (top <= HOLE_START || HOLE_END < top) }

  ghost predicate Apart(a: nat, n: nat, b: nat, k: nat) { a + n <= b || b + k <= a }

  /** Blocks below `top` descend without overlap and clear the first `n` headers. */
  ghost predicate Descending(d: seq<nat>, top: nat, floor: nat) {
    && (forall i :: 0 <= i < |d| ==> floor <= d[i] && d[i] + BLOCK_SIZE <= top)
    && (forall i, j :: 0 <= i < j < |d| ==> d[j] + BLOCK_SIZE <= d[i])
  }

  lemma {:induction false} BlocksDescend(start: nat, top: nat, h: nat, d: seq<nat>)
    requires d == Blocks(start, top, h)
    ensures Descending(d, top, HeadAt(start, h + |d|))
    decreases top
  {
    if Fits(start, top, h) {
      var b := top - BLOCK_SIZE;
      var rest := Blocks(start, SkipHole(b), h + 1);
      BlocksDescend(start, SkipHole(b), h + 1, rest);
      assert d == [b] + rest;
      assert rest != [] ==> rest[0] + BLOCK_SIZE <= SkipHole(b);
      forall i | 0 <= i < |d| ensures HeadAt(start, h + |d|) <= d[i] && d[i] + BLOCK_SIZE <= top {
        assert i > 0 ==> d[i] == rest[i - 1];
      }
      forall i, j | 0 <= i < j < |d| ensures d[j] + BLOCK_SIZE <= d[i] {
        assert d[j] == rest[j - 1];
        assert i > 0 ==> d[i] == rest[i - 1];
      }
    }
  }

  ghost predicate AvoidsHole(b: nat) { Apart(b, BLOCK_SIZE, HOLE_START, HOLE_END - HOLE_START) }

  /** From an aligned top outside the hole no block lies in it. */
  lemma {:induction false} BlocksAvoidHole(start: nat, top: nat, h: nat, d: seq<nat>)
    requires Aligned(top) && d == Blocks(start, top, h)
    ensures forall i :: 0 <= i < |d| ==> AvoidsHole(d[i])
    decreases top
  {
    if Fits(start, top, h) {
      var b := top - BLOCK_SIZE;
      var rest := Blocks(start, SkipHole(b), h + 1);
      BlocksAvoidHole(start, SkipHole(b), h + 1, rest);
      forall i | 0 <= i < |d| ensures AvoidsHole(d[i]) {
        assert i > 0 ==> d[i] == rest[i - 1];
      }
    }
  }

  // ----- all memory is used

  lemma {:induction false} BlocksFill(start: nat, top: nat, h: nat, d: seq<nat>)
    requires d == Blocks(start, top, h)
    ensures d == [] ==> top < start + 36 * (h + 1) + 1024
    ensures d != [] ==>
              && d[0] + 1024 == top
              && (if d[|d| - 1] == 0x100000 then 0xa0000 else d[|d| - 1]) < start + 36 * (h + |d| + 1) + 1024
    ensures forall i :: 0 <= i < |d| - 1 ==> d[i + 1] + 1024 == if d[i] == 0x100000 then 0xa0000 else d[i]
    decreases top
  {
    if Fits(start, top, h) {
      var b := top - BLOCK_SIZE;
      var rest := Blocks(start, SkipHole(b), h + 1);
      BlocksFill(start, SkipHole(b), h + 1, rest);
      assert d == [b] + rest;
      forall i | 0 <= i < |d| - 1 ensures d[i + 1] + 1024 == if d[i] == 0x100000 then 0xa0000 else d[i] {
        assert d[i + 1] == rest[i];
        assert i > 0 ==> d[i] == rest[i - 1];
      }
      assert rest != [] ==> d[|d| - 1] == rest[|rest| - 1];
    }
  }

  /** `buffer_init` uses the memory it is given: the first block ends where memory ends (at 640 KB if that is 1 MB),
      each further one directly below the one before (at 640 KB after the one at 1 MB), and after the last there is no
      room left for another header and block. */
  lemma UsesAllMemory(start: nat, bufferEnd: nat)
    ensures var d := AllBlocks(start, bufferEnd); var top := if bufferEnd == 0x100000 then 0xa0000 else bufferEnd;
            && (d == [] ==> top < start + 36 + 1024)
            && (d != [] ==>
                  && d[0] + 1024 == top
                  && (if d[|d| - 1] == 0x100000 then 0xa0000 else d[|d| - 1]) < start + 36 * (|d| + 1) + 1024)
            && (forall i :: 0 <= i < |d| - 1 ==> d[i + 1] + 1024 == if d[i] == 0x100000 then 0xa0000 else d[i])
  {
    BlocksFill(start, FirstTop(bufferEnd), 0, AllBlocks(start, bufferEnd));
  }

  // ----- the headers

  /** Blocks above 1 MB, whose headers are placed first. */
  function Above(bufferEnd: nat): nat { if bufferEnd > HOLE_END then (bufferEnd - HOLE_END) / BLOCK_SIZE else 0 }

  lemma {:induction false} HeadersBound(start: nat, top: nat, h: nat)
    requires Aligned(top) && HeadAt(start, h + Above(top)) <= HOLE_START
    ensures HeadAt(start, h + |Blocks(start, top, h)|) <= HOLE_START
    decreases top
  {
    if Fits(start, top, h) {
      var b := top - BLOCK_SIZE;
      if top <= HOLE_START {
        assert Above(top) == 0 && Above(b) == 0 && SkipHole(b) == b;
      } else {
        assert Above(top) == 1 + Above(SkipHole(b));
      }
      HeadersBound(start, SkipHole(b), h + 1);
    }
  }

  lemma {:induction false} HighBlocksFit(start: nat, top: nat, h: nat)
    requires top % BLOCK_SIZE == 0 && top > HOLE_END && HeadAt(start, h) <= HOLE_START
    ensures |Blocks(start, top, h)| >= Above(top) || HeadAt(start, h + |Blocks(start, top, h)|) > HOLE_START
    decreases top
  {
    var b := top - BLOCK_SIZE;
    assert Above(top) == 1 + Above(b);
    assert Fits(start, top, h);
    if b > HOLE_END && HeadAt(start, h + 1) <= HOLE_START {
      HighBlocksFit(start, b, h + 1);
    }
  }

  /** The headers stay out of the hole if and only if those of the blocks above 1 MB do. */
  lemma HeadersAvoidHole(start: nat, bufferEnd: nat)
    requires bufferEnd % BLOCK_SIZE == 0 && bufferEnd >= HOLE_END && start <= HOLE_START
    ensures HeadAt(start, |AllBlocks(start, bufferEnd)|) <= HOLE_START
            <==> HeadAt(start, Above(bufferEnd)) <= HOLE_START
  {
    if HeadAt(start, Above(bufferEnd)) <= HOLE_START {
      HeadersBound(start, FirstTop(bufferEnd), 0);
    } else {
      HighBlocksFit(start, bufferEnd, 0);
    }
  }

  /** The end of buffer memory is outside the hole and, above it, a multiple of the block size; or memory is used up
      before the first block that reaches down into the hole. */
  predicate HoleIsClear(start: nat, bufferEnd: nat) {
    || bufferEnd <= HOLE_START || bufferEnd == HOLE_END
    || (HOLE_END < bufferEnd && bufferEnd % BLOCK_SIZE == 0)
    || !Fits(start, bufferEnd - 1024 * Above(bufferEnd), Above(bufferEnd))
  }

  lemma {:induction false} HoleIff(start: nat, top: nat, h: nat, d: seq<nat>)
    requires top != HOLE_END && d == Blocks(start, top, h)
    ensures (forall i :: 0 <= i < |d| ==> AvoidsHole(d[i]))
       <==> Aligned(top) || top <= HOLE_START || !Fits(start, top - 1024 * Above(top), h + Above(top))
    decreases top
  {
    if Aligned(top) {
      BlocksAvoidHole(start, top, h, d);
    } else if top <= HOLE_START {
      BlocksDescend(start, top, h, d);
    } else if Fits(start, top, h) {
      var b := top - BLOCK_SIZE;
      assert d[0] == b;
      if b > HOLE_END {
        var rest := Blocks(start, b, h + 1);
        HoleIff(start, b, h + 1, rest);
        assert Above(top) == 1 + Above(b);
        assert d[1..] == rest && AvoidsHole(b);
        forall i | 0 <= i < |rest| ensures rest[i] == d[i + 1] {
        }
        assert (forall i :: 0 <= i < |d| ==> AvoidsHole(d[i]))
            <==> (forall i :: 0 <= i < |rest| ==> AvoidsHole(rest[i]));
      } else {
        assert !AvoidsHole(d[0]);
      }
    }
  }

  /** The layout, for every start and end: data blocks are pairwise disjoint, clear of every header and below the end;
      they stay clear of [0xa0000, 0x100000) if and only if `HoleIsClear`. */
  lemma Layout(start: nat, bufferEnd: nat)
    ensures var d := AllBlocks(start, bufferEnd);
            && (forall i, j :: 0 <= i < j < |d| ==> Apart(d[i], BLOCK_SIZE, d[j], BLOCK_SIZE))
            && (forall i, k :: 0 <= i < |d| && 0 <= k < |d| ==> Apart(d[i], BLOCK_SIZE, HeadAt(start, k), 36))
            && (forall i :: 0 <= i < |d| ==> d[i] + BLOCK_SIZE <= bufferEnd)
            && ((forall i :: 0 <= i < |d| ==> AvoidsHole(d[i])) <==> HoleIsClear(start, bufferEnd))
  {
    var d := AllBlocks(start, bufferEnd);
    BlocksDescend(start, FirstTop(bufferEnd), 0, d);
    HoleIff(start, FirstTop(bufferEnd), 0, d);
    forall i, k | 0 <= i < |d| && 0 <= k < |d| ensures Apart(d[i], BLOCK_SIZE, HeadAt(start, k), 36) {
      assert HeadAt(start, |d|) <= d[i];
    }
  }

  // ----- filling the headers

  ghost predicate Unused(h: Head) {
    h.b.dev == 0 && h.b.count == 0 && !h.b.dirt && !h.b.lock && !h.b.uptodate && h.prev == None && h.next == None
  }

  /** Links as the loop leaves them, before the ends are joined. */
  ghost predicate InLine(heads: seq<Head>, i: nat)
    requires i < |heads|
  {
    Unused(heads[i]) && heads[i].nextFree == i + 1 && (i > 0 ==> heads[i].prevFree == i - 1)
  }

  /** The loop of `buffer_init` and the joining of the ring; at least one block must fit. */
  method Fill(start: nat, bufferEnd: nat) returns (heads: seq<Head>, data: seq<nat>)
    requires AllBlocks(start, bufferEnd) != []
    ensures data == AllBlocks(start, bufferEnd) && |heads| == |data|
    ensures forall i :: 0 <= i < |heads| ==> Unused(heads[i])
    ensures RingIs(Links(heads, 0, seq(NR_HASH, _ => None)), seq(|heads|, i => i))
  {
    var b: nat := if bufferEnd == 0x100000 then 640 * 1024 else bufferEnd;
    heads, data := [], [];
    while b >= BLOCK_SIZE && b - BLOCK_SIZE >= HeadAt(start, |heads| + 1)
      invariant |heads| == |data|
      invariant data + Blocks(start, b, |heads|) == AllBlocks(start, bufferEnd)
      invariant forall i :: 0 <= i < |heads| ==> InLine(heads, i)
      decreases b
    {
      ghost var top := b;
      var h, blocknr: nat := |heads|, *;      // b_blocknr is not initialised
      b := b - BLOCK_SIZE;
      var head := Head(Buf(0, blocknr, 0, false, false, false), None, None, if h > 0 then h - 1 else 0, h + 1);
      OneMoreHeader(heads, head);
      OneMoreBlock(start, top, h, data);
      heads := heads + [head];
      data := data + [b];
      if b == 0x100000 {
        b := 0xa0000;
      }
    }
    assert data + [] == data;
    var last := |heads| - 1;
    ghost var line := heads;
    heads := heads[0 := heads[0].(prevFree := last)];
    heads := heads[last := heads[last].(nextFree := 0)];
    EndsJoined(line, heads);
  }

  lemma OneMoreHeader(line: seq<Head>, head: Head)
    requires forall i :: 0 <= i < |line| ==> InLine(line, i)
    requires Unused(head) && head.nextFree == |line| + 1 && (|line| > 0 ==> head.prevFree == |line| - 1)
    ensures forall i :: 0 <= i < |line| + 1 ==> InLine(line + [head], i)
  {
    forall i | 0 <= i < |line| + 1 ensures InLine(line + [head], i) {
      assert i < |line| ==> InLine(line, i);
    }
  }

  lemma OneMoreBlock(start: nat, top: nat, h: nat, data: seq<nat>)
    requires Fits(start, top, h)
    ensures data + Blocks(start, top, h) == data + [top - BLOCK_SIZE] + Blocks(start, SkipHole(top - BLOCK_SIZE), h + 1)
  {
  }

  lemma EndsJoined(line: seq<Head>, heads: seq<Head>)
    requires line != [] && forall i :: 0 <= i < |line| ==> InLine(line, i)
    requires var joined := line[0 := line[0].(prevFree := |line| - 1)];
             heads == joined[|line| - 1 := joined[|line| - 1].(nextFree := 0)]
    ensures forall i :: 0 <= i < |heads| ==> Unused(heads[i])
    ensures RingIs(Links(heads, 0, seq(NR_HASH, _ => None)), seq(|heads|, i => i))
  {
    var s, r := Links(heads, 0, seq(NR_HASH, _ => None)), seq(|heads|, i => i);
    forall i | 0 <= i < |r| ensures Linked(s, r[i], r[Succ(i, |r|)]) {
      assert InLine(line, i) && InLine(line, Succ(i, |r|));
    }
    forall i | 0 <= i < |heads| ensures Unused(heads[i]) {
      assert InLine(line, i);
    }
  }

  /** With the hash table cleared, the fresh headers represent an empty cache in header order. */
  lemma FreshCache(heads: seq<Head>)
    requires heads != [] && forall i :: 0 <= i < |heads| ==> Unused(heads[i])
    requires RingIs(Links(heads, 0, seq(NR_HASH, _ => None)), seq(|heads|, i => i))
    ensures Represents(Links(heads, 0, seq(NR_HASH, _ => None)), seq(|heads|, i => i), seq(NR_HASH, _ => []))
  {
    var s, cs := Links(heads, 0, seq(NR_HASH, _ => None)), seq(NR_HASH, _ => []);
    forall w | 0 <= w < NR_HASH ensures ChainIs(s, w, cs[w]) {
    }
    forall b | 0 <= b < |heads| ensures Indexed(s, cs, b) {
    }
  }
}
