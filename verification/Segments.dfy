/** Segment descriptors and the placement of address spaces (`get_base`, `set_base`, `copy_mem`). */
module Segments {
  import opened Common
  import opened Paging

  /** The two words of a descriptor. */
  datatype Words = Words(a: bv32, b: bv32)

  /** `get_base`. */
  function GetBase(d: Words): bv32 { (d.a >> 16) | ((d.b & 0xff) << 16) | (d.b & 0xff000000) }

  function NewLow(a: bv32, base: bv32): bv32 { (a & 0x0000ffff) | ((base & 0xffff) << 16) }

  function NewHigh(b: bv32, base: bv32): bv32 {
    (((b & 0xffffff00) | ((base & 0xff0000) >> 16)) & 0x00ffffff) | (base & 0xff000000)
  }

  function WithBase(d: Words, base: bv32): Words { Words(NewLow(d.a, base), NewHigh(d.b, base)) }

  /** `get_limit`: what `lsl` loads, plus one; bit 23 of the second word is the granularity bit. */
  function GetLimit(d: Words): bv32 { LimitFrom(d.a & 0xffff, d.b & 0xf0000, d.b & 0x800000) }

  function LimitFrom(low: bv32, high: bv32, granularity: bv32): bv32 {
    (if granularity != 0 then ((low | high) << 12) | 0xfff else low | high) + 1
  }

  class Descriptor {
    var a: bv32
    var b: bv32

    /** `set_base`. */
    method SetBase(base: bv32)
      modifies this
      ensures Words(a, b) == WithBase(old(Words(a, b)), base)
    {
      var low := (a & 0x0000ffff) | ((base & 0xffff) << 16);
      var middle := (b & 0xffffff00) | ((base & 0xff0000) >> 16);
      var high := (middle & 0x00ffffff) | (base & 0xff000000);
      assert low == NewLow(a, base) && high == NewHigh(b, base);
      a := low;
      b := middle;
      b := high;
    }
  }

  /** Where `set_base` puts the base: bytes 0 and 1 in the upper half of the first word, byte 2 lowest and byte 3
      highest in the second, as the processor reads them. */
  lemma BaseFields(a: bv32, b: bv32, base: bv32)
    ensures WithBase(Words(a, b), base).a >> 16 == base & 0xffff
    ensures WithBase(Words(a, b), base).b & 0xff == (base >> 16) & 0xff
    ensures WithBase(Words(a, b), base).b >> 24 == base >> 24
  {
    LowField(a, base);
    MiddleField(b, base);
    HighField(b, base);
  }

  lemma LowField(a: bv32, base: bv32)
    ensures NewLow(a, base) >> 16 == base & 0xffff
  {
  }

  lemma MiddleField(b: bv32, base: bv32)
    ensures NewHigh(b, base) & 0xff == (base >> 16) & 0xff
  {
  }

  lemma HighField(b: bv32, base: bv32)
    ensures NewHigh(b, base) >> 24 == base >> 24
  {
  }

  lemma LowKeepsLimit(a: bv32, base: bv32)
    ensures NewLow(a, base) & 0xffff == a & 0xffff
  {
  }

  lemma HighKeepsAttributes(b: bv32, base: bv32)
    ensures NewHigh(b, base) & 0x00ffff00 == b & 0x00ffff00
    ensures NewHigh(b, base) & 0xf0000 == b & 0xf0000 && NewHigh(b, base) & 0x800000 == b & 0x800000
  {
  }

  lemma BaseIsReadBack(a: bv32, b: bv32, base: bv32)
    ensures GetBase(Words(NewLow(a, base), NewHigh(b, base))) == base
  {
  }

  /** The base is read back, and limit, type, privilege and granularity bits are as before. */
  lemma BaseRoundTrip(a: bv32, b: bv32, base: bv32)
    ensures GetBase(WithBase(Words(a, b), base)) == base
    ensures WithBase(Words(a, b), base).a & 0xffff == a & 0xffff
    ensures WithBase(Words(a, b), base).b & 0x00ffff00 == b & 0x00ffff00
  {
    LowKeepsLimit(a, base);
    HighKeepsAttributes(b, base);
    BaseIsReadBack(a, b, base);
  }

  /** The code and data descriptors of `INIT_TASK`. */
  const INIT_CODE := Words(0x9f, 0xc0fa00)

  const INIT_DATA := Words(0x9f, 0xc0f200)

  /** All that is not base agrees: the limit in its two places, granularity, and the type and privilege bits. */
  predicate SameAttributes(d: Words, e: Words) { d.a & 0xffff == e.a & 0xffff && d.b & 0x00ffff00 == e.b & 0x00ffff00 }

  /** `set_base` on a descriptor whose attributes are those of `first`. */
  lemma SetBaseStep(first: Words, d: Words, base: bv32, e: Words)
    requires SameAttributes(d, first) && e == WithBase(d, base)
    ensures SameAttributes(e, first) && GetBase(e) == base
  {
    BaseRoundTrip(d.a, d.b, base);
  }

  /** A descriptor after a line of forks, each writing its own base. */
  function Descendant(first: Words, bases: seq<bv32>): Words {
    if bases == [] then first else WithBase(Descendant(first, bases[..|bases| - 1]), bases[|bases| - 1])
  }

  /** However many forks lie between, a descriptor keeps limit and attributes, and its base is the last one written. */
  lemma {:induction false} LimitIsInherited(first: Words, bases: seq<bv32>)
    ensures SameAttributes(Descendant(first, bases), first)
    ensures bases != [] ==> GetBase(Descendant(first, bases)) == bases[|bases| - 1]
  {
    if bases != [] {
      var before, base := bases[..|bases| - 1], bases[|bases| - 1];
      LimitIsInherited(first, before);
      SetBaseStep(first, Descendant(first, before), base, Descendant(first, bases));
    }
  }

  /** The limit fields of `INIT_TASK` say 640 KB. */
  lemma Limit640K(d: Words)
    requires d.a & 0xffff == 0x9f && (d.b & 0x00ffff00 == 0x00c0fa00 || d.b & 0x00ffff00 == 0x00c0f200)
    ensures GetLimit(d) == 0xa0000
  {
  }

  /** The two tests of `copy_mem` that panic. */
  predicate CopyMemPanics(code: Words, data: Words) {
    GetBase(data) != GetBase(code) || GetLimit(data) < GetLimit(code)
  }

  /** In every descendant of `INIT_TASK` code and data agree: `copy_mem` never panics, and copies 640 KB from the base
      the last fork wrote. */
  lemma CopyMemNeverPanics(bases: seq<bv32>)
    ensures var code, data := Descendant(INIT_CODE, bases), Descendant(INIT_DATA, bases);
            && !CopyMemPanics(code, data) && GetLimit(data) == 0xa0000
            && GetBase(data) == if bases == [] then 0 else bases[|bases| - 1]
  {
    LimitIsInherited(INIT_CODE, bases);
    LimitIsInherited(INIT_DATA, bases);
    Limit640K(Descendant(INIT_CODE, bases));
    Limit640K(Descendant(INIT_DATA, bases));
  }

  /** Descriptors with different bases panic, whatever else they hold. */
  lemma UnequalBasesPanic(code: Words, data: Words, base: bv32, base': bv32)
    requires base != base'
    ensures CopyMemPanics(WithBase(code, base), WithBase(data, base'))
  {
    BaseRoundTrip(code.a, code.b, base);
    BaseRoundTrip(data.a, data.b, base');
  }

  /** One page less of data than of code panics, one more does not; without granularity the limit counts bytes. */
  lemma SmallDataPanics()
    ensures CopyMemPanics(INIT_CODE, Words(0x9e, 0xc0f200)) && !CopyMemPanics(INIT_CODE, Words(0xa0, 0xc0f200))
    ensures GetLimit(Words(0x9f, 0x40fa00)) == 0xa0
  {
  }

  // ----- windows

  /** `nr * TASK_SIZE` in `copy_mem`. */
  function BaseOf(nr: nat): (base: Word)
    requires nr < NR_TASKS
    ensures base % PDE_SPAN == 0
  {
    nr * TASK_SIZE
  }

  /** The sixteen directory entries of a slot serve its addresses and no other slot's. */
  lemma WindowsAreDisjoint(nr: nat, offset: nat, nr': nat, offset': nat)
    requires nr < NR_TASKS && offset < TASK_SIZE && nr' < NR_TASKS && offset' < TASK_SIZE
    ensures 16 * nr <= DirOf(BaseOf(nr) + offset) < 16 * nr + 16
    ensures DirOf(BaseOf(nr) + offset) == DirOf(BaseOf(nr') + offset') ==> nr == nr'
  {
    WindowOf(nr, offset);
    WindowOf(nr', offset');
  }

  lemma WindowOf(nr: nat, offset: nat)
    requires nr < NR_TASKS && offset < TASK_SIZE
    ensures DirOf(BaseOf(nr) + offset) == 16 * nr + offset / PDE_SPAN && offset / PDE_SPAN < 16
  {
  }
}
