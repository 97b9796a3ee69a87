/**
 What each conversion of `vsprintf` shows, in plain words: the number base and sign of each conversion character, what
 every flag does to the text, where strings are cut, and what `%n` stores.
 */
module Conversions {
  import opened Common
  import opened Printer
  import opened Formatter

  ghost predicate AllAre(s: string, c: char) { forall i :: 0 <= i < |s| ==> s[i] == c }

  // ----- flags

  lemma OneFlag(f: Flags, a: char, g: Flags)
    requires g == SetFlag(f, a)
    ensures g.left == (f.left || a == '-') && g.plus == (f.plus || a == '+') && g.space == (f.space || a == ' ')
    ensures g.special == (f.special || a == '#') && g.zeropad == (f.zeropad || a == '0')
    ensures g.sign == f.sign && g.small == f.small
  {
    if a == '-' {
    } else if a == '+' {
    } else if a == ' ' {
    } else if a == '#' {
    } else if a == '0' {
    }
  }

  lemma InRest(s: string, c: char)
    requires s != ""
    ensures c in s <==> s[0] == c || c in s[1..]
  {
    assert s == [s[0]] + s[1..];
  }

  lemma {:induction false} FlagsMean(flags: string, f: Flags, r: Flags)
    requires r == FlagsOf(flags, f)
    ensures r.left == (f.left || '-' in flags) && r.plus == (f.plus || '+' in flags)
    ensures r.space == (f.space || ' ' in flags) && r.special == (f.special || '#' in flags)
    ensures r.zeropad == (f.zeropad || '0' in flags) && r.sign == f.sign && r.small == f.small
  {
    if flags != "" {
      var g := SetFlag(f, flags[0]);
      OneFlag(f, flags[0], g);
      FlagsMean(flags[1..], g, r);
      InRest(flags, '-');
      InRest(flags, '+');
      InRest(flags, ' ');
      InRest(flags, '#');
      InRest(flags, '0');
    }
  }

  /** What each flag character stands for; flags add up in any order. */
  lemma AllFlagsMean(flags: string, f: Flags)
    requires f == FlagsOf(flags, NO_FLAGS)
    ensures f.left == ('-' in flags) && f.plus == ('+' in flags) && f.space == (' ' in flags)
    ensures f.special == ('#' in flags) && f.zeropad == ('0' in flags) && !f.sign && !f.small
  {
    FlagsMean(flags, NO_FLAGS, f);
  }

  // ----- digits

  ghost predicate GoodDigit(c: char, lower: bool) {
    '0' <= c <= '9' || if lower then 'a' <= c <= 'z' else 'A' <= c <= 'Z'
  }

  lemma {:induction false} DigitsShow(n: nat, base: nat, lower: bool)
    requires 2 <= base <= 36
    ensures var d := Digits(n, base, lower);
            d != "" && (if n == 0 then d == "0" else d[0] != '0') && forall i :: 0 <= i < |d| ==> GoodDigit(d[i], lower)
    decreases n
  {
    DivMod(n, base);
    if n >= base {
      DigitsShow(n / base, base, lower);
    }
  }

  lemma DigitsRead(n: nat, base: nat, lower: bool)
    requires 2 <= base <= 36
    ensures ReadDigits(Digits(n, base, lower), base, 0) == n
  {
    ReadDigitsBack(n, base, lower, "");
    assert Digits(n, base, lower) + "" == Digits(n, base, lower);
  }

  // ----- one specification

  /** The format that consists of the specification alone. */
  lemma AloneMeans(item: Item, arg: Arg)
    requires Proper(item) && item.Conversion? && !HasStar(item)
    ensures Format(Spelling(item), [arg]) ==
            ArgText(item.kind, arg, WidthOf(item.width), PrecisionOf(item.precision), FlagsOf(item.flags, NO_FLAGS))
  {
    var out := ArgText(item.kind, arg, WidthOf(item.width), PrecisionOf(item.precision), FlagsOf(item.flags, NO_FLAGS));
    FormatIsMeaning([item], [arg]);
    assert Spellings([item]) == Spelling(item) + "" == Spelling(item);
    assert Meaning([item][1..], [arg][1..]) == Some(Text(""));
    if out.Some? {
      AtEnd(out.value);
    }
  }

  // ----- numbers

  /** `%o` is octal, `%x`, `%X` and `%p` are hexadecimal, all others decimal. */
  function Radix(kind: char): nat {
    if kind == 'o' then 8 else if kind == 'x' || kind == 'X' || kind == 'p' then 16 else 10
  }

  predicate IsNumber(k: char) { k == 'o' || k == 'p' || k == 'x' || k == 'X' || k == 'd' || k == 'i' || k == 'u' }

  /** `%d` and `%i` are signed; the others show the word as unsigned. */
  ghost function Shows(kind: char, n: Int32): nat {
    var v: int := n;
    if v >= 0 then v else if kind == 'd' || kind == 'i' then -v else v + 0x1_0000_0000
  }

  ghost function SignOf(kind: char, n: Int32, flags: string): string {
    if (kind == 'd' || kind == 'i') && n < 0 then "-"
    else if '+' in flags then "+" else if ' ' in flags then " " else ""
  }

  ghost function PrefixOf(kind: char, flags: string): string {
    if '#' !in flags then "" else if kind == 'o' then "0" else if kind == 'x' then "0x"
    else if kind == 'X' || kind == 'p' then "0X" else ""
  }

  /** `%p` without a width is eight digits wide, filled with zeros. */
  ghost function WidthUsed(kind: char, width: int): int { if kind == 'p' && width == -1 then 8 else width }

  ghost predicate FillsWithZeros(kind: char, width: int, flags: string) {
    '-' !in flags && ('0' in flags || (kind == 'p' && width == -1))
  }

  datatype Pieces =
    Pieces(lead: string, sign: string, prefix: string, fill: string, zeros: string, digits: string, tail: string)

  function Joined(p: Pieces): string { p.lead + (p.sign + (p.prefix + (p.fill + (p.zeros + (p.digits + p.tail))))) }

  /** The digits are those of the value, without leading zeros, with small letters for `%x` only. */
  ghost predicate DigitsOf(digits: string, kind: char, n: Int32) {
    && ReadDigits(digits, Radix(kind), 0) == Shows(kind, n)
    && digits != "" && (digits[0] == '0' ==> digits == "0")
    && forall i :: 0 <= i < |digits| ==> GoodDigit(digits[i], kind == 'x')
  }

  /** Blanks stand in front, or behind with `-`; zeros fill the width instead with `0`. */
  ghost predicate FilledBy(p: Pieces, kind: char, flags: string, width: int) {
    && AllAre(p.lead, ' ') && AllAre(p.fill, '0') && AllAre(p.tail, ' ')
    && (p.tail != "" ==> '-' in flags) && (p.fill != "" ==> FillsWithZeros(kind, width, flags))
    && (p.lead != "" ==> '-' !in flags && !FillsWithZeros(kind, width, flags))
  }

  /** How the number `n` must look: sign, prefix, filling, zeros up to the precision and digits, as wide as asked. */
  ghost predicate Looks(p: Pieces, kind: char, n: Int32, flags: string, width: int, precision: int) {
    && p.sign == SignOf(kind, n, flags) && p.prefix == PrefixOf(kind, flags)
    && DigitsOf(p.digits, kind, n) && FilledBy(p, kind, flags, width)
    && AllAre(p.zeros, '0') && |p.zeros| + |p.digits| == Max(precision, |p.digits|)
    && |Joined(p)| == Max(WidthUsed(kind, width), |p.sign| + |p.prefix| + |p.zeros| + |p.digits|)
  }

  lemma CallIs(kind: char, width: Int32, flags: string, c: Call)
    requires IsNumber(kind) && c == NumberCall(kind, width, FlagsOf(flags, NO_FLAGS))
    ensures c.base == Radix(kind) && c.width == WidthUsed(kind, width) && c.f.small == (kind == 'x')
    ensures c.f.sign == (kind == 'd' || kind == 'i') && c.f.left == ('-' in flags)
    ensures (c.f.zeropad && !c.f.left) == FillsWithZeros(kind, width, flags)
    ensures c.f.plus == ('+' in flags) && c.f.space == (' ' in flags) && c.f.special == ('#' in flags)
  {
    AllFlagsMean(flags, FlagsOf(flags, NO_FLAGS));
  }

  lemma MagnitudeIs(kind: char, n: Int32, f: Flags)
    requires f.sign == (kind == 'd' || kind == 'i')
    ensures Magnitude(n, f) == Shows(kind, n)
  {
  }

  lemma DigitsAre(kind: char, n: Int32, digits: string)
    requires IsNumber(kind) && digits == Digits(Shows(kind, n), Radix(kind), kind == 'x')
    ensures DigitsOf(digits, kind, n)
  {
    DigitsShow(Shows(kind, n), Radix(kind), kind == 'x');
    DigitsRead(Shows(kind, n), Radix(kind), kind == 'x');
  }

  lemma RenderLooks(kind: char, n: Int32, width: Int32, precision: Int32, flags: string, c: Call) returns (p: Pieces)
    requires IsNumber(kind) && c == NumberCall(kind, width, FlagsOf(flags, NO_FLAGS))
    ensures Render(n, c.base, c.width, precision, c.f) == Joined(p) && Looks(p, kind, n, flags, width, precision)
  {
    CallIs(kind, width, flags, c);
    p := RenderJoined(n, c.base, c.width, precision, c.f);
    MagnitudeIs(kind, n, c.f);
    DigitsAre(kind, n, p.digits);
    SignAndPrefix(kind, n, flags, c);
    FillingIs(p, kind, flags, width, c.f);
  }

  lemma FillingIs(p: Pieces, kind: char, flags: string, width: int, f: Flags)
    requires f.left == ('-' in flags) && (f.zeropad && !f.left) == FillsWithZeros(kind, width, flags) && Filled(p, f)
    ensures FilledBy(p, kind, flags, width)
  {
  }

  lemma SignAndPrefix(kind: char, n: Int32, flags: string, c: Call)
    requires IsNumber(kind) && c.base == Radix(kind) && c.f.small == (kind == 'x')
    requires c.f.sign == (kind == 'd' || kind == 'i')
    requires c.f.plus == ('+' in flags) && c.f.space == (' ' in flags) && c.f.special == ('#' in flags)
    ensures SignText(n, c.f) == SignOf(kind, n, flags) && Prefix(c.base, c.f) == PrefixOf(kind, flags)
  {
  }

  ghost predicate Filled(p: Pieces, f: Flags) {
    && AllAre(p.lead, ' ') && AllAre(p.fill, '0') && AllAre(p.tail, ' ')
    && (p.tail != "" ==> f.left) && (p.fill != "" ==> f.zeropad && !f.left) && (p.lead != "" ==> !f.zeropad && !f.left)
  }

  /** The text of `number` in pieces. */
  lemma RenderJoined(n: Int32, base: nat, width: int, precision: int, f: Flags) returns (p: Pieces)
    requires 2 <= base <= 36
    ensures Render(n, base, width, precision, f) == Joined(p)
    ensures p.sign == SignText(n, f) && p.prefix == Prefix(base, f)
    ensures p.digits == Digits(Magnitude(n, f), base, f.small)
    ensures Filled(p, f) && AllAre(p.zeros, '0') && |p.zeros| + |p.digits| == Max(precision, |p.digits|)
    ensures |Joined(p)| == Max(width, |p.sign| + |p.prefix| + |p.zeros| + |p.digits|)
  {
    var d := Digits(Magnitude(n, f), base, f.small);
    var zeros := Repeat('0', precision - |d|);
    var pad := width - |SignText(n, f) + Prefix(base, f)| - |Body(n, base, precision, f)|;
    var lead := if f.left || f.zeropad then 0 else pad;
    var fill := if !f.left && f.zeropad then pad else 0;
    var tail := if f.left then pad else 0;
    p := Pieces(Repeat(' ', lead), SignText(n, f), Prefix(base, f), Repeat('0', fill), zeros, d, Repeat(' ', tail));
    TailFirst(p.fill, zeros, d, p.tail);
    RenderPieces(n, base, width, precision, f, lead, fill, tail, Joined(p));
    LengthIs(n, base, width, precision, f, p);
  }

  lemma LengthIs(n: Int32, base: nat, width: int, precision: int, f: Flags, p: Pieces)
    requires 2 <= base <= 36 && Render(n, base, width, precision, f) == Joined(p)
    requires p.sign == SignText(n, f) && p.prefix == Prefix(base, f)
    requires p.digits == Digits(Magnitude(n, f), base, f.small) && p.zeros == Repeat('0', precision - |p.digits|)
    ensures |p.zeros| + |p.digits| == Max(precision, |p.digits|)
    ensures |Joined(p)| == Max(width, |p.sign| + |p.prefix| + |p.zeros| + |p.digits|)
  {
    RenderLength(n, base, width, precision, f);
  }

  lemma NumberIs(kind: char, n: Int32, width: Int32, precision: Int32, f: Flags, c: Call)
    requires IsNumber(kind) && c == NumberCall(kind, width, f) && width >= -1 && precision <= 0x7fff_fff9
    ensures ArgText(kind, IntArg(n), width, precision, f) == Some(Text(Render(n, c.base, c.width, precision, c.f)))
  {
    CounterFitsWidely(n, c.base, c.width, precision, c.f);
  }

  lemma Bounds(item: Item)
    requires Proper(item) && item.Conversion? && !HasStar(item)
    requires item.precision.DotNumber? ==> item.precision.n <= 0x7fff_fff9
    ensures -1 <= WidthOf(item.width) <= 0x7fff_ffff && -1 <= PrecisionOf(item.precision) <= 0x7fff_fff9
  {
  }

  /** Every number conversion, with all flags, widths, precisions and qualifiers, shows its argument in its own base
      and sign. */
  lemma NumberShown(item: Item, n: Int32) returns (p: Pieces)
    requires Proper(item) && item.Conversion? && !HasStar(item) && IsNumber(item.kind)
    requires item.precision.DotNumber? ==> item.precision.n <= 0x7fff_fff9
    ensures Format(Spelling(item), [IntArg(n)]) == Some(Output(Joined(p), []))
    ensures Looks(p, item.kind, n, item.flags, WidthOf(item.width), PrecisionOf(item.precision))
  {
    Bounds(item);
    var width, precision, f := WidthOf(item.width), PrecisionOf(item.precision), FlagsOf(item.flags, NO_FLAGS);
    AloneMeans(item, IntArg(n));
    var c := NumberCall(item.kind, width, f);
    NumberIs(item.kind, n, width, precision, f, c);
    p := RenderLooks(item.kind, n, width, precision, item.flags, c);
  }

  lemma JoinedLength(p: Pieces)
    ensures |Joined(p)| == |p.lead| + |p.sign| + |p.prefix| + |p.fill| + |p.zeros| + |p.digits| + |p.tail|
  {
  }

  lemma JoinedBare(p: Pieces)
    requires p.lead == "" && p.prefix == "" && p.fill == "" && p.zeros == "" && p.tail == ""
    ensures Joined(p) == p.sign + p.digits
  {
    assert p.digits + "" == p.digits && "" + p.digits == p.digits;
  }

  /** Without flags, width and precision: the sign of a negative `%d` or `%i`, and the digits. */
  lemma PlainNumber(kind: char, n: Int32) returns (digits: string)
    requires IsNumber(kind) && kind != 'p'
    ensures Format(['%', kind], [IntArg(n)]) ==
            Some(Output((if (kind == 'd' || kind == 'i') && n < 0 then "-" else "") + digits, []))
    ensures ReadDigits(digits, Radix(kind), 0) == Shows(kind, n)
    ensures forall i :: 0 <= i < |digits| ==> GoodDigit(digits[i], kind == 'x')
  {
    var item := Conversion("", NoWidth, Absent, None, kind);
    var p := NumberShown(item, n);
    BareSpelling(kind);
    JoinedLength(p);
    JoinedBare(p);
    digits := p.digits;
  }

  lemma BareSpelling(kind: char)
    ensures Spelling(Conversion("", NoWidth, Absent, None, kind)) == ['%', kind]
  {
  }

  // ----- characters, strings, counts

  /** Blanks stand in front of the text, or behind it with `-`, up to the width. */
  ghost predicate Padded(out: string, lead: string, shown: string, tail: string, flags: string, width: int) {
    && out == lead + shown + tail && AllAre(lead, ' ') && AllAre(tail, ' ')
    && (lead != "" ==> '-' !in flags) && (tail != "" ==> '-' in flags) && |out| == Max(width, |shown|)
  }

  /** A precision of `k` keeps the first `k` characters, a lone dot none. */
  ghost predicate CutTo(shown: string, s: string, precision: Precision) {
    match precision
    case Absent => shown == s
    case Dot => shown == ""
    case DotNumber(k) => shown <= s && |shown| == if k < |s| then k else |s|
    case DotStar => true
  }

  lemma PadBy(shown: string, flags: string, width: int, pad: string) returns (out: string, lead: string, tail: string)
    requires pad == Repeat(' ', width - |shown|)
    ensures Padded(out, lead, shown, tail, flags, width) && out == if '-' in flags then shown + pad else pad + shown
  {
    lead, tail := if '-' in flags then "" else pad, if '-' in flags then pad else "";
    out := lead + shown + tail;
    assert "" + shown == shown && (pad + shown) + "" == pad + shown;
  }

  /** `%c` shows the character whose code is the argument's low byte. */
  lemma CharShown(item: Item, n: Int32) returns (out: string, lead: string, tail: string)
    requires Proper(item) && item.Conversion? && !HasStar(item) && item.kind == 'c'
    ensures Format(Spelling(item), [IntArg(n)]) == Some(Output(out, []))
    ensures Padded(out, lead, [(n % 256) as char], tail, item.flags, WidthOf(item.width))
  {
    AloneMeans(item, IntArg(n));
    AllFlagsMean(item.flags, FlagsOf(item.flags, NO_FLAGS));
    var c, width := (n % 256) as char, WidthOf(item.width);
    out, lead, tail := PadBy([c], item.flags, width, Repeat(' ', width - 1));
    assert ToChar(n) == c;
  }

  lemma StringPieces(s: string, width: Int32, precision: Int32, f: Flags, shown: string, pad: string)
    requires shown == (if 0 <= precision < |s| then s[..precision] else s) && pad == Repeat(' ', width - |shown|)
    requires width >= -1
    ensures ArgText('s', StrArg(s), width, precision, f) == Some(Text(if f.left then shown + pad else pad + shown))
  {
  }

  /** `%s` shows the string, cut to the precision if there is one. */
  lemma StringShown(item: Item, s: string) returns (out: string, lead: string, shown: string, tail: string)
    requires Proper(item) && item.Conversion? && !HasStar(item) && item.kind == 's'
    ensures Format(Spelling(item), [StrArg(s)]) == Some(Output(out, []))
    ensures Padded(out, lead, shown, tail, item.flags, WidthOf(item.width)) && CutTo(shown, s, item.precision)
  {
    AloneMeans(item, StrArg(s));
    var f, width, precision := FlagsOf(item.flags, NO_FLAGS), WidthOf(item.width), PrecisionOf(item.precision);
    AllFlagsMean(item.flags, f);
    shown := if 0 <= precision < |s| then s[..precision] else s;
    var pad := Repeat(' ', width - |shown|);
    out, lead, tail := PadBy(shown, item.flags, width, pad);
    StringPieces(s, width, precision, f, shown, pad);
  }

  /** `%n` shows nothing and stores how many characters were shown before it; whatever follows counts on from there. */
  lemma CountShown(t: string, rest: string, args: seq<Arg>, r: Option<Output>)
    requires forall i :: 0 <= i < |t| ==> t[i] != '%'
    requires args != [] && args[0].CountArg? && r == Format(rest, args[1..])
    ensures r.None? ==> Format(t + ("%n" + rest), args) == None
    ensures r.Some? ==>
              && Format(t + ("%n" + rest), args).Some?
              && var out := Format(t + ("%n" + rest), args).value;
                 && out.text == t + r.value.text && |out.counts| == 1 + |r.value.counts| && out.counts[0] == |t|
                 && forall i :: 0 <= i < |r.value.counts| ==> out.counts[i + 1] == |t| + r.value.counts[i]
  {
    PlainText(t, "%n" + rest, args);
    CountHere(rest, args, r);
    if r.Some? {
      CountFirst(t, r.value);
    }
  }

  lemma CountHere(rest: string, args: seq<Arg>, r: Option<Output>)
    requires args != [] && args[0].CountArg? && r == Format(rest, args[1..])
    ensures Format("%n" + rest, args) == Prepend(Output("", [0]), r)
  {
    var item := Conversion("", NoWidth, Absent, None, 'n');
    DirectiveBack(item, rest, args);
    BareSpelling('n');
    assert (['n'] + rest)[1..] == rest;
  }

  lemma CountFirst(t: string, r: Output)
    ensures var out := Then(Text(t), Then(Output("", [0]), r));
            && out.text == t + r.text && |out.counts| == 1 + |r.counts| && out.counts[0] == |t|
            && forall i :: 0 <= i < |r.counts| ==> out.counts[i + 1] == |t| + r.counts[i]
  {
    assert "" + r.text == r.text;
  }

  // ----- everything else

  /** Any other character after `%` is shown with the `%`. */
  lemma UnknownShown(k: char, rest: string, args: seq<Arg>)
    requires k !in "csopxXdiun" && k !in "-+ #0123456789.*hlL%"
    ensures Format(['%', k] + rest, args) == Prepend(Text(['%', k]), Format(rest, args))
  {
    var s := [k] + rest;
    assert (['%', k] + rest)[1..] == s && s[1..] == rest;
    assert ReadFlags(s, NO_FLAGS) == (NO_FLAGS, s);
    assert !IsDecimal(k) && ReadNumber(s) == (-1, s);
  }

  /** A format that ends after `%` shows the `%`. */
  lemma PercentAtEnd(args: seq<Arg>)
    ensures Format("%", args) == Some(Output("%", []))
  {
    assert "%"[1..] == "";
    assert ReadDirective("", args) == Some(Directive(NO_FLAGS, -1, -1, "", args));
    assert Format("", args) == Some(Text(""));
    AtEnd(Text("%"));
  }
}
