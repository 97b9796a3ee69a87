/** `number` and `skip_atoi` of `kernel/vsprintf.c`, and a reader that takes the printed number back. */
module Printer {
  datatype Flags = Flags(zeropad: bool, sign: bool, plus: bool, space: bool, left: bool, special: bool, small: bool)

  const WORD: int := 0x1_0000_0000

  type Int32 = n: int | -0x8000_0000 <= n < 0x8000_0000

  // ----- digits

  function DigitChar(v: nat, small: bool): char
    requires v < 36
  {
    if v < 10 then ('0' as int + v) as char
    else if small then ('a' as int + v - 10) as char
    else ('A' as int + v - 10) as char
  }

  /** The value of a digit, 36 for anything else. */
  function DigitValue(c: char): nat {
    if '0' <= c <= '9' then c as int - '0' as int
    else if 'a' <= c <= 'z' then c as int - 'a' as int + 10
    else if 'A' <= c <= 'Z' then c as int - 'A' as int + 10
    else 36
  }

  lemma DivMod(n: nat, base: nat)
    requires base >= 2
    ensures n == n / base * base + n % base && n % base < base && (n > 0 ==> n / base < n)
    ensures n / base == 0 <==> n < base
  {
    var q, r := n / base, n % base;
    assert n == q * base + r;
  }

  /** Most significant digit first. */
  function Digits(n: nat, base: nat, small: bool): string
    requires 2 <= base <= 36
  {
    DivMod(n, base);
    if n < base then [DigitChar(n, small)] else Digits(n / base, base, small) + [DigitChar(n % base, small)]
  }

  function Repeat(c: char, n: int): (s: string)
    ensures |s| == if n > 0 then n else 0
    ensures forall i :: 0 <= i < |s| ==> s[i] == c
  {
    if n <= 0 then "" else [c] + Repeat(c, n - 1)
  }

  // ----- the meaning of number

  /** What the digits show: `num` is divided as an unsigned word, so the least int needs no special case. */
  function Magnitude(num: Int32, f: Flags): nat {
    var n: int := num;
    if f.sign && num < 0 then -n else n % WORD
  }

  function SignText(num: Int32, f: Flags): string {
    if f.sign && num < 0 then "-" else if f.plus then "+" else if f.space then " " else ""
  }

  function Prefix(base: nat, f: Flags): string {
    if !f.special then "" else if base == 8 then "0" else if base == 16 then (if f.small then "0x" else "0X") else ""
  }

  function Max(a: int, b: int): int { if a > b then a else b }

  /** The digits, filled with zeros to the precision. */
  function Body(num: Int32, base: nat, precision: int, f: Flags): string
    requires 2 <= base <= 36
  {
    var d := Digits(Magnitude(num, f), base, f.small);
    Repeat('0', precision - |d|) + d
  }

  /** Padding goes before the sign, between prefix and digits, or after, as the flags say. */
  function Render(num: Int32, base: nat, size: int, precision: int, f: Flags): string
    requires 2 <= base <= 36
  {
    var text := SignText(num, f) + Prefix(base, f);
    var body := Body(num, base, precision, f);
    var pad := size - |text| - |body|;
    if f.left then text + body + Repeat(' ', pad)
    else if f.zeropad then text + Repeat('0', pad) + body
    else Repeat(' ', pad) + text + body
  }

  const INT_MIN: int := -0x8000_0000

  /** How often a padding loop takes the counter below 0: once each for leading blanks, fill and trailing blanks. */
  function PaddingLoops(f: Flags): nat { if f.left then 1 else if f.zeropad then 2 else 3 }

  /** The counter that runs from the width down to below 0 stays a 32-bit int; otherwise C leaves the call undefined. */
  predicate CounterFits(num: Int32, base: nat, size: int, precision: int, f: Flags)
    requires 2 <= base <= 36
  {
    size - |SignText(num, f)| - |Prefix(base, f)| - |Body(num, base, precision, f)| - PaddingLoops(f) >= INT_MIN
  }

  /** Only a precision within 6 of 2^31 can make it overflow: any width that is not below -1 is safe otherwise. */
  lemma CounterFitsWidely(num: Int32, base: nat, size: int, precision: int, f: Flags)
    requires 2 <= base <= 36 && size >= -1 && precision <= 0x7fff_fff9
    ensures CounterFits(num, base, size, precision, f)
  {
    AtMost32Digits(num, base, f);
  }

  /** The output is exactly as long as the width or what has to be shown, whichever is more. */
  lemma RenderLength(num: Int32, base: nat, size: int, precision: int, f: Flags)
    requires 2 <= base <= 36
    ensures |Render(num, base, size, precision, f)|
         == Max(size, |SignText(num, f)| + |Prefix(base, f)|
                      + Max(precision, |Digits(Magnitude(num, f), base, f.small)|))
  {
  }

  // ----- at most 32 digit slots

  function Pow2(k: nat): nat { if k == 0 then 1 else 2 * Pow2(k - 1) }

  lemma {:induction false} DigitsBound(n: nat, base: nat, small: bool, k: nat)
    requires 2 <= base <= 36 && 1 <= k && n < Pow2(k)
    ensures 1 <= |Digits(n, base, small)| <= k
    decreases k
  {
    if n >= base {
      assert k > 1 by {
        assert Pow2(1) == 2;
      }
      assert n / base <= n / 2 by {
        DivisionShrinks(n, base);
      }
      DigitsBound(n / base, base, small, k - 1);
    }
  }

  lemma DivisionShrinks(n: nat, base: nat)
    requires base >= 2
    ensures n / base <= n / 2
  {
    assert n / base * base <= n;
    assert n / base * 2 <= n / base * base;
  }

  /** A 32-bit value needs at most 32 digits in any base: `tmp[36]` is never overrun. */
  lemma AtMost32Digits(num: Int32, base: nat, f: Flags)
    requires 2 <= base <= 36
    ensures 1 <= |Digits(Magnitude(num, f), base, f.small)| <= 32
  {
    assert Pow2(32) == WORD by {
      Pow2Values();
    }
    DigitsBound(Magnitude(num, f), base, f.small, 32);
  }

  lemma Pow2Values()
    ensures Pow2(32) == WORD
  {
    assert Pow2(4) == 16;
    assert Pow2(8) == 256;
    assert Pow2(12) == 4096;
    assert Pow2(16) == 65536;
    assert Pow2(20) == 0x10_0000;
    assert Pow2(24) == 0x100_0000;
    assert Pow2(28) == 0x1000_0000;
  }

  // ----- the method

  /** `while (size-- > 0) *str++ = c;` */
  method Pad(str: string, c: char, size: Int32) returns (str': string, size': Int32)
    requires size > INT_MIN
    ensures str' == str + Repeat(c, size) && (size <= 0 ==> str' == str)
    ensures size' == (if size > 0 then -1 else size - 1)
  {
    str', size' := str, size;
    while size' > 0
      invariant size' <= size && (size' >= 0 || size' == size)
      invariant str' == str + Repeat(c, size - size')
    {
      str' := str' + [c];
      size' := size' - 1;
    }
    size' := size' - 1;
  }

  function Reversed(s: string): string { if s == "" then "" else Reversed(s[1..]) + [s[0]] }

  lemma {:induction false} ReversedSnoc(s: string, c: char)
    ensures Reversed(s + [c]) == [c] + Reversed(s)
  {
    if s != "" {
      ReversedSnoc(s[1..], c);
      assert (s + [c])[1..] == s[1..] + [c];
    } else {
      assert "" + [c] == [c];
    }
  }

  /** The digits the loop has still to produce. */
  function Pending(num: nat, base: nat, small: bool): string
    requires 2 <= base <= 36
  {
    if num == 0 then "" else Digits(num, base, small)
  }

  lemma OneMoreDigit(num: nat, base: nat, small: bool, done: string)
    requires 2 <= base <= 36 && num > 0
    ensures var d := DigitChar(num % base, small);
            && Pending(num, base, small) + Reversed(done) == Pending(num / base, base, small) + Reversed(done + [d])
            && |Pending(num, base, small)| == |Pending(num / base, base, small)| + 1
  {
    DivMod(num, base);
    var d := DigitChar(num % base, small);
    ReversedSnoc(done, d);
    assert Pending(num, base, small) == Pending(num / base, base, small) + [d];
  }

  /** `do_div`: quotient and remainder of an unsigned division. */
  method DoDiv(n: nat, base: nat) returns (quotient: nat, remainder: nat)
    requires base >= 2
    ensures quotient == n / base && remainder == n % base && remainder < base && (n > 0 ==> quotient < n)
  {
    DivMod(n, base);
    quotient, remainder := n / base, n % base;
  }

  /** The `do_div` loop: digits into `tmp`, least significant first. */
  method FillDigits(u: nat, base: nat, small: bool, tmp: array<char>) returns (i: nat)
    requires 2 <= base <= 36 && u < WORD && tmp.Length == 36
    modifies tmp
    ensures i == |Digits(u, base, small)| && 1 <= i <= 32 && Reversed(tmp[..i]) == Digits(u, base, small)
  {
    assert Pow2(32) == WORD by {
      Pow2Values();
    }
    DigitsBound(u, base, small, 32);
    var num: nat := u;
    i := 0;
    if num == 0 {
      tmp[i] := '0';
      i := i + 1;
      assert tmp[..1] == "0";
    } else {
      ghost var all := Digits(u, base, small);
      while num != 0
        invariant i + |Pending(num, base, small)| == |all| <= 32
        invariant all == Pending(num, base, small) + Reversed(tmp[..i])
        decreases num
      {
        ghost var done := tmp[..i];
        OneMoreDigit(num, base, small, done);
        var rest, digit := DoDiv(num, base);
        tmp[i] := DigitChar(digit, small);
        assert tmp[..i + 1] == done + [tmp[i]];
        num, i := rest, i + 1;
      }
    }
  }

  /** `while (i-- > 0) *str++ = tmp[i];` */
  method AppendDigits(str: string, tmp: array<char>, n: nat) returns (str': string)
    requires n <= tmp.Length
    ensures str' == str + Reversed(tmp[..n])
  {
    var i := n;
    str' := str;
    while i > 0
      invariant 0 <= i <= n && str' + Reversed(tmp[..i]) == str + Reversed(tmp[..n])
    {
      assert tmp[..i] == tmp[..i - 1] + [tmp[i - 1]];
      ReversedSnoc(tmp[..i - 1], tmp[i - 1]);
      i := i - 1;
      str' := str' + [tmp[i]];
    }
  }

  /** The pieces in the order `number` writes them. */
  function Written(sign: string, prefix: string, zeros: string, d: string, pad: int,
      zeropad: bool, left: bool): string
  {
    if left then "" + sign + prefix + zeros + d + Repeat(' ', pad)
    else if zeropad then "" + sign + prefix + Repeat('0', pad) + zeros + d
    else "" + Repeat(' ', pad) + sign + prefix + zeros + d
  }

  lemma Assembled(num: Int32, base: nat, size: int, precision: int, f: Flags,
      d: string, field: int, zeros: string, str: string)
    requires 2 <= base <= 36 && d == Digits(Magnitude(num, f), base, f.small)
    requires field == size - |SignText(num, f)| - |Prefix(base, f)| - Max(precision, |d|)
    requires zeros == Repeat('0', Max(precision, |d|) - |d|)
    requires str == Written(SignText(num, f), Prefix(base, f), zeros, d, field, f.zeropad && !f.left, f.left)
    ensures str == Render(num, base, size, precision, f)
  {
    var sign, prefix := SignText(num, f), Prefix(base, f);
    assert zeros == Repeat('0', precision - |d|);
    assert Body(num, base, precision, f) == zeros + d && |zeros + d| == Max(precision, |d|);
    Regroup(sign, prefix, zeros, d, Repeat(' ', field));
    Regroup(sign, prefix, zeros, d, Repeat('0', field));
  }

  lemma Regroup(sign: string, prefix: string, zeros: string, d: string, pad: string)
    ensures sign + prefix + (zeros + d) + pad == "" + sign + prefix + zeros + d + pad
    ensures sign + prefix + pad + (zeros + d) == "" + sign + prefix + pad + zeros + d
    ensures pad + (sign + prefix) + (zeros + d) == "" + pad + sign + prefix + zeros + d
  {
    assert "" + sign == sign && "" + pad == pad;
    assert sign + prefix + (zeros + d) == sign + prefix + zeros + d;
  }

  /** The writing half of `number`, once the field that is left for padding is known. */
  method Emit(sign: string, prefix: string, tmp: array<char>, i: nat, field: int, precision: int,
      zeropad: bool, left: bool)
      returns (str: string)
    requires i <= tmp.Length && !(zeropad && left) && i <= precision < 0x8000_0000
    requires INT_MIN + (if left then 1 else if zeropad then 2 else 3) <= field < 0x8000_0000
    ensures str == Written(sign, prefix, Repeat('0', precision - i), Reversed(tmp[..i]), field, zeropad, left)
  {
    var c := if zeropad then '0' else ' ';
    var size: Int32 := field;
    str := "";
    if !zeropad && !left {
      str, size := Pad(str, ' ', size);
    }
    str := str + sign + prefix;
    if !left {
      str, size := Pad(str, c, size);
    }
    var zeros: Int32;
    str, zeros := Pad(str, '0', precision - i);
    str := AppendDigits(str, tmp, i);
    str, size := Pad(str, ' ', size);
  }

  /** What sign and prefix leave of the field width. */
  method FieldFor(sign: string, base: int, size: int, f: Flags) returns (field: int, prefix: string)
    requires 2 <= base <= 36 && |sign| <= 1
    ensures prefix == Prefix(base, f) && field == size - |sign| - |prefix|
  {
    field, prefix := size, "";
    if sign != "" {
      field := field - 1;
    }
    if f.special {
      if base == 16 {
        prefix := ['0', DigitChar(33, f.small)];
        field := field - 2;
      } else if base == 8 {
        prefix := "0";
        field := field - 1;
      }
    }
  }

  lemma FieldIs(num: Int32, base: nat, size: int, precision: int, f: Flags, i: nat, field: int)
    requires 2 <= base <= 36 && i == |Digits(Magnitude(num, f), base, f.small)|
    requires field == size - |SignText(num, f)| - |Prefix(base, f)|
    ensures CounterFits(num, base, size, precision, f) <==> field - Max(precision, i) - PaddingLoops(f) >= INT_MIN
  {
  }

  /** What `number` does: append text, return 0 for a base out of range, or overflow its counter, which C leaves
      undefined. */
  datatype Printing = Printed(text: string) | BadBase | Overflow

  /** `number`. */
  method Number(num: Int32, base: int, size: Int32, precision: Int32, f: Flags) returns (out: Printing)
    ensures out == if base < 2 || base > 36 then BadBase
                   else if CounterFits(num, base, size, precision, f) then
                       Printed(Render(num, base, size, precision, f))
                   else Overflow
  {
    if base < 2 || base > 36 {
      return BadBase;
    }
    var u: int, sign := num, SignText(num, f);
    u := if f.sign && num < 0 then -u else u % WORD;
    var field, prefix := FieldFor(sign, base, size, f);
    var tmp := new char[36];
    var i := FillDigits(u, base, f.small, tmp);
    var prec := Max(precision, i);
    FieldIs(num, base, size, precision, f, i, field);
    if field - prec - PaddingLoops(f) < INT_MIN {
      return Overflow;
    }
    var str := Emit(sign, prefix, tmp, i, field - prec, prec, f.zeropad && !f.left, f.left);
    Assembled(num, base, size, precision, f, Reversed(tmp[..i]), field - prec, Repeat('0', prec - i), str);
    out := Printed(str);
  }

  // ----- reading it back

  predicate IsDigit(c: char, base: nat) { DigitValue(c) < base }

  /** Read digits until something else comes. */
  function ReadDigits(s: string, base: nat, acc: nat): nat {
    if s == "" || !IsDigit(s[0], base) then acc else ReadDigits(s[1..], base, acc * base + DigitValue(s[0]))
  }

  function SkipSpaces(s: string): string { if s != "" && s[0] == ' ' then SkipSpaces(s[1..]) else s }

  /** A reader for printed numbers: skip blanks, take a sign, skip a hexadecimal prefix, read digits. */
  function Parse(s: string, base: nat, f: Flags): int {
    var t := SkipSpaces(s);
    var signed := t != "" && (t[0] == '-' || t[0] == '+');
    var u := if signed then t[1..] else t;
    var v := if f.special && base == 16 && |u| >= 2 then u[2..] else u;
    var n: int := ReadDigits(v, base, 0);
    if signed && t[0] == '-' then -n else n
  }

  lemma DigitRoundTrip(v: nat, small: bool)
    requires v < 36
    ensures DigitValue(DigitChar(v, small)) == v
  {
  }

  lemma {:induction false} ReadDigitsBack(n: nat, base: nat, small: bool, rest: string)
    requires 2 <= base <= 36
    ensures ReadDigits(Digits(n, base, small) + rest, base, 0) == ReadDigits(rest, base, n)
    decreases n
  {
    if n < base {
      DigitRoundTrip(n, small);
      assert (Digits(n, base, small) + rest)[1..] == rest;
    } else {
      DivMod(n, base);
      var d := DigitChar(n % base, small);
      DigitRoundTrip(n % base, small);
      assert Digits(n, base, small) + rest == Digits(n / base, base, small) + ([d] + rest);
      ReadDigitsBack(n / base, base, small, [d] + rest);
      assert ([d] + rest)[1..] == rest;
    }
  }

  lemma {:induction false} ReadZeros(k: int, s: string, base: nat)
    requires base >= 2
    ensures ReadDigits(Repeat('0', k) + s, base, 0) == ReadDigits(s, base, 0)
    decreases if k > 0 then k else 0
  {
    if k > 0 {
      ReadZeros(k - 1, s, base);
      assert (Repeat('0', k) + s)[1..] == Repeat('0', k - 1) + s;
    } else {
      assert Repeat('0', k) + s == s;
    }
  }

  lemma {:induction false} SkipRepeated(k: int, s: string)
    ensures SkipSpaces(Repeat(' ', k) + s) == SkipSpaces(s)
    decreases if k > 0 then k else 0
  {
    if k > 0 {
      SkipRepeated(k - 1, s);
      assert (Repeat(' ', k) + s)[1..] == Repeat(' ', k - 1) + s;
    } else {
      assert Repeat(' ', k) + s == s;
    }
  }

  lemma {:induction false} DigitsHead(n: nat, base: nat, small: bool)
    requires 2 <= base <= 36
    ensures Digits(n, base, small) != "" && DigitValue(Digits(n, base, small)[0]) < 36
  {
    if n >= base {
      DigitsHead(n / base, base, small);
    } else {
      DigitRoundTrip(n, small);
    }
  }

  /** What follows the sign reads as the magnitude. */
  lemma ReadBody(num: Int32, base: nat, precision: int, f: Flags, fill: int, tail: int)
    requires 2 <= base <= 36
    ensures ReadDigits(Repeat('0', fill) + Body(num, base, precision, f) + Repeat(' ', tail), base, 0) ==
            Magnitude(num, f)
  {
    var d, n := Digits(Magnitude(num, f), base, f.small), Magnitude(num, f);
    var zeros := Repeat('0', precision - |d|);
    ReadZeros(fill, zeros + (d + Repeat(' ', tail)), base);
    ReadZeros(precision - |d|, d + Repeat(' ', tail), base);
    ReadDigitsBack(n, base, f.small, Repeat(' ', tail));
    TailFirst(Repeat('0', fill), zeros, d, Repeat(' ', tail));
  }

  lemma TailFirst(fill: string, zeros: string, d: string, tail: string)
    ensures fill + (zeros + d) + tail == fill + (zeros + (d + tail))
  {
  }

  /** Everything after sign and prefix. */
  function Core(num: Int32, base: nat, precision: int, f: Flags, fill: int, tail: int): string
    requires 2 <= base <= 36
  {
    Repeat('0', fill) + Body(num, base, precision, f) + Repeat(' ', tail)
  }

  lemma CoreHead(num: Int32, base: nat, precision: int, f: Flags, fill: int, tail: int)
    requires 2 <= base <= 36
    ensures var c := Core(num, base, precision, f, fill, tail); c != "" && DigitValue(c[0]) < 36
  {
    DigitsHead(Magnitude(num, f), base, f.small);
  }

  /** The prefix, if any, is skipped or read as a zero. */
  lemma ReadPrefixed(num: Int32, base: nat, precision: int, f: Flags, fill: int, tail: int, u: string)
    requires 2 <= base <= 36 && u == Prefix(base, f) + Core(num, base, precision, f, fill, tail)
    ensures u != "" && DigitValue(u[0]) < 36
    ensures ReadDigits(if f.special && base == 16 && |u| >= 2 then u[2..] else u, base, 0) == Magnitude(num, f)
  {
    var core := Core(num, base, precision, f, fill, tail);
    CoreHead(num, base, precision, f, fill, tail);
    ReadBody(num, base, precision, f, fill, tail);
    if f.special && base == 16 {
      assert u[2..] == core;
    } else if f.special && base == 8 {
      assert u[1..] == core && u[0] == '0';
    } else {
      assert u == core;
    }
  }

  /** Blanks, sign, prefix and digits read back as the signed value. */
  lemma ParsePieces(num: Int32, base: nat, precision: int, f: Flags, lead: int, fill: int, tail: int, s: string)
    requires 2 <= base <= 36
    requires s == Repeat(' ', lead) + (SignText(num, f) + (Prefix(base, f) + Core(num, base, precision, f, fill, tail)))
    ensures Parse(s, base, f) == if f.sign && num < 0 then num else Magnitude(num, f)
  {
    var u := Prefix(base, f) + Core(num, base, precision, f, fill, tail);
    ReadPrefixed(num, base, precision, f, fill, tail, u);
    SkipRepeated(lead, SignText(num, f) + u);
    var t := SkipSpaces(s);
    assert t == SkipSpaces(SignText(num, f) + u);
    if SignText(num, f) == "" {
      assert SignText(num, f) + u == u;
    } else {
      assert (SignText(num, f) + u)[1..] == u;
    }
  }

  /** Round trip: reading the output of `number` gives the number back, signed or unsigned as it was printed, for every
      32-bit value, base, width, precision and flag set. */
  lemma ParseRender(num: Int32, base: nat, size: int, precision: int, f: Flags)
    requires 2 <= base <= 36
    ensures Parse(Render(num, base, size, precision, f), base, f) == if f.sign then num else num % WORD
  {
    var text := SignText(num, f) + Prefix(base, f);
    var body := Body(num, base, precision, f);
    var pad := size - |text| - |body|;
    var lead := if f.left || f.zeropad then 0 else pad;
    var fill := if !f.left && f.zeropad then pad else 0;
    var tail := if f.left then pad else 0;
    var s := Repeat(' ', lead) + (SignText(num, f) + (Prefix(base, f) + Core(num, base, precision, f, fill, tail)));
    RenderPieces(num, base, size, precision, f, lead, fill, tail, s);
    ParsePieces(num, base, precision, f, lead, fill, tail, s);
  }

  lemma RenderPieces(num: Int32, base: nat, size: int, precision: int, f: Flags,
      lead: int, fill: int, tail: int, s: string)
    requires 2 <= base <= 36
    requires var pad := size - |SignText(num, f) + Prefix(base, f)| - |Body(num, base, precision, f)|;
             && lead == (if f.left || f.zeropad then 0 else pad)
             && fill == (if !f.left && f.zeropad then pad else 0)
             && tail == (if f.left then pad else 0)
    requires s == Repeat(' ', lead) + (SignText(num, f) + (Prefix(base, f) + Core(num, base, precision, f, fill, tail)))
    ensures s == Render(num, base, size, precision, f)
  {
    var body := Body(num, base, precision, f);
    assert Repeat(' ', 0) == "" && Repeat('0', 0) == "";
    Regrouped(SignText(num, f), Prefix(base, f), body, Repeat(' ', lead), Repeat('0', fill), Repeat(' ', tail));
  }

  lemma Regrouped(sign: string, prefix: string, body: string, lead: string, fill: string, tail: string)
    ensures lead + (sign + (prefix + (fill + body + tail))) == lead + (sign + prefix) + fill + body + tail
    ensures lead == "" ==> lead + (sign + prefix) == sign + prefix
    ensures fill == "" ==> lead + (sign + prefix) + fill == lead + (sign + prefix)
    ensures tail == "" ==> lead + (sign + prefix) + fill + body + tail == lead + (sign + prefix) + fill + body
  {
  }

  // ----- skip_atoi

  predicate IsDecimal(c: char) { '0' <= c <= '9' }

  function ToInt32(n: int): Int32 {
    var w := n % WORD;
    if w < 0x8000_0000 then w else w - WORD
  }

  /** The value of the leading decimal digits, and their number. */
  function Decimal(s: string, acc: int): int {
    if s == "" || !IsDecimal(s[0]) then acc else Decimal(s[1..], acc * 10 + s[0] as int - '0' as int)
  }

  function DecimalLength(s: string): (n: nat)
    ensures n <= |s| && forall i :: 0 <= i < n ==> IsDecimal(s[i])
    ensures n < |s| ==> !IsDecimal(s[n])
  {
    if s == "" || !IsDecimal(s[0]) then 0 else 1 + DecimalLength(s[1..])
  }

  lemma {:induction false} DecimalWraps(s: string, acc: int, acc': int)
    requires acc % WORD == acc' % WORD
    ensures Decimal(s, acc) % WORD == Decimal(s, acc') % WORD
  {
    if s != "" && IsDecimal(s[0]) {
      var d := s[0] as int - '0' as int;
      assert (acc * 10 + d) % WORD == (acc' * 10 + d) % WORD by {
        TimesTen(acc, acc', d);
      }
      DecimalWraps(s[1..], acc * 10 + d, acc' * 10 + d);
    }
  }

  lemma TimesTen(x: int, y: int, d: int)
    requires x % WORD == y % WORD
    ensures (x * 10 + d) % WORD == (y * 10 + d) % WORD
  {
    var q := x / WORD - y / WORD;
    assert x == y + q * WORD;
    assert x * 10 + d == (y * 10 + d) + q * 10 * WORD;
  }

  lemma OneDecimal(s: string, k: nat, i: int, sum: int)
    requires k < |s| && IsDecimal(s[k]) && sum == i * 10 + s[k] as int - '0' as int
    ensures DecimalLength(s[k..]) == 1 + DecimalLength(s[k + 1..])
    ensures Decimal(s[k..], i) % WORD == Decimal(s[k + 1..], ToInt32(sum)) % WORD
  {
    assert s[k..][1..] == s[k + 1..];
    DecimalWraps(s[k + 1..], sum, ToInt32(sum));
  }

  /** `skip_atoi`: the leading digits as a 32-bit int, and the cursor moved past them. */
  method SkipAtoi(s: string, at: nat) returns (value: Int32, next: nat)
    requires at <= |s|
    ensures next == at + DecimalLength(s[at..]) && value == ToInt32(Decimal(s[at..], 0))
  {
    var i: int := 0;
    next := at;
    while next < |s| && IsDecimal(s[next])
      invariant at <= next <= |s| && -0x8000_0000 <= i < 0x8000_0000
      invariant next + DecimalLength(s[next..]) == at + DecimalLength(s[at..])
      invariant Decimal(s[next..], i) % WORD == Decimal(s[at..], 0) % WORD
      decreases |s| - next
    {
      var sum: int := i * 10 + s[next] as int - '0' as int;
      OneDecimal(s, next, i, sum);
      i := ToInt32(sum);
      next := next + 1;
    }
    value := i;
  }

  /** What `number` prints in base ten is what `skip_atoi` reads, up to whatever follows the digits. */
  lemma {:induction false} AtoiReadsDigits(n: nat, small: bool, rest: string)
    requires rest == "" || !IsDecimal(rest[0])
    ensures Decimal(Digits(n, 10, small) + rest, 0) == n
  {
    DecimalReadsBack(n, small, rest);
  }

  lemma {:induction false} DecimalReadsBack(n: nat, small: bool, rest: string)
    ensures Decimal(Digits(n, 10, small) + rest, 0) == Decimal(rest, n)
    decreases n
  {
    if n < 10 {
      assert (Digits(n, 10, small) + rest)[1..] == rest;
    } else {
      var d := DigitChar(n % 10, small);
      assert Digits(n, 10, small) + rest == Digits(n / 10, 10, small) + ([d] + rest);
      DecimalReadsBack(n / 10, small, [d] + rest);
      assert ([d] + rest)[1..] == rest;
    }
  }
}
