/**
 The directive loop of `vsprintf`, read off the format string character by character, against a declarative meaning of
 conversion specifications.
 */
module Formatter {
  import opened Common
  import opened Printer

  /** What the caller passes, `CountArg` being the address `%n` stores to; taking an argument of the wrong kind, or one
      too many, is undefined in C. */
  datatype Arg = IntArg(n: Int32) | StrArg(s: string) | CountArg

  /** The text written, and the values stored by `%n` in their order. */
  datatype Output = Output(text: string, counts: seq<nat>)

  const NO_FLAGS := Flags(false, false, false, false, false, false, false)

  // ----- reading a directive

  predicate IsFlag(c: char) { c == '-' || c == '+' || c == ' ' || c == '#' || c == '0' }

  function SetFlag(f: Flags, c: char): Flags {
    match c
    case '-' => f.(left := true)
    case '+' => f.(plus := true)
    case ' ' => f.(space := true)
    case '#' => f.(special := true)
    case '0' => f.(zeropad := true)
    case _ => f
  }

  /** Flags and the rest of the format. */
  function ReadFlags(s: string, f: Flags): (r: (Flags, string))
    ensures |r.1| <= |s|
  {
    if s != "" && IsFlag(s[0]) then ReadFlags(s[1..], SetFlag(f, s[0])) else (f, s)
  }

  /** A decimal number, or -1 when there is none. */
  function ReadNumber(s: string): (r: (Int32, string))
    ensures |r.1| <= |s|
  {
    if s != "" && IsDecimal(s[0]) then (ToInt32(Decimal(s, 0)), s[DecimalLength(s)..]) else (-1, s)
  }

  datatype Directive = Directive(f: Flags, width: Int32, precision: Int32, rest: string, args: seq<Arg>)

  function Negate(n: Int32): Int32 { ToInt32(Minus(n)) }

  function Minus(n: int): int { -n }

  /** A `*` takes an argument but is not stepped over, so the conversion that follows it is the `*` itself. */
  function ReadWidth(s: string, f: Flags, args: seq<Arg>): (r: Option<Directive>)
    ensures r.Some? ==> |r.value.rest| <= |s| && |r.value.args| <= |args|
  {
    if s != "" && s[0] == '*' then
      if args == [] || !args[0].IntArg? then None
      else if args[0].n < 0 then Some(Directive(f.(left := true), Negate(args[0].n), -1, s, args[1..]))
      else Some(Directive(f, args[0].n, -1, s, args[1..]))
    else
      var (n, rest) := ReadNumber(s);
      Some(Directive(f, n, -1, rest, args))
  }

  function ReadPrecision(d: Directive): (r: Option<Directive>)
    ensures r.Some? ==> |r.value.rest| <= |d.rest| && |r.value.args| <= |d.args|
  {
    if d.rest == "" || d.rest[0] != '.' then Some(d) else
    var s := d.rest[1..];
    if s != "" && s[0] == '*' then
      if d.args == [] || !d.args[0].IntArg? then None
      else Some(d.(precision := AtLeast0(d.args[0].n), rest := s, args := d.args[1..]))
    else
      var (n, rest) := ReadNumber(s);
      Some(d.(precision := AtLeast0(n), rest := rest))
  }

  function AtLeast0(n: Int32): Int32 { if n < 0 then 0 else n }

  function SkipQualifier(s: string): (r: string)
    ensures |r| <= |s|
  {
    if s != "" && (s[0] == 'h' || s[0] == 'l' || s[0] == 'L') then s[1..] else s
  }

  function ReadDirective(s: string, args: seq<Arg>): (r: Option<Directive>)
    ensures r.Some? ==> |r.value.rest| <= |s| && |r.value.args| <= |args|
  {
    var (f, s1) := ReadFlags(s, NO_FLAGS);
    match ReadWidth(s1, f, args)
    case None => None
    case Some(d) =>
      match ReadPrecision(d)
      case None => None
      case Some(d1) => Some(d1.(rest := SkipQualifier(d1.rest)))
  }

  // ----- conversions

  function CharText(c: char, width: int, f: Flags): string {
    if f.left then [c] + Repeat(' ', width - 1) else Repeat(' ', width - 1) + [c]
  }

  function StringText(s: string, width: int, precision: int, f: Flags): string {
    var shown := if 0 <= precision < |s| then s[..precision] else s;
    if f.left then shown + Repeat(' ', width - |shown|) else Repeat(' ', width - |shown|) + shown
  }

  predicate IsConversion(k: char) { k in "csopxXdiun" }

  /** `(unsigned char)`. */
  function ToChar(n: Int32): char { Low8(n) as char }

  function Low8(n: int): (b: nat)
    ensures b < 256
  {
    n % 256
  }

  /** How a conversion character calls `number`. */
  datatype Call = Call(base: nat, width: Int32, f: Flags)

  function NumberCall(k: char, width: Int32, f: Flags): (c: Call)
    ensures 2 <= c.base <= 36
  {
    match k
    case 'o' => Call(8, width, f)
    case 'p' => if width == -1 then Call(16, 8, f.(zeropad := true)) else Call(16, width, f)
    case 'x' => Call(16, width, f.(small := true))
    case 'X' => Call(16, width, f)
    case 'u' => Call(10, width, f)
    case _ => Call(10, width, f.(sign := true))
  }

  function NumberText(k: char, n: Int32, width: Int32, precision: Int32, f: Flags): Option<string> {
    var c := NumberCall(k, width, f);
    if CounterFits(n, c.base, c.width, precision, c.f) then Some(Render(n, c.base, c.width, precision, c.f)) else None
  }

  /** The width is counted down in one loop, or in two, to below 0. */
  predicate WidthFits(width: Int32, f: Flags) { width - (if f.left then 1 else 2) >= INT_MIN }

  function Text(s: string): Output { Output(s, []) }

  /** The output of conversion `k` for one argument, if the argument has the kind it needs and no counter overflows. */
  function ArgText(k: char, a: Arg, width: Int32, precision: Int32, f: Flags): Option<Output> {
    match a
    case CountArg => if k == 'n' then Some(Output("", [0])) else None
    case StrArg(s) =>
      if k == 's' && WidthFits(width, f) then Some(Text(StringText(s, width, precision, f))) else None
    case IntArg(n) =>
      if k == 's' || k == 'n' then None
      else if k == 'c' then if WidthFits(width, f) then Some(Text(CharText(ToChar(n), width, f))) else None
      else
        var text := NumberText(k, n, width, precision, f);
        if text.None? then None else Some(Text(text.value))
  }

  /** One output after another: later counts include the text before them. */
  function Then(a: Output, b: Output): Output {
    Output(a.text + b.text, a.counts + seq(|b.counts|, i requires 0 <= i < |b.counts| => |a.text| + b.counts[i]))
  }

  function Prepend(a: Output, r: Option<Output>): Option<Output> { if r.Some? then Some(Then(a, r.value)) else None }

  /** What a directive adds to the output, and the format and arguments that are left. */
  datatype Shown = Shown(out: Output, rest: string, args: seq<Arg>)

  function Show(d: Directive): (r: Option<Shown>)
    ensures r.Some? ==> |r.value.rest| <= |d.rest|
  {
    if d.rest == "" then Some(Shown(Text("%"), "", d.args))
    else if !IsConversion(d.rest[0]) then
      Some(Shown(Text(if d.rest[0] == '%' then "%" else ['%', d.rest[0]]), d.rest[1..], d.args))
    else if d.args == [] then None
    else
      var out := ArgText(d.rest[0], d.args[0], d.width, d.precision, d.f);
      if out.None? then None else Some(Shown(out.value, d.rest[1..], d.args[1..]))
  }

  /** The directive after a `%`. */
  function ShowNext(s: string, args: seq<Arg>): (r: Option<Shown>)
    ensures r.Some? ==> |r.value.rest| <= |s|
  {
    var d := ReadDirective(s, args);
    if d.None? then None else Show(d.value)
  }

  /** `vsprintf`: the output for a format and its arguments, none when it is undefined. */
  function Format(fmt: string, args: seq<Arg>): Option<Output>
    decreases |fmt|
  {
    if fmt == "" then Some(Text(""))
    else if fmt[0] != '%' then Prepend(Text([fmt[0]]), Format(fmt[1..], args))
    else match ShowNext(fmt[1..], args)
      case None => None
      case Some(shown) => Prepend(shown.out, Format(shown.rest, shown.args))
  }

  // ----- the meaning of conversion specifications

  datatype Width = NoWidth | Width(n: nat) | StarWidth

  datatype Precision = Absent | Dot | DotNumber(n: nat) | DotStar

  /** A piece of a format: a plain character, `%%`, or a conversion specification. */
  datatype Item =
    | Plain(c: char)
    | Percent
    | Conversion(flags: string, width: Width, precision: Precision, qualifier: Option<char>, kind: char)

  ghost predicate Proper(item: Item) {
    match item
    case Plain(c) => c != '%' && c != '\0'
    case Percent => true
    case Conversion(flags, width, precision, qualifier, kind) =>
      && (forall i :: 0 <= i < |flags| ==> IsFlag(flags[i]))
      && (width.Width? ==> 1 <= width.n < 0x8000_0000)
      && (precision.DotNumber? ==> precision.n < 0x8000_0000)
      && (qualifier.Some? ==> qualifier.value == 'h' || qualifier.value == 'l' || qualifier.value == 'L')
      && IsConversion(kind)
  }

  predicate HasStar(item: Item)
    requires item.Conversion?
  {
    item.width.StarWidth? || item.precision.DotStar?
  }

  function WidthText(width: Width): string {
    match width
    case NoWidth => ""
    case Width(n) => Digits(n, 10, false)
    case StarWidth => "*"
  }

  function PrecisionText(p: Precision): string {
    match p
    case Absent => ""
    case Dot => "."
    case DotNumber(n) => "." + Digits(n, 10, false)
    case DotStar => ".*"
  }

  function QualifierText(q: Option<char>): string { if q.Some? then [q.value] else "" }

  function Spelling(item: Item): string {
    match item
    case Plain(c) => [c]
    case Percent => "%%"
    case Conversion(flags, width, precision, qualifier, kind) =>
      "%" + (flags + (WidthText(width) + (PrecisionText(precision) + (QualifierText(qualifier) + [kind]))))
  }

  function Spellings(items: seq<Item>): string {
    if items == [] then "" else Spelling(items[0]) + Spellings(items[1..])
  }

  function FlagsOf(flags: string, f: Flags): Flags {
    if flags == "" then f else FlagsOf(flags[1..], SetFlag(f, flags[0]))
  }

  function WidthOf(w: Width): int { if w.Width? then w.n else -1 }

  function PrecisionOf(p: Precision): int {
    match p
    case Absent => -1
    case Dot => 0
    case DotNumber(n) => n
    case DotStar => -1
  }

  /** The part of a specification with a `*` that follows the first `*`. */
  function Leftover(item: Item): string
    requires item.Conversion?
  {
    (if item.width.StarWidth? then PrecisionText(item.precision) else "")
        + (QualifierText(item.qualifier) + [item.kind])
  }

  /** What the items show.  A conversion takes the next argument.  One with a `*` takes the argument meant for the `*`
      and then shows `%*` and the rest of its own spelling: that is what the code does, not what the specification asks
      for. */
  ghost function Meaning(items: seq<Item>, args: seq<Arg>): Option<Output>
    requires forall i :: 0 <= i < |items| ==> Proper(items[i])
    decreases |items|
  {
    if items == [] then Some(Text(""))
    else
      assert Proper(items[0]);
      match items[0]
      case Plain(c) => Prepend(Text([c]), Meaning(items[1..], args))
      case Percent => Prepend(Text("%"), Meaning(items[1..], args))
      case Conversion(flags, width, precision, _, kind) =>
        if HasStar(items[0]) then
          if args == [] || !args[0].IntArg? then None
          else Prepend(Text("%*" + Leftover(items[0])), Meaning(items[1..], args[1..]))
        else if args == [] then None
        else match ArgText(kind, args[0], WidthOf(width), PrecisionOf(precision), FlagsOf(flags, NO_FLAGS))
          case None => None
          case Some(out) => Prepend(out, Meaning(items[1..], args[1..]))
  }

  // ----- the loop reads what the specification spells

  lemma {:induction false} FlagsBack(flags: string, rest: string, f: Flags)
    requires (forall i :: 0 <= i < |flags| ==> IsFlag(flags[i])) && (rest == "" || !IsFlag(rest[0]))
    ensures ReadFlags(flags + rest, f) == (FlagsOf(flags, f), rest)
  {
    if flags == "" {
      assert flags + rest == rest;
    } else {
      FlagsBack(flags[1..], rest, SetFlag(f, flags[0]));
      assert (flags + rest)[1..] == flags[1..] + rest;
    }
  }

  lemma {:induction false} DecimalDigits(n: nat)
    ensures var d := Digits(n, 10, false);
            d != "" && (forall i :: 0 <= i < |d| ==> IsDecimal(d[i])) && (n > 0 ==> d[0] != '0')
  {
    if n >= 10 {
      DecimalDigits(n / 10);
    }
  }

  lemma {:induction false} LengthOfDigits(d: string, rest: string)
    requires (forall i :: 0 <= i < |d| ==> IsDecimal(d[i])) && (rest == "" || !IsDecimal(rest[0]))
    ensures DecimalLength(d + rest) == |d|
  {
    if d == "" {
      assert d + rest == rest;
    } else {
      LengthOfDigits(d[1..], rest);
      assert (d + rest)[1..] == d[1..] + rest;
    }
  }

  lemma NumberBack(n: nat, rest: string)
    requires n < 0x8000_0000 && (rest == "" || !IsDecimal(rest[0]))
    ensures ReadNumber(Digits(n, 10, false) + rest) == (n, rest)
  {
    var d := Digits(n, 10, false);
    DecimalDigits(n);
    LengthOfDigits(d, rest);
    AtoiReadsDigits(n, false, rest);
    assert (d + rest)[0] == d[0] && (d + rest)[|d|..] == rest;
    NumberRead(d + rest, n, |d|);
  }

  lemma NumberRead(s: string, n: nat, len: nat)
    requires s != "" && IsDecimal(s[0]) && Decimal(s, 0) == n < 0x8000_0000 && len == DecimalLength(s)
    ensures ReadNumber(s) == (n, s[len..])
  {
  }

  /** The text after the flags, and after each further part. */
  function Tail(item: Item, rest: string): string
    requires item.Conversion?
  {
    QualifierText(item.qualifier) + [item.kind] + rest
  }

  lemma TailHead(item: Item, rest: string)
    requires Proper(item) && item.Conversion?
    ensures var t := Tail(item, rest);
            && t != "" && !IsFlag(t[0]) && !IsDecimal(t[0]) && t[0] != '.' && t[0] != '*'
            && SkipQualifier(t) == [item.kind] + rest
  {
    if item.qualifier.Some? {
      assert Tail(item, rest)[1..] == [item.kind] + rest;
    } else {
      assert Tail(item, rest) == [item.kind] + rest;
    }
  }

  lemma WidthBack(width: Width, t: string, f: Flags, args: seq<Arg>)
    requires !width.StarWidth? && (width.Width? ==> 1 <= width.n < 0x8000_0000)
    requires t != "" && !IsDecimal(t[0]) && t[0] != '*'
    ensures ReadWidth(WidthText(width) + t, f, args) == Some(Directive(f, WidthOf(width), -1, t, args))
  {
    if width.Width? {
      DecimalDigits(width.n);
      NumberBack(width.n, t);
    } else {
      assert WidthText(width) + t == t;
    }
  }

  lemma PrecisionBack(p: Precision, t: string, d: Directive)
    requires !p.DotStar? && (p.DotNumber? ==> p.n < 0x8000_0000)
    requires t != "" && !IsDecimal(t[0]) && t[0] != '*' && t[0] != '.'
    requires d.rest == PrecisionText(p) + t && d.precision == -1
    ensures ReadPrecision(d) == Some(d.(precision := PrecisionOf(p), rest := t))
  {
    match p
    case Absent => assert d.rest == t;
    case Dot => assert d.rest[1..] == t;
    case DotNumber(n) => DotBack(n, Digits(n, 10, false), t, d);
  }

  lemma DotBack(n: nat, digits: string, t: string, d: Directive)
    requires n < 0x8000_0000 && digits == Digits(n, 10, false) && d.rest == "." + digits + t && d.precision == -1
    requires t != "" && !IsDecimal(t[0])
    ensures ReadPrecision(d) == Some(d.(precision := n, rest := t))
  {
    DecimalDigits(n);
    NumberBack(n, t);
    var s := d.rest[1..];
    assert s == digits + t && s[0] == digits[0];
  }

  /** A spelled conversion specification without `*` is read as itself. */
  lemma DirectiveBack(item: Item, rest: string, args: seq<Arg>)
    requires Proper(item) && item.Conversion? && !HasStar(item)
    ensures var s := Spelling(item) + rest;
            && s != "" && s[0] == '%'
            && ReadDirective(s[1..], args) == Some(Directive(FlagsOf(item.flags, NO_FLAGS), WidthOf(item.width),
                                                             PrecisionOf(item.precision), [item.kind] + rest, args))
  {
    var t := Tail(item, rest);
    TailHead(item, rest);
    var t1 := PrecisionText(item.precision) + t;
    var t2 := WidthText(item.width) + t1;
    PartsHead(item, t, t1, t2);
    SpellingParts(item, rest, t, t1, t2);
    FlagsBack(item.flags, t2, NO_FLAGS);
    var f := FlagsOf(item.flags, NO_FLAGS);
    WidthBack(item.width, t1, f, args);
    PrecisionBack(item.precision, t, Directive(f, WidthOf(item.width), -1, t1, args));
  }

  lemma PartsHead(item: Item, t: string, t1: string, t2: string)
    requires Proper(item) && item.Conversion? && t1 == PrecisionText(item.precision) + t
    requires t2 == WidthText(item.width) + t1
    requires t != "" && !IsFlag(t[0]) && !IsDecimal(t[0]) && t[0] != '*'
    ensures t1 != "" && !IsFlag(t1[0]) && !IsDecimal(t1[0]) && t1[0] != '*'
    ensures t2 != "" && !IsFlag(t2[0])
  {
    if item.width.Width? {
      DecimalDigits(item.width.n);
    }
  }

  lemma SpellingParts(item: Item, rest: string, t: string, t1: string, t2: string)
    requires item.Conversion? && t == Tail(item, rest)
    requires t1 == PrecisionText(item.precision) + t && t2 == WidthText(item.width) + t1
    ensures Spelling(item) + rest == "%" + (item.flags + t2)
    ensures (Spelling(item) + rest)[1..] == item.flags + t2
  {
    assert Spelling(item) + rest == "%" + (item.flags + t2);
  }

  // ----- `*`

  /** The directive read from a specification whose first `*` is followed by `after`: the `*` has taken an argument and
      is still there. */
  ghost predicate StopsAtStar(r: Option<Directive>, after: string, args: seq<Arg>) {
    if args == [] || !args[0].IntArg? then r.None?
    else r.Some? && r.value.rest == "*" + after && r.value.args == args[1..]
  }

  lemma StarWidthRead(flags: string, after: string, args: seq<Arg>)
    requires forall i :: 0 <= i < |flags| ==> IsFlag(flags[i])
    ensures StopsAtStar(ReadDirective(flags + ("*" + after), args), after, args)
  {
    FlagsBack(flags, "*" + after, NO_FLAGS);
  }

  lemma StarPrecisionRead(flags: string, width: Width, after: string, args: seq<Arg>)
    requires (forall i :: 0 <= i < |flags| ==> IsFlag(flags[i])) && !width.StarWidth?
    requires width.Width? ==> 1 <= width.n < 0x8000_0000
    ensures StopsAtStar(ReadDirective(flags + (WidthText(width) + (".*" + after)), args), after, args)
  {
    var t := ".*" + after;
    var t2, f := WidthText(width) + t, FlagsOf(flags, NO_FLAGS);
    WidthHead(width, t, t2);
    FlagsBack(flags, t2, NO_FLAGS);
    WidthBack(width, t, f, args);
    StarPrecisionHere(Directive(f, WidthOf(width), -1, t, args), after);
  }

  lemma WidthHead(width: Width, t: string, t2: string)
    requires !width.StarWidth? && (width.Width? ==> width.n >= 1) && t2 == WidthText(width) + t && t != ""
    requires !IsFlag(t[0])
    ensures t2 != "" && !IsFlag(t2[0])
  {
    if width.Width? {
      DecimalDigits(width.n);
    }
  }

  lemma StarPrecisionHere(d: Directive, after: string)
    requires d.rest == ".*" + after
    ensures var r := ReadPrecision(d);
            if d.args == [] || !d.args[0].IntArg? then r.None?
            else
              && r.Some? && r.value.rest == "*" + after && SkipQualifier(r.value.rest) == r.value.rest
              && r.value.args == d.args[1..]
  {
    assert d.rest[1..] == "*" + after;
  }

  /** What follows `%` in a specification with a `*`. */
  lemma StarRead(item: Item, rest: string, args: seq<Arg>)
    requires Proper(item) && item.Conversion? && HasStar(item)
    ensures var s := Spelling(item) + rest;
            s != "" && s[0] == '%' && StopsAtStar(ReadDirective(s[1..], args), Leftover(item) + rest, args)
  {
    var t := Tail(item, rest);
    var t1 := PrecisionText(item.precision) + t;
    var t2 := WidthText(item.width) + t1;
    SpellingParts(item, rest, t, t1, t2);
    if item.width.StarWidth? {
      assert t1 == Leftover(item) + rest;
      StarWidthRead(item.flags, t1, args);
    } else {
      assert t == Leftover(item) + rest && t1 == ".*" + t;
      StarPrecisionRead(item.flags, item.width, t, args);
    }
  }

  /** A specification is read as itself, up to its own conversion character, if and only if neither its width nor its
      precision is a `*`. */
  lemma ReadAsItselfIff(item: Item, rest: string, args: seq<Arg>)
    requires Proper(item) && item.Conversion?
    ensures var r := ReadDirective((Spelling(item) + rest)[1..], args);
            r.Some? && r.value.rest == [item.kind] + rest <==> !HasStar(item)
  {
    if HasStar(item) {
      StarRead(item, rest, args);
      assert ("*" + (Leftover(item) + rest))[0] == '*' && ([item.kind] + rest)[0] == item.kind;
    } else {
      DirectiveBack(item, rest, args);
    }
  }

  /** Text without `%` is copied. */
  lemma PlainText(t: string, rest: string, args: seq<Arg>)
    requires forall i :: 0 <= i < |t| ==> t[i] != '%'
    ensures Format(t + rest, args) == Prepend(Text(t), Format(rest, args))
  {
    PlainPrefix(t, rest, t + rest, args);
  }

  lemma {:induction false} PlainPrefix(t: string, rest: string, s: string, args: seq<Arg>)
    requires s == t + rest && forall i :: 0 <= i < |t| ==> t[i] != '%'
    ensures Format(s, args) == Prepend(Text(t), Format(rest, args))
  {
    if t == "" {
      assert s == rest;
      PrependNothing(Format(rest, args));
    } else {
      PlainPrefix(t[1..], rest, s[1..], args);
      PlainChar(s, args);
      PrependTwice(Text([t[0]]), Text(t[1..]), Format(rest, args));
      ThenText([t[0]], t[1..], t);
    }
  }

  lemma PlainChar(s: string, args: seq<Arg>)
    requires s != "" && s[0] != '%'
    ensures Format(s, args) == Prepend(Text([s[0]]), Format(s[1..], args))
  {
  }

  lemma ThenText(a: string, b: string, t: string)
    requires t == a + b
    ensures Then(Text(a), Text(b)) == Text(t)
  {
  }

  lemma PrependNothing(r: Option<Output>)
    ensures Prepend(Text(""), r) == r
  {
    if r.Some? {
      assert "" + r.value.text == r.value.text;
      assert Then(Text(""), r.value).counts == r.value.counts;
    }
  }

  lemma PrependTwice(a: Output, b: Output, r: Option<Output>)
    ensures Prepend(a, Prepend(b, r)) == Prepend(Then(a, b), r)
  {
    if r.Some? {
      var x, y := Then(a, Then(b, r.value)), Then(Then(a, b), r.value);
      assert x.text == y.text;
      assert x.counts == y.counts;
    }
  }

  /** A `*` width, whatever follows: an argument is lost, `%*` is shown, and what follows is plain format again. */
  lemma StarWidthShown(fmt: string, flags: string, rest: string, args: seq<Arg>)
    requires fmt == "%" + (flags + ("*" + rest)) && args != [] && args[0].IntArg?
    requires forall i :: 0 <= i < |flags| ==> IsFlag(flags[i])
    ensures Format(fmt, args) == Prepend(Text("%*"), Format(rest, args[1..]))
  {
    StarWidthRead(flags, rest, args);
    assert fmt[1..] == flags + ("*" + rest);
    StarIsNoConversion(fmt[1..], rest, args);
  }

  /** The same for a `*` precision after an optional width. */
  lemma StarPrecisionShown(fmt: string, flags: string, width: Width, rest: string, args: seq<Arg>)
    requires fmt == "%" + (flags + (WidthText(width) + (".*" + rest))) && args != [] && args[0].IntArg?
    requires forall i :: 0 <= i < |flags| ==> IsFlag(flags[i])
    requires !width.StarWidth? && (width.Width? ==> 1 <= width.n < 0x8000_0000)
    ensures Format(fmt, args) == Prepend(Text("%*"), Format(rest, args[1..]))
  {
    StarPrecisionRead(flags, width, rest, args);
    assert fmt[1..] == flags + (WidthText(width) + (".*" + rest));
    StarIsNoConversion(fmt[1..], rest, args);
  }

  lemma StarIsNoConversion(s: string, after: string, args: seq<Arg>)
    requires StopsAtStar(ReadDirective(s, args), after, args)
    ensures ShowNext(s, args) ==
            if args == [] || !args[0].IntArg? then None else Some(Shown(Text("%*"), after, args[1..]))
  {
    assert ("*" + after)[1..] == after;
  }

  lemma LeftoverIsPlain(item: Item)
    requires Proper(item) && item.Conversion?
    ensures forall i :: 0 <= i < |Leftover(item)| ==> Leftover(item)[i] != '%'
  {
    if item.precision.DotNumber? {
      DecimalDigits(item.precision.n);
    }
  }

  lemma StarItem(item: Item, rest: string, args: seq<Arg>)
    requires Proper(item) && item.Conversion? && HasStar(item)
    ensures Format(Spelling(item) + rest, args) ==
              if args == [] || !args[0].IntArg? then None
              else Prepend(Text("%*" + Leftover(item)), Format(rest, args[1..]))
  {
    var s := (Spelling(item) + rest)[1..];
    StarRead(item, rest, args);
    StarIsNoConversion(s, Leftover(item) + rest, args);
    if args != [] && args[0].IntArg? {
      LeftoverIsPlain(item);
      PlainText(Leftover(item), rest, args[1..]);
      PrependTwice(Text("%*"), Text(Leftover(item)), Format(rest, args[1..]));
      ThenText("%*", Leftover(item), "%*" + Leftover(item));
    }
  }

  // ----- formats mean what they spell

  /** For every sequence of characters, `%%` and conversion specifications, and all arguments, `vsprintf` on their
      spelling outputs what they mean. */
  lemma {:induction false} FormatIsMeaning(items: seq<Item>, args: seq<Arg>)
    requires forall i :: 0 <= i < |items| ==> Proper(items[i])
    ensures Format(Spellings(items), args) == Meaning(items, args)
    decreases |items|
  {
    if items != [] {
      var rest := Spellings(items[1..]);
      assert Proper(items[0]) && Spellings(items) == Spelling(items[0]) + rest;
      match items[0]
      case Plain(c) =>
        assert ([c] + rest)[1..] == rest;
        FormatIsMeaning(items[1..], args);
      case Percent =>
        FormatIsMeaning(items[1..], args);
        PercentBack(rest, args);
      case Conversion(_, _, _, _, kind) =>
        if args != [] {
          FormatIsMeaning(items[1..], args[1..]);
        }
        if HasStar(items[0]) {
          StarItem(items[0], rest, args);
        } else {
          DirectiveBack(items[0], rest, args);
          assert ([kind] + rest)[1..] == rest;
        }
    }
  }

  lemma PercentBack(rest: string, args: seq<Arg>)
    ensures Format("%%" + rest, args) == Prepend(Text("%"), Format(rest, args))
  {
    var s := "%" + rest;
    assert ("%%" + rest)[1..] == s && s[1..] == rest;
    PlainDirective(s, args);
  }

  lemma PlainDirective(s: string, args: seq<Arg>)
    requires s != "" && s[0] == '%'
    ensures ReadDirective(s, args) == Some(Directive(NO_FLAGS, -1, -1, s, args))
  {
    assert ReadFlags(s, NO_FLAGS) == (NO_FLAGS, s);
    assert ReadNumber(s) == (-1, s);
  }

  // ----- the method

  /** The flag loop. */
  method TakeFlags(fmt: string, at: nat) returns (f: Flags, next: nat)
    requires at <= |fmt|
    ensures at <= next <= |fmt| && ReadFlags(fmt[at..], NO_FLAGS) == (f, fmt[next..])
  {
    f, next := NO_FLAGS, at;
    while next < |fmt| && IsFlag(fmt[next])
      invariant at <= next <= |fmt| && ReadFlags(fmt[at..], NO_FLAGS) == ReadFlags(fmt[next..], f)
    {
      assert fmt[next..][1..] == fmt[next + 1..];
      f, next := SetFlag(f, fmt[next]), next + 1;
    }
  }

  /** `skip_atoi` where a number may stand. */
  method TakeNumber(fmt: string, at: nat) returns (n: Int32, next: nat)
    requires at <= |fmt|
    ensures at <= next <= |fmt| && ReadNumber(fmt[at..]) == (n, fmt[next..])
  {
    n, next := -1, at;
    if at < |fmt| && IsDecimal(fmt[at]) {
      n, next := SkipAtoi(fmt, at);
      assert fmt[at..][next - at..] == fmt[next..];
    }
  }

  method TakeWidth(fmt: string, at: nat, f: Flags, args: seq<Arg>, used: nat)
      returns (ok: bool, f': Flags, width: Int32, next: nat, used': nat)
    requires at <= |fmt| && used <= |args|
    ensures at <= next <= |fmt| && used <= used' <= |args|
    ensures ReadWidth(fmt[at..], f, args[used..]) ==
              if ok then Some(Directive(f', width, -1, fmt[next..], args[used'..])) else None
  {
    ok, f', width, next, used' := true, f, -1, at, used;
    if at < |fmt| && fmt[at] == '*' {
      if used == |args| || !args[used].IntArg? {
        ok := false;
        return;
      }
      width := args[used].n;
      if width < 0 {
        width := Negate(width);
        f' := f.(left := true);
      }
      assert args[used..][1..] == args[used + 1..];
      used' := used + 1;
    } else {
      width, next := TakeNumber(fmt, at);
    }
  }

  method TakePrecision(fmt: string, at: nat, args: seq<Arg>, used: nat, ghost f: Flags, ghost width: Int32)
      returns (ok: bool, precision: Int32, next: nat, used': nat)
    requires at <= |fmt| && used <= |args|
    ensures at <= next <= |fmt| && used <= used' <= |args|
    ensures ReadPrecision(Directive(f, width, -1, fmt[at..], args[used..])) ==
              if ok then Some(Directive(f, width, precision, fmt[next..], args[used'..])) else None
  {
    ok, precision, next, used' := true, -1, at, used;
    if at < |fmt| && fmt[at] == '.' {
      assert fmt[at..][1..] == fmt[at + 1..];
      next := at + 1;
      if next < |fmt| && fmt[next] == '*' {
        if used == |args| || !args[used].IntArg? {
          ok := false;
          return;
        }
        precision := args[used].n;
        assert args[used..][1..] == args[used + 1..];
        used' := used + 1;
      } else {
        precision, next := TakeNumber(fmt, next);
      }
      if precision < 0 {
        precision := 0;
      }
    }
  }

  /** From the character after `%` to the conversion character. */
  method TakeDirective(fmt: string, at: nat, args: seq<Arg>, used: nat)
      returns (ok: bool, f: Flags, width: Int32, precision: Int32, next: nat, used': nat)
    requires at <= |fmt| && used <= |args|
    ensures at <= next <= |fmt| && used <= used' <= |args|
    ensures ReadDirective(fmt[at..], args[used..]) ==
              if ok then Some(Directive(f, width, precision, fmt[next..], args[used'..])) else None
  {
    precision := -1;
    f, next := TakeFlags(fmt, at);
    ghost var afterFlags := (f, fmt[next..]);
    ok, f, width, next, used' := TakeWidth(fmt, next, f, args, used);
    ghost var d := ReadWidth(afterFlags.1, afterFlags.0, args[used..]);
    if !ok {
      WidthMissing(fmt[at..], args[used..], afterFlags);
      return;
    }
    ok, precision, next, used' := TakePrecision(fmt, next, args, used', f, width);
    ghost var d1 := ReadPrecision(d.value);
    ReadParts(fmt[at..], args[used..], afterFlags, d.value, d1);
    if ok {
      next := TakeQualifier(fmt, next);
    }
  }

  lemma WidthMissing(s: string, args: seq<Arg>, afterFlags: (Flags, string))
    requires afterFlags == ReadFlags(s, NO_FLAGS) && ReadWidth(afterFlags.1, afterFlags.0, args).None?
    ensures ReadDirective(s, args) == None
  {
  }

  /** The three reads of a directive put together. */
  lemma ReadParts(s: string, args: seq<Arg>, afterFlags: (Flags, string), d: Directive, d1: Option<Directive>)
    requires afterFlags == ReadFlags(s, NO_FLAGS) && ReadWidth(afterFlags.1, afterFlags.0, args) == Some(d)
    requires d1 == ReadPrecision(d)
    ensures ReadDirective(s, args) ==
              if d1.None? then None else Some(d1.value.(rest := SkipQualifier(d1.value.rest)))
  {
  }

  method TakeQualifier(fmt: string, at: nat) returns (next: nat)
    requires at <= |fmt|
    ensures at <= next <= |fmt| && fmt[next..] == SkipQualifier(fmt[at..])
  {
    next := at;
    if at < |fmt| && (fmt[at] == 'h' || fmt[at] == 'l' || fmt[at] == 'L') {
      assert fmt[at..][1..] == fmt[at + 1..];
      next := at + 1;
    }
  }

  /** `case 's'`. */
  method ConvertString(s: string, width: Int32, precision: Int32, f: Flags) returns (str: string)
    requires WidthFits(width, f)
    ensures str == StringText(s, width, precision, f)
  {
    var len := if precision >= 0 && |s| > precision then precision else |s|;
    str := "";
    var left := width;
    if !f.left {
      str, left := PadTo(str, len, left);
    }
    str := str + s[..len];
    str, left := PadTo(str, len, left);
    assert s[..len] == if 0 <= precision < |s| then s[..precision] else s;
  }

  /** `while (len < field_width--) *str++ = ' ';` */
  method PadTo(str: string, len: nat, width: Int32) returns (str': string, width': Int32)
    requires width > INT_MIN
    ensures str' == str + Repeat(' ', width - len) && (width <= len ==> str' == str)
    ensures width' == (if width > len then len else width) - 1
  {
    str', width' := str, width;
    while len < width'
      invariant width' <= width && (width' >= len || width' == width)
      invariant str' == str + Repeat(' ', width - width')
    {
      str' := str' + [' '];
      width' := width' - 1;
    }
    width' := width' - 1;
  }

  /** `case 'c'`. */
  method ConvertChar(c: char, width: Int32, f: Flags) returns (str: string)
    requires WidthFits(width, f)
    ensures str == CharText(c, width, f)
  {
    str := "";
    var left := width;
    if !f.left {
      str, left := PadBefore(str, left);
    }
    str := str + [c];
    str, left := PadBefore(str, left);
  }

  /** `while (--field_width > 0) *str++ = ' ';` */
  method PadBefore(str: string, width: Int32) returns (str': string, width': Int32)
    requires width > INT_MIN
    ensures str' == str + Repeat(' ', width - 1) && (width <= 1 ==> str' == str)
    ensures width' == if width > 1 then 0 else width - 1
  {
    str', width' := str, width - 1;
    while width' > 0
      invariant width' < width && (width' >= 0 || width' == width - 1)
      invariant str' == str + Repeat(' ', width - 1 - width')
    {
      str' := str' + [' '];
      width' := width' - 1;
    }
  }

  /** The switch on the conversion character; `none` when the argument is of the wrong kind or a counter overflows. */
  method Convert(k: char, a: Arg, width: Int32, precision: Int32, f: Flags) returns (out: Option<Output>)
    requires IsConversion(k)
    ensures out == ArgText(k, a, width, precision, f)
  {
    out := None;
    match a
    case CountArg =>
      if k == 'n' {
        out := Some(Output("", [0]));
      }
    case StrArg(s) =>
      if k == 's' && WidthFits(width, f) {
        var str := ConvertString(s, width, precision, f);
        out := Some(Text(str));
      }
    case IntArg(n) =>
      if k == 's' || k == 'n' {
        return;
      }
      if k == 'c' {
        if WidthFits(width, f) {
          var str := ConvertChar(ToChar(n), width, f);
          out := Some(Text(str));
        }
        return;
      }
      out := ConvertNumber(k, n, width, precision, f);
  }

  method ConvertNumber(k: char, n: Int32, width: Int32, precision: Int32, f: Flags) returns (out: Option<Output>)
    ensures var text := NumberText(k, n, width, precision, f);
            out == if text.None? then None else Some(Text(text.value))
  {
    var p: Printing;
    match k {
      case 'o' => p := Number(n, 8, width, precision, f);
      case 'p' =>
        if width == -1 {
          p := Number(n, 16, 8, precision, f.(zeropad := true));
        } else {
          p := Number(n, 16, width, precision, f);
        }
      case 'x' => p := Number(n, 16, width, precision, f.(small := true));
      case 'X' => p := Number(n, 16, width, precision, f);
      case 'u' => p := Number(n, 10, width, precision, f);
      case _ => p := Number(n, 10, width, precision, f.(sign := true));
    }
    out := if p.Printed? then Some(Text(p.text)) else None;
  }

  /** From the conversion character on: the output it adds, and where the loop goes on. */
  method ShowAt(fmt: string, at: nat, args: seq<Arg>, used: nat, f: Flags, width: Int32, precision: Int32)
      returns (out: Option<Output>, next: nat, used': nat)
    requires at <= |fmt| && used <= |args|
    ensures at <= next <= |fmt| && used <= used' <= |args|
    ensures Show(Directive(f, width, precision, fmt[at..], args[used..])) ==
              if out.Some? then Some(Shown(out.value, fmt[next..], args[used'..])) else None
  {
    next, used' := at, used;
    if at == |fmt| {
      out := Some(Text("%"));
      return;
    }
    assert fmt[at..][1..] == fmt[at + 1..];
    next := at + 1;
    if !IsConversion(fmt[at]) {
      out := Some(Text(if fmt[at] == '%' then "%" else ['%', fmt[at]]));
    } else if used == |args| {
      out := None;
    } else {
      assert args[used..][1..] == args[used + 1..];
      out := Convert(fmt[at], args[used], width, precision, f);
      used' := used + 1;
    }
  }

  /** One turn of the loop at a directive. */
  method OneDirective(fmt: string, at: nat, args: seq<Arg>, used: nat)
      returns (out: Option<Output>, next: nat, used': nat)
    requires at < |fmt| && fmt[at] == '%' && used <= |args|
    ensures at < next <= |fmt| && used <= used' <= |args|
    ensures ShowNext(fmt[at + 1..], args[used..]) ==
              if out.Some? then Some(Shown(out.value, fmt[next..], args[used'..])) else None
  {
    var ok, f, width, precision, k, u := TakeDirective(fmt, at + 1, args, used);
    if ok {
      out, next, used' := ShowAt(fmt, k, args, u, f, width, precision);
    } else {
      out, next, used' := None, k, u;
    }
  }

  /** One turn of the loop: a character or a directive. */
  method OneTurn(fmt: string, at: nat, args: seq<Arg>, used: nat) returns (out: Option<Output>, next: nat, used': nat)
    requires at < |fmt| && used <= |args|
    ensures at < next <= |fmt| && used <= used' <= |args|
    ensures Format(fmt[at..], args[used..]) ==
            if out.Some? then Prepend(out.value, Format(fmt[next..], args[used'..])) else None
  {
    assert fmt[at..][1..] == fmt[at + 1..];
    if fmt[at] != '%' {
      return Some(Text([fmt[at]])), at + 1, used;
    }
    out, next, used' := OneDirective(fmt, at, args, used);
  }

  /** `vsprintf` on the text alone: the output, none if it is undefined, and the length returned. */
  method Vsprintf(fmt: string, args: seq<Arg>) returns (out: Option<Output>, len: nat)
    ensures out == Format(fmt, args) && (out.Some? ==> len == |out.value.text|)
  {
    var at, used, done := 0, 0, Text("");
    len := 0;
    assert fmt[0..] == fmt && args[0..] == args;
    PrependNothing(Format(fmt, args));
    while at < |fmt|
      invariant at <= |fmt| && used <= |args| && len == |done.text|
      invariant Format(fmt, args) == Prepend(done, Format(fmt[at..], args[used..]))
      decreases |fmt| - at
    {
      var shown, next, used' := OneTurn(fmt, at, args, used);
      if shown.None? {
        return None, 0;
      }
      PrependTwice(done, shown.value, Format(fmt[next..], args[used'..]));
      done := Then(done, shown.value);
      at, used, len := next, used', len + |shown.value.text|;
    }
    assert fmt[at..] == "";
    AtEnd(done);
    out := Some(done);
  }

  /** `*str++ = c` for each character of a text. */
  method Write(buf: array<char>, at: nat, text: string)
    requires at + |text| <= buf.Length
    modifies buf
    ensures buf[..at + |text|] == old(buf[..at]) + text && buf[at + |text|..] == old(buf[at + |text|..])
  {
    var k := 0;
    while k < |text|
      invariant k <= |text| && buf[..at] == old(buf[..at]) && buf[at..at + k] == text[..k]
      invariant buf[at + |text|..] == old(buf[at + |text|..])
    {
      buf[at + k] := text[k];
      k := k + 1;
    }
    assert buf[..at + k] == buf[..at] + buf[at..at + k];
  }

  /** Append what a turn shows, `%n` storing the characters so far. */
  method Append(buf: array<char>, len: nat, counts: seq<nat>, shown: Output) returns (len': nat, counts': seq<nat>)
    requires len + |shown.text| <= buf.Length
    modifies buf
    ensures len' == len + |shown.text| && buf[len'..] == old(buf[len'..])
    ensures Output(buf[..len'], counts') == Then(Output(old(buf[..len]), counts), shown)
  {
    counts' := counts + seq(|shown.counts|, i requires 0 <= i < |shown.counts| => len + shown.counts[i]);
    Write(buf, len, shown.text);
    len' := len + |shown.text|;
  }

  /** `vsprintf` into a buffer that has room for the text and the NUL after it. */
  method VsprintfInto(buf: array<char>, fmt: string, args: seq<Arg>) returns (len: nat, counts: seq<nat>)
    requires Format(fmt, args).Some? && |Format(fmt, args).value.text| < buf.Length
    modifies buf
    ensures len < buf.Length && buf[len] == '\0' && buf[len + 1..] == old(buf[len + 1..])
    ensures Format(fmt, args) == Some(Output(buf[..len], counts))
  {
    var at, used := 0, 0;
    ghost var total := Format(fmt, args).value;
    len, counts := 0, [];
    assert fmt[0..] == fmt && args[0..] == args;
    PrependNothing(Format(fmt, args));
    while at < |fmt|
      invariant at <= |fmt| && used <= |args| && len < buf.Length && buf[len..] == old(buf[..])[len..]
      invariant Some(total) == Prepend(Output(buf[..len], counts), Format(fmt[at..], args[used..]))
      decreases |fmt| - at
    {
      ghost var done := Output(buf[..len], counts);
      var shown, next, used' := OneTurn(fmt, at, args, used);
      Room(done, shown.value, Format(fmt[next..], args[used'..]), total);
      at, used := next, used';
      ghost var was := len;
      len, counts := Append(buf, len, counts, shown.value);
      assert old(buf[..])[len..] == old(buf[..])[was..][len - was..];
    }
    assert fmt[at..] == "";
    AtEnd(Output(buf[..len], counts));
    ghost var text := buf[..len];
    buf[len] := '\0';
    assert buf[..len] == text;
  }

  lemma Room(done: Output, shown: Output, rest: Option<Output>, total: Output)
    requires Some(total) == Prepend(done, Prepend(shown, rest))
    ensures Some(total) == Prepend(Then(done, shown), rest) && |done.text| + |shown.text| <= |total.text|
  {
    PrependTwice(done, shown, rest);
  }

  lemma AtEnd(done: Output)
    ensures Then(done, Text("")) == done
  {
    assert done.text + "" == done.text;
    assert Then(done, Text("")).counts == done.counts;
  }
}
