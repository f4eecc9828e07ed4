/** The formatter of src/rt/fmt.c: a bounded sink, against the text that an unbounded one would
    hold; and parse_int of src/gpibtest/gpibtest.c, which reads its numbers back. */
module Formatter {
  import opened Words
  import opened Wrappers

  type u16 = x: int | 0 <= x < 0x1_0000

  const PERCENT: u16 := 0x25
  const MINUS: u16 := 0x2D
  const ZERO: u16 := 0x30
  const SPACE: u16 := 0x20

  // ---- Numbers ------------------------------------------------------------------------

  const LOWER: seq<u16> :=
    [0x30, 0x31, 0x32, 0x33, 0x34, 0x35, 0x36, 0x37, 0x38, 0x39, 0x61, 0x62, 0x63, 0x64, 0x65, 0x66]
  const UPPER: seq<u16> :=
    [0x30, 0x31, 0x32, 0x33, 0x34, 0x35, 0x36, 0x37, 0x38, 0x39, 0x41, 0x42, 0x43, 0x44, 0x45, 0x46]

  function DigitSet(upper: bool): (s: seq<u16>)
    ensures |s| == 16
  {
    if upper then UPPER else LOWER
  }

  predicate Base(b: int) {
    b == 10 || b == 16
  }

  /** The digits of v, most significant first; at least one. */
  function DigitsOf(v: nat, base: nat, upper: bool): seq<u16>
    requires Base(base)
  {
    (if v < base then [] else DigitsOf(v / base, base, upper)) + [DigitSet(upper)[v % base]]
  }

  function Reversed(s: seq<u16>): seq<u16> {
    seq(|s|, i requires 0 <= i < |s| => s[|s| - 1 - i])
  }

  /** No 32-bit value needs more than ten digits. */
  lemma {:induction false} DigitsFit(v: nat, base: nat, upper: bool, k: nat)
    requires Base(base) && k >= 1 && v < Power(10, k)
    ensures 1 <= |DigitsOf(v, base, upper)| <= k
    decreases k
  {
    if v >= base {
      assert Power(10, k) == 10 * Power(10, k - 1);
      Quotients(v, base, Power(10, k - 1));
      DigitsFit(v / base, base, upper, k - 1);
    }
  }

  lemma Quotients(v: nat, base: nat, p: nat)
    requires Base(base) && v < 10 * p
    ensures v / base < p
  {
  }

  function Power(b: nat, k: nat): nat {
    if k == 0 then 1 else b * Power(b, k - 1)
  }

  lemma Power10()
    ensures Power(10, 10) == 10_000_000_000 && TWO32 <= Power(10, 10)
  {
    assert Power(10, 5) == 100_000;
    assert Power(10, 8) == 100_000_000;
  }

  /** digits: the buffer of twelve is never overrun. */
  method Digits(v0: u32, base: nat, upper: bool, tmp: array<u16>) returns (n: nat)
    requires Base(base) && tmp.Length == 12
    modifies tmp
    ensures 1 <= n <= 10 && tmp[..n] == Reversed(DigitsOf(v0, base, upper))
  {
    hide DigitsOf, DigitSet;
    Power10();
    DigitsFit(v0, base, upper, 10);
    ghost var all, tail: seq<u16> := DigitsOf(v0, base, upper), [];
    var v: nat := v0;
    n := 0;
    var more := true;
    while more
      invariant n == |tail| <= |all| <= 10
      invariant all == (if more then DigitsOf(v, base, upper) else []) + tail
      invariant forall i :: 0 <= i < n ==> tmp[i] == tail[n - 1 - i]
      decreases |all| - n, if more then 1 else 0
    {
      DigitsStep(v, base, upper);
      var d := DigitSet(upper)[v % base];
      tmp[n] := d;
      v := v / base;
      more := v != 0;
      n := n + 1;
      assert all == (if more then DigitsOf(v, base, upper) else []) + ([d] + tail);
      tail := [d] + tail;
    }
  }

  lemma DigitsStep(v: nat, base: nat, upper: bool)
    requires Base(base)
    ensures var d := [DigitSet(upper)[v % base]];
            DigitsOf(v, base, upper) == if v / base == 0 then d else DigitsOf(v / base, base, upper) + d
    ensures |DigitsOf(v, base, upper)| >= 1
  {
    assert v / base == 0 <==> v < base;
  }

  function Repeat(count: int, ch: u16): seq<u16> {
    if count <= 0 then [] else seq(count, i => ch)
  }

  /** The text of a number with sign and padding. */
  function NumberText(v: nat, base: nat, upper: bool, negative: bool, width: int, left: bool, zero: bool): seq<u16>
    requires Base(base)
  {
    var digits := DigitsOf(v, base, upper);
    var sign: seq<u16> := if negative then [MINUS] else [];
    var fill := width - |sign| - |digits|;
    if left then sign + digits + Repeat(fill, SPACE)
    else if zero then sign + Repeat(fill, ZERO) + digits
    else Repeat(fill, SPACE) + sign + digits
  }

  /** The text of a string with padding. */
  function StringText(s: seq<u16>, width: int, left: bool): seq<u16> {
    if left then s + Repeat(width - |s|, SPACE) else Repeat(width - |s|, SPACE) + s
  }

  // ---- Formats ------------------------------------------------------------------------

  /** What a caller passes: a 32-bit word, or a string of either width that may be NULL. */
  datatype Arg = Word(v: u32) | Text(s: Option<seq<u16>>)

  datatype Directive = Directive(left: bool, zero: bool, width: nat, conv: u16, rest: seq<u16>)

  function FlagsEnd(f: seq<u16>): (r: seq<u16>)
    ensures |r| <= |f|
  {
    if f != [] && (f[0] == MINUS || f[0] == ZERO) then FlagsEnd(f[1..]) else f
  }

  /** The flag occurs before the flags end. */
  predicate FlagSet(f: seq<u16>, flag: u16) {
    f != [] && (f[0] == MINUS || f[0] == ZERO) && (f[0] == flag || FlagSet(f[1..], flag))
  }

  predicate IsDigit(c: u16) {
    0x30 <= c <= 0x39
  }

  function WidthEnd(f: seq<u16>): (r: seq<u16>)
    ensures |r| <= |f|
  {
    if f != [] && IsDigit(f[0]) then WidthEnd(f[1..]) else f
  }

  function WidthOf(f: seq<u16>, w: nat): nat
    decreases |f|
  {
    if f != [] && IsDigit(f[0]) then WidthOf(f[1..], w * 10 + (f[0] - 0x30)) else w
  }

  /** What follows a percent sign; nothing if the format ends before a conversion. */
  function ParseDirective(f: seq<u16>): (d: Option<Directive>)
    ensures d.Some? ==> |d.value.rest| < |f|
  {
    var f1 := FlagsEnd(f);
    var f2 := WidthEnd(f1);
    var f3 := if f2 != [] && f2[0] == 0x6C then f2[1..] else f2;
    if f3 == [] then None
    else Some(Directive(FlagSet(f, MINUS), FlagSet(f, ZERO), WidthOf(f1, 0), f3[0], f3[1..]))
  }

  /** Conversions that take a word, and conversions that take a string. */
  predicate TakesWord(c: u16) {
    c == 0x64 || c == 0x69 || c == 0x75 || c == 0x78 || c == 0x58 || c == 0x70 || c == 0x63
  }

  predicate TakesText(c: u16) {
    c == 0x73 || c == 0x53
  }

  const NULL_TEXT: seq<u16> := [0x28, 0x6E, 0x75, 0x6C, 0x6C, 0x29]   // (null)

  function Magnitude(v: u32): nat {
    if Signed(v) < 0 then -Signed(v) else v
  }

  function WordText(d: Directive, v: u32): seq<u16> {
    var c := d.conv;
    if c == 0x64 || c == 0x69 then NumberText(Magnitude(v), 10, false, Signed(v) < 0, d.width, d.left, d.zero)
    else if c == 0x75 then NumberText(v, 10, false, false, d.width, d.left, d.zero)
    else if c == 0x78 then NumberText(v, 16, false, false, d.width, d.left, d.zero)
    else if c == 0x58 then NumberText(v, 16, true, false, d.width, d.left, d.zero)
    else if c == 0x70 then [0x30, 0x78] + NumberText(v, 16, false, false, 8, false, true)
    else [v % 0x1_0000]
  }

  function TextText(d: Directive, s: Option<seq<u16>>): seq<u16> {
    StringText(if s.Some? then s.value else NULL_TEXT, d.width, d.left)
  }

  /** The arguments are those that the conversions call for, and no width overflows an int. */
  predicate Matches(f: seq<u16>, args: seq<Arg>)
    decreases |f|
  {
    if f == [] then true
    else if f[0] != PERCENT then Matches(f[1..], args)
    else
      match ParseDirective(f[1..])
      case None => true
      case Some(d) =>
        d.width < TWO31 &&
        if TakesWord(d.conv) then args != [] && args[0].Word? && Matches(d.rest, args[1..])
        else if TakesText(d.conv) then args != [] && args[0].Text? && Matches(d.rest, args[1..])
        else Matches(d.rest, args)
  }

  function OtherText(c: u16): seq<u16> {
    if c == PERCENT then [PERCENT] else [PERCENT, c]
  }

  /** The whole text, without regard to any buffer. */
  function Render(f: seq<u16>, args: seq<Arg>): seq<u16>
    requires Matches(f, args)
    decreases |f|
  {
    if f == [] then []
    else if f[0] != PERCENT then [f[0]] + Render(f[1..], args)
    else
      match ParseDirective(f[1..])
      case None => []
      case Some(d) =>
        if TakesWord(d.conv) then WordText(d, args[0].v) + Render(d.rest, args[1..])
        else if TakesText(d.conv) then TextText(d, args[0].s) + Render(d.rest, args[1..])
        else OtherText(d.conv) + Render(d.rest, args)
  }

  // ---- The sink -----------------------------------------------------------------------

  /** What the buffer stores of a character: narrow buffers keep ASCII only. */
  function Kept(narrow: bool, ch: u16): u16 {
    if narrow && ch >= 0x80 then 0x3F else ch
  }

  class Sink {
    const buf: array<u16>
    const cap: u32
    const narrow: bool
    var len: u32             // characters put so far, also beyond cap
    ghost var text: seq<u16> // all of them
    ghost const before: seq<u16>

    /** As many characters as fit before the NUL are in the buffer; the rest is untouched. */
    ghost predicate Valid()
      reads this, buf
    {
      && cap <= buf.Length && |before| == buf.Length
      && len == |text|
      && (forall i :: 0 <= i < |text| && i + 1 < cap ==> buf[i] == Kept(narrow, text[i]))
      && (forall i :: 0 <= i < buf.Length && (i >= |text| || i + 1 >= cap) ==> buf[i] == before[i])
    }

    constructor (buf: array<u16>, cap: u32, narrow: bool)
      requires cap <= buf.Length
      ensures Valid() && text == [] && this.buf == buf && this.cap == cap && this.narrow == narrow
      ensures before == buf[..]
    {
      this.buf, this.cap, this.narrow, len, text, before := buf, cap, narrow, 0, [], buf[..];
    }

    /** put */
    method Put(ch: u16)
      requires Valid() && |text| + 1 < TWO32
      modifies this, buf
      ensures Valid() && text == old(text) + [ch]
    {
      if Wrap(len + 1) < cap {
        buf[len] := Kept(narrow, ch);
      }
      len := Wrap(len + 1);
      text := text + [ch];
    }

    /** finish: the text is closed with a NUL, wherever it was cut. */
    method Finish()
      requires Valid()
      modifies buf
      ensures cap > 0 ==>
                var end := Min(|text|, cap - 1);
                && (forall i :: 0 <= i < end ==> buf[i] == Kept(narrow, text[i]))
                && buf[end] == 0
                && (forall i :: end < i < buf.Length ==> buf[i] == before[i])
      ensures cap == 0 ==> buf[..] == before
    {
      if cap == 0 {
        return;
      }
      var end := if len < cap then len else cap - 1;
      buf[end] := 0;
    }

    method Pad(count: int, ch: u16)
      requires Valid() && |text| + |Repeat(count, ch)| < TWO32
      modifies this, buf
      ensures Valid() && text == old(text) + Repeat(count, ch)
    {
      var left := count;
      while left > 0
        invariant left <= count && Valid()
        invariant text == old(text) + Repeat(if left > 0 then count - left else count, ch)
      {
        Put(ch);
        left := left - 1;
      }
    }

    method PutAll(s: seq<u16>)
      requires Valid() && |text| + |s| < TWO32
      modifies this, buf
      ensures Valid() && text == old(text) + s
    {
      for i := 0 to |s|
        invariant Valid() && text == old(text) + s[..i]
      {
        Put(s[i]);
        assert s[..i + 1] == s[..i] + [s[i]];
      }
      assert s[..|s|] == s;
    }

    /** The digits come out of the buffer last first. */
    method PutReversed(tmp: array<u16>, n: nat)
      requires Valid() && n <= tmp.Length && tmp != buf && |text| + n < TWO32
      modifies this, buf
      ensures Valid() && text == old(text) + Reversed(tmp[..n])
    {
      ghost var r := Reversed(tmp[..n]);
      var k := n;
      while k > 0
        invariant k <= n && Valid() && text == old(text) + r[..n - k]
      {
        k := k - 1;
        Put(tmp[k]);
        assert r[..n - k] == r[..n - k - 1] + [tmp[k]];
      }
      assert r[..n] == r;
    }

    /** emit_number */
    method EmitNumber(v: u32, base: nat, upper: bool, negative: bool, width: int, left: bool, zero: bool)
      requires Valid() && Base(base)
      requires |text| + |NumberText(v, base, upper, negative, width, left, zero)| < TWO32
      modifies this, buf
      ensures Valid() && text == old(text) + NumberText(v, base, upper, negative, width, left, zero)
    {
      hide DigitsOf, Valid, Repeat, Reversed, NumberText;
      var tmp := new u16[12];
      ghost var text0, digits := text, DigitsOf(v, base, upper);
      assert Valid();
      var n := Digits(v, base, upper, tmp);
      ReverseTwice(digits);
      var total := n + if negative then 1 else 0;
      var fill := if width > total then width - total else 0;
      NumberPieces(v, base, upper, negative, width, left, zero, fill);
      RepeatLength(fill);
      if !left && !zero {
        Pad(fill, SPACE);
      }
      ghost var text1 := text;
      if negative {
        Put(MINUS);
      }
      ghost var text2 := text;
      if !left && zero {
        Pad(fill, ZERO);
      }
      ghost var text3 := text;
      PutReversed(tmp, n);
      if left {
        Pad(fill, SPACE);
      }
      FivePieces(text0, text1, text2, text3, text, digits, negative, fill, left, zero);
    }

    /** emit_wstr and emit_str */
    method EmitText(arg: Option<seq<u16>>, width: int, left: bool)
      requires Valid()
      requires |text| + |StringText(if arg.Some? then arg.value else NULL_TEXT, width, left)| < TWO32
      modifies this, buf
      ensures Valid() && text == old(text) + StringText(if arg.Some? then arg.value else NULL_TEXT, width, left)
    {
      hide Valid, Repeat, StringText;
      var s := if arg.Some? then arg.value else NULL_TEXT;
      var n := |s|;
      var fill := if width > n then width - n else 0;
      TextPieces(s, width, left, fill);
      RepeatLength(fill);
      if !left {
        Pad(fill, SPACE);
      }
      PutAll(s);
      if left {
        Pad(fill, SPACE);
      }
    }

    method EmitWord(d: Directive, v: u32)
      requires Valid() && TakesWord(d.conv) && |text| + |WordText(d, v)| < TWO32
      modifies this, buf
      ensures Valid() && text == old(text) + WordText(d, v)
    {
      hide Valid, NumberText;
      var c := d.conv;
      if c == 0x64 || c == 0x69 {
        var negative := Signed(v) < 0;
        EmitNumber(Magnitude(v), 10, false, negative, d.width, d.left, d.zero);
      } else if c == 0x75 {
        EmitNumber(v, 10, false, false, d.width, d.left, d.zero);
      } else if c == 0x78 {
        EmitNumber(v, 16, false, false, d.width, d.left, d.zero);
      } else if c == 0x58 {
        EmitNumber(v, 16, true, false, d.width, d.left, d.zero);
      } else if c == 0x70 {
        Put(0x30);
        Put(0x78);
        EmitNumber(v, 16, false, false, 8, false, true);
        assert text == old(text) + [0x30] + [0x78] + NumberText(v, 16, false, false, 8, false, true);
      } else {
        Put(v % 0x1_0000);
      }
    }
  }

  lemma TextPieces(s: seq<u16>, width: int, left: bool, fill: nat)
    requires fill == if width > |s| then width - |s| else 0
    ensures StringText(s, width, left)
         == (if !left then Repeat(fill, SPACE) else []) + s + (if left then Repeat(fill, SPACE) else [])
    ensures |StringText(s, width, left)| == |s| + fill
  {
  }

  /** The five pieces of a number in the order that emit_number puts them. */
  function Pieces(digits: seq<u16>, negative: bool, fill: nat, left: bool, zero: bool): seq<u16> {
    (if !left && !zero then Repeat(fill, SPACE) else []) + (if negative then [MINUS] else []) +
    (if !left && zero then Repeat(fill, ZERO) else []) + digits + (if left then Repeat(fill, SPACE) else [])
  }

  lemma NumberPieces(v: nat, base: nat, upper: bool, negative: bool, width: int, left: bool, zero: bool, fill: nat)
    requires Base(base)
    requires fill == (var total := |DigitsOf(v, base, upper)| + (if negative then 1 else 0);
                      if width > total then width - total else 0)
    ensures NumberText(v, base, upper, negative, width, left, zero)
         == Pieces(DigitsOf(v, base, upper), negative, fill, left, zero)
  {
    hide DigitsOf;
  }

  lemma RepeatLength(n: nat)
    ensures |Repeat(n, SPACE)| == n && |Repeat(n, ZERO)| == n
  {
  }

  lemma FivePieces(t0: seq<u16>, t1: seq<u16>, t2: seq<u16>, t3: seq<u16>, t4: seq<u16>, digits: seq<u16>,
                   negative: bool, fill: nat, left: bool, zero: bool)
    requires t1 == if !left && !zero then t0 + Repeat(fill, SPACE) else t0
    requires t2 == if negative then t1 + [MINUS] else t1
    requires t3 == if !left && zero then t2 + Repeat(fill, ZERO) else t2
    requires t4 == if left then t3 + digits + Repeat(fill, SPACE) else t3 + digits
    ensures t4 == t0 + Pieces(digits, negative, fill, left, zero)
  {
    hide Repeat;
    var a := if !left && !zero then Repeat(fill, SPACE) else [];
    var b: seq<u16> := if negative then [MINUS] else [];
    var c := if !left && zero then Repeat(fill, ZERO) else [];
    var e := if left then Repeat(fill, SPACE) else [];
    JoinFive(t0, t1, t2, t3, t4, a, b, c, digits, e);
  }

  lemma JoinFive(t0: seq<u16>, t1: seq<u16>, t2: seq<u16>, t3: seq<u16>, t4: seq<u16>,
                 a: seq<u16>, b: seq<u16>, c: seq<u16>, d: seq<u16>, e: seq<u16>)
    requires t1 == t0 + a && t2 == t1 + b && t3 == t2 + c && t4 == t3 + d + e
    ensures t4 == t0 + (a + b + c + d + e)
  {
  }

  lemma ReverseTwice(s: seq<u16>)
    ensures Reversed(Reversed(s)) == s && |Reversed(s)| == |s|
  {
  }

  // ---- The format loop ----------------------------------------------------------------

  /** What stands between a percent sign and the end of its conversion. */
  method ReadDirective(f0: seq<u16>) returns (d: Option<Directive>)
    ensures d == ParseDirective(f0)
  {
    var f, left, zero := f0, false, false;
    while f != [] && (f[0] == MINUS || f[0] == ZERO)
      invariant FlagsEnd(f) == FlagsEnd(f0)
      invariant (left || FlagSet(f, MINUS)) == FlagSet(f0, MINUS)
      invariant (zero || FlagSet(f, ZERO)) == FlagSet(f0, ZERO)
      decreases |f|
    {
      if f[0] == MINUS {
        left := true;
      } else {
        zero := true;
      }
      f := f[1..];
    }
    var f1, width: nat := f, 0;
    while f != [] && IsDigit(f[0])
      invariant WidthEnd(f) == WidthEnd(f1) && WidthOf(f, width) == WidthOf(f1, 0)
      decreases |f|
    {
      width := width * 10 + (f[0] - 0x30);
      f := f[1..];
    }
    if f != [] && f[0] == 0x6C {
      f := f[1..];
    }
    d := if f == [] then None else Some(Directive(left, zero, width, f[0], f[1..]));
  }

  /** The text of one conversion. */
  function DirectiveText(d: Directive, args: seq<Arg>): seq<u16>
    requires TakesWord(d.conv) ==> args != [] && args[0].Word?
    requires TakesText(d.conv) ==> args != [] && args[0].Text?
  {
    if TakesWord(d.conv) then WordText(d, args[0].v)
    else if TakesText(d.conv) then TextText(d, args[0].s)
    else OtherText(d.conv)
  }

  function ArgsLeft(d: Directive, args: seq<Arg>): seq<Arg>
    requires TakesWord(d.conv) || TakesText(d.conv) ==> args != []
  {
    if TakesWord(d.conv) || TakesText(d.conv) then args[1..] else args
  }

  lemma WordsAreNotTexts(c: u16)
    ensures !(TakesWord(c) && TakesText(c))
  {
  }

  lemma RenderStep(f: seq<u16>, args: seq<Arg>)
    requires f != [] && Matches(f, args)
    ensures f[0] != PERCENT ==> Matches(f[1..], args) && Render(f, args) == [f[0]] + Render(f[1..], args)
    ensures f[0] == PERCENT && ParseDirective(f[1..]).None? ==> Render(f, args) == []
    ensures f[0] == PERCENT && ParseDirective(f[1..]).Some? ==>
              var d := ParseDirective(f[1..]).value;
              && (TakesWord(d.conv) ==> args != [] && args[0].Word?)
              && (TakesText(d.conv) ==> args != [] && args[0].Text?)
              && Matches(d.rest, ArgsLeft(d, args))
              && Render(f, args) == DirectiveText(d, args) + Render(d.rest, ArgsLeft(d, args))
  {
    hide ParseDirective, WordText, TextText, OtherText, TakesWord, TakesText;
    if f[0] == PERCENT && ParseDirective(f[1..]).Some? {
      WordsAreNotTexts(ParseDirective(f[1..]).value.conv);
    }
  }

  method EmitDirective(s: Sink, d: Directive, args: seq<Arg>)
    requires s.Valid()
    requires TakesWord(d.conv) ==> args != [] && args[0].Word?
    requires TakesText(d.conv) ==> args != [] && args[0].Text?
    requires |s.text| + |DirectiveText(d, args)| < TWO32
    modifies s, s.buf
    ensures s.Valid() && s.text == old(s.text) + DirectiveText(d, args)
  {
    hide WordText, TakesWord, TakesText, StringText;
    WordsAreNotTexts(d.conv);
    if TakesWord(d.conv) {
      s.EmitWord(d, args[0].v);
    } else if TakesText(d.conv) {
      s.EmitText(args[0].s, d.width, d.left);
    } else if d.conv == PERCENT {
      s.Put(PERCENT);
    } else {
      s.Put(PERCENT);
      s.Put(d.conv);
      assert s.text == old(s.text) + [PERCENT] + [d.conv];
    }
  }

  /** format: whatever the buffer, the text produced is the whole rendering. */
  method Produce(s: Sink, fmt: seq<u16>, args: seq<Arg>)
    requires s.Valid() && s.text == [] && Matches(fmt, args) && |Render(fmt, args)| < TWO32
    modifies s, s.buf
    ensures s.Valid() && s.text == Render(fmt, args)
  {
    hide Matches, Render, ParseDirective, DirectiveText, TakesWord, TakesText;
    var f, a := fmt, args;
    assert [] + Render(f, a) == Render(f, a);
    while f != []
      invariant s.Valid() && Matches(f, a) && s.text + Render(f, a) == Render(fmt, args)
      decreases |f|
    {
      RenderStep(f, a);
      if f[0] != PERCENT {
        ghost var t := s.text;
        s.Put(f[0]);
        assert t + ([f[0]] + Render(f[1..], a)) == s.text + Render(f[1..], a);
        f := f[1..];
        continue;
      }
      var d := ReadDirective(f[1..]);
      if d == None {
        assert s.text + [] == s.text;
        return;
      }
      ghost var t, piece := s.text, DirectiveText(d.value, a);
      EmitDirective(s, d.value, a);
      f, a := d.value.rest, ArgsLeft(d.value, a);
      assert t + (piece + Render(f, a)) == s.text + Render(f, a);
    }
    RenderNothing(a);
    assert s.text + [] == s.text;
  }

  lemma RenderNothing(a: seq<Arg>)
    requires Matches([], a)
    ensures Render([], a) == []
  {
  }

  /** rt_vfmt and rt_vfmt8: for every format, arguments and buffer, the buffer gets the first
      cap - 1 characters of the rendering or all of them, a NUL, and nothing else; the result is
      the length of the rendering. */
  method Format(buf: array<u16>, cap: u32, narrow: bool, fmt: seq<u16>, args: seq<Arg>) returns (r: int)
    requires cap <= buf.Length && Matches(fmt, args) && |Render(fmt, args)| < TWO32
    modifies buf
    ensures r == Signed(|Render(fmt, args)|)
    ensures cap == 0 ==> buf[..] == old(buf[..])
    ensures cap > 0 ==>
              var text := Render(fmt, args);
              var end := Min(|text|, cap - 1);
              && (forall i :: 0 <= i < end ==> buf[i] == if narrow && text[i] >= 0x80 then 0x3F else text[i])
              && buf[end] == 0
              && (forall i :: end < i < buf.Length ==> buf[i] == old(buf[i]))
  {
    hide Matches, Render;
    var s := new Sink(buf, cap, narrow);
    Produce(s, fmt, args);
    s.Finish();
    r := Signed(s.len);
  }

  // ---- Reading numbers back -----------------------------------------------------------

  /** What parse_int makes of a text. A value beyond an int has no meaning in C. */
  datatype Parsed = NotANumber | Number(v: int) | Overflow

  function DigitValue(c: u16, base: nat): Option<nat>
    requires Base(base)
  {
    if IsDigit(c) then Some(c - 0x30)
    else if base == 16 && 0x61 <= c <= 0x66 then Some(c - 0x61 + 10)
    else if base == 16 && 0x41 <= c <= 0x46 then Some(c - 0x41 + 10)
    else None
  }

  function WithDigit(v: Option<nat>, d: Option<nat>, base: nat): Option<nat> {
    if v.Some? && d.Some? then Some(v.value * base + d.value) else None
  }

  /** The number that a digit text denotes, if it is one. */
  function ValueOf(s: seq<u16>, base: nat): Option<nat>
    requires Base(base)
  {
    if s == [] then Some(0)
    else WithDigit(ValueOf(s[..|s| - 1], base), DigitValue(s[|s| - 1], base), base)
  }

  lemma DigitBack(d: nat, base: nat, upper: bool)
    requires Base(base) && d < base
    ensures DigitValue(DigitSet(upper)[d], base) == Some(d) && DigitSet(upper)[d] != MINUS
  {
  }

  /** The recursion of DigitsOf with the quotient and the remainder given names. */
  lemma Unfolded(v: nat, base: nat, upper: bool) returns (q: nat, r: nat)
    requires Base(base)
    ensures v == q * base + r && r < base && (v >= base ==> q < v) && (v < base ==> v == r)
    ensures DigitsOf(v, base, upper) == (if v < base then [] else DigitsOf(q, base, upper)) + [DigitSet(upper)[r]]
  {
    hide DigitSet;
    q, r := v / base, v % base;
    if base == 10 {
      assert v == v / 10 * 10 + v % 10;
    } else {
      assert v == v / 16 * 16 + v % 16;
    }
  }

  lemma ValueSnoc(t: seq<u16>, c: u16, base: nat)
    requires Base(base)
    ensures ValueOf(t + [c], base) == WithDigit(ValueOf(t, base), DigitValue(c, base), base)
  {
    hide DigitValue;
    assert (t + [c])[..|t + [c]| - 1] == t;
  }

  /** One more digit: ten decimal ones, and six letters of either case in base 16. */
  lemma DigitAppended(t: seq<u16>, c: u16, base: nat)
    requires Base(base) && ValueOf(t, base).Some?
    ensures ValueOf(t + [c], base)
         == if 0x30 <= c <= 0x39 then Some(ValueOf(t, base).value * base + (c - 0x30))
            else if base == 16 && 0x41 <= c <= 0x46 then Some(ValueOf(t, base).value * base + (c - 0x41 + 10))
            else if base == 16 && 0x61 <= c <= 0x66 then Some(ValueOf(t, base).value * base + (c - 0x61 + 10))
            else None
  {
    hide ValueOf;
    ValueSnoc(t, c, base);
  }

  lemma {:induction false} DigitsReadBack(v: nat, base: nat, upper: bool)
    requires Base(base)
    ensures |DigitsOf(v, base, upper)| > 0 && DigitsOf(v, base, upper)[0] != MINUS
    ensures ValueOf(DigitsOf(v, base, upper), base) == Some(v)
    decreases v
  {
    hide DigitsOf, DigitSet, DigitValue, ValueOf;
    var q, r := Unfolded(v, base, upper);
    DigitBack(r, base, upper);
    var front: seq<u16> := if v < base then [] else DigitsOf(q, base, upper);
    ValueSnoc(front, DigitSet(upper)[r], base);
    if v >= base {
      DigitsReadBack(q, base, upper);
    } else {
      NoDigits(base);
    }
  }

  lemma NoDigits(base: nat)
    requires Base(base)
    ensures ValueOf([], base) == Some(0)
  {
  }

  /** What parse_int makes of a text: an optional minus sign and at least one digit. */
  function ParsedInt(s: seq<u16>, base: nat): Parsed
    requires Base(base)
  {
    var negative := s != [] && s[0] == MINUS;
    var t := if negative then s[1..] else s;
    if t == [] then NotANumber
    else
      match ValueOf(t, base)
      case None => NotANumber
      case Some(v) => if v >= TWO31 then Overflow else Number(if negative then -(v as int) else v)
  }

  lemma {:induction false} BadDigitSpoils(t: seq<u16>, i: nat, base: nat)
    requires Base(base) && i < |t| && DigitValue(t[i], base) == None
    ensures ValueOf(t, base) == None
    decreases |t|
  {
    if i < |t| - 1 {
      BadDigitSpoils(t[..|t| - 1], i, base);
    }
  }

  /** parse_int */
  method ParseInt(s0: seq<u16>, base: nat) returns (r: Parsed)
    requires Base(base)
    ensures r == ParsedInt(s0, base)
  {
    var s, negative := s0, false;
    if s != [] && s[0] == MINUS {
      negative, s := true, s[1..];
    }
    if s == [] {
      return NotANumber;
    }
    var v: nat := 0;
    var i := 0;
    while i < |s|
      invariant i <= |s| && ValueOf(s[..i], base) == Some(v)
    {
      var d := DigitValue(s[i], base);
      if d == None {
        BadDigitSpoils(s, i, base);
        return NotANumber;
      }
      assert s[..i + 1][..i] == s[..i];
      v := v * base + d.value;
      i := i + 1;
    }
    assert s[..|s|] == s;
    r := if v >= TWO31 then Overflow else Number(if negative then -(v as int) else v);
  }

  lemma PlainNumber(digits: seq<u16>, negative: bool)
    ensures var sign: seq<u16> := if negative then [MINUS] else [];
            Repeat(0 - |sign| - |digits|, SPACE) + sign + digits == sign + digits
  {
  }

  /** A conversion by itself, without flags or width. */
  lemma RenderOne(conv: u16, v: u32)
    requires conv == 0x64 || conv == 0x69 || conv == 0x78 || conv == 0x58
    ensures Matches([PERCENT, conv], [Word(v)])
    ensures Render([PERCENT, conv], [Word(v)]) == WordText(Directive(false, false, 0, conv, []), v)
  {
    hide WordText;
    var f, a := [PERCENT, conv], [Word(v)];
    assert f[1..] == [conv] && [conv][1..] == [] && a[1..] == [];
    assert ParseDirective([conv]) == Some(Directive(false, false, 0, conv, []));
    assert Matches([], a[1..]) && Render([], a[1..]) == [];
    var text := WordText(Directive(false, false, 0, conv, []), v);
    assert text + [] == text;
  }

  /** What %d and %i print reads back as the same value, but for the one whose magnitude is no
      int. */
  lemma {:induction false} DecimalReadsBack(v: u32, conv: u16)
    requires conv == 0x64 || conv == 0x69
    ensures Matches([PERCENT, conv], [Word(v)])
    ensures ParsedInt(Render([PERCENT, conv], [Word(v)]), 10) == Number(Signed(v)) <==> Signed(v) != -TWO31
  {
    hide DigitsOf, ValueOf, Matches, Render;
    RenderOne(conv, v);
    var digits := DigitsOf(Magnitude(v), 10, false);
    DigitsReadBack(Magnitude(v), 10, false);
    var text := NumberText(Magnitude(v), 10, false, Signed(v) < 0, 0, false, false);
    PlainNumber(digits, Signed(v) < 0);
    if Signed(v) < 0 {
      assert text == [MINUS] + digits && text[1..] == digits;
    } else {
      assert text == digits;
    }
  }

  /** What %x and %X print reads back as the same value exactly below 2^31. */
  lemma {:induction false} HexReadsBack(v: u32, conv: u16)
    requires conv == 0x78 || conv == 0x58
    ensures Matches([PERCENT, conv], [Word(v)])
    ensures ParsedInt(Render([PERCENT, conv], [Word(v)]), 16) == Number(v) <==> v < TWO31
  {
    hide DigitsOf, ValueOf, Matches, Render;
    RenderOne(conv, v);
    var digits := DigitsOf(v, 16, conv == 0x58);
    DigitsReadBack(v, 16, conv == 0x58);
    PlainNumber(digits, false);
    assert NumberText(v, 16, conv == 0x58, false, 0, false, false) == digits;
  }

  // ---- What each directive does to the text --------------------------------------------

  predicate AllDigits(s: seq<u16>) {
    forall i: nat :: i < |s| ==> 0x30 <= s[i] <= 0x39
  }

  predicate AllFlags(s: seq<u16>) {
    forall i: nat :: i < |s| ==> s[i] == 0x2D || s[i] == 0x30
  }

  lemma {:induction false} FlagsRead(flags: seq<u16>, rest: seq<u16>, flag: u16)
    requires AllFlags(flags) && (rest == [] || (rest[0] != 0x2D && rest[0] != 0x30))
    ensures FlagsEnd(flags + rest) == rest && (FlagSet(flags + rest, flag) <==> flag in flags)
    decreases |flags|
  {
    if flags == [] {
      assert flags + rest == rest;
    } else {
      assert (flags + rest)[0] == flags[0] && (flags + rest)[1..] == flags[1..] + rest;
      FlagsRead(flags[1..], rest, flag);
      assert flags == [flags[0]] + flags[1..];
    }
  }

  lemma {:induction false} WidthRead(before: seq<u16>, digits: seq<u16>, rest: seq<u16>, w: nat)
    requires AllDigits(digits) && (rest == [] || !IsDigit(rest[0])) && ValueOf(before, 10) == Some(w)
    ensures WidthEnd(digits + rest) == rest
    ensures ValueOf(before + digits, 10) == Some(WidthOf(digits + rest, w))
    decreases |digits|
  {
    hide ValueOf;
    if digits == [] {
      assert digits + rest == rest && before + digits == before;
    } else {
      assert (digits + rest)[0] == digits[0] && (digits + rest)[1..] == digits[1..] + rest;
      ValueSnoc(before, digits[0], 10);
      assert before + [digits[0]] + digits[1..] == before + digits;
      WidthRead(before + [digits[0]], digits[1..], rest, w * 10 + (digits[0] - 0x30));
    }
  }

  /** How a directive is read: minus signs and zeros in any order and number, a width in decimal,
      an l that means nothing, and the conversion. A format that ends before it has none. */
  lemma {:induction false} DirectiveRead(flags: seq<u16>, digits: seq<u16>, l: bool, conv: u16, rest: seq<u16>)
    requires AllFlags(flags) && AllDigits(digits) && (digits != [] ==> digits[0] != 0x30)
    requires l || (!(0x30 <= conv <= 0x39) && conv != 0x6C && (digits == [] ==> conv != 0x2D))
    ensures var d := ParseDirective(flags + digits + (if l then [0x6C] else []) + [conv] + rest);
            && d.Some? && d.value.left == (0x2D in flags) && d.value.zero == (0x30 in flags)
            && Some(d.value.width) == ValueOf(digits, 10) && d.value.conv == conv && d.value.rest == rest
    ensures ParseDirective(flags + digits + (if l then [0x6C] else [])) == None
  {
    hide FlagsEnd, FlagSet, WidthEnd, WidthOf, ValueOf;
    NoDigits(10);
    var tail := (if l then [0x6C] else []) + [conv] + rest;
    var short: seq<u16> := if l then [0x6C] else [];
    assert flags + digits + short + [conv] + rest == flags + (digits + tail);
    assert flags + digits + short == flags + (digits + short);
    FlagsRead(flags, digits + tail, 0x2D);
    FlagsRead(flags, digits + tail, 0x30);
    FlagsRead(flags, digits + short, 0x2D);
    WidthRead([], digits, tail, 0);
    WidthRead([], digits, short, 0);
    assert [] + digits == digits;
    if l {
      assert tail[1..] == [conv] + rest;
    } else {
      assert tail == [conv] + rest;
    }
    assert ([conv] + rest)[1..] == rest;
  }

  /** The characters of a number, and no zero in front of it unless it is zero. */
  predicate GoodDigits(s: seq<u16>, base: nat, upper: bool) {
    && |s| >= 1 && (|s| > 1 ==> s[0] != 0x30)
    && forall i: nat :: i < |s| ==>
         0x30 <= s[i] <= 0x39 || (base == 16 && (if upper then 0x41 <= s[i] <= 0x46 else 0x61 <= s[i] <= 0x66))
  }

  lemma {:induction false} DigitsAreGood(v: nat, base: nat, upper: bool)
    requires Base(base)
    ensures GoodDigits(DigitsOf(v, base, upper), base, upper)
    ensures v > 0 ==> DigitsOf(v, base, upper)[0] != 0x30
    decreases v
  {
    hide DigitsOf;
    var q, r := Unfolded(v, base, upper);
    if v >= base {
      DigitsAreGood(q, base, upper);
    }
  }

  lemma {:induction false} HexDigitsFit(v: nat, upper: bool, k: nat)
    requires k >= 1 && v < Power(16, k)
    ensures |DigitsOf(v, 16, upper)| <= k
    decreases k
  {
    hide DigitsOf;
    var q, r := Unfolded(v, 16, upper);
    if v >= 16 {
      assert Power(16, k) == 16 * Power(16, k - 1);
      HexDigitsFit(q, upper, k - 1);
    }
  }

  lemma {:induction false} ZerosInFront(k: nat, s: seq<u16>, base: nat)
    requires Base(base) && AllZeros(s[..Min(k, |s|)]) && k <= |s|
    ensures ValueOf(s, base) == ValueOf(s[k..], base)
    decreases |s|
  {
    hide DigitValue, WithDigit;
    if |s| == k {
      OnlyZeros(s, base);
    } else {
      var n := |s| - 1;
      assert s[..n][..Min(k, n)] == s[..Min(k, |s|)] && s[..n][k..] == s[k..][..n - k];
      ZerosInFront(k, s[..n], base);
    }
  }

  predicate AllZeros(s: seq<u16>) {
    forall i: nat :: i < |s| ==> s[i] == 0x30
  }

  lemma {:induction false} OnlyZeros(s: seq<u16>, base: nat)
    requires Base(base) && AllZeros(s)
    ensures ValueOf(s, base) == Some(0)
    decreases |s|
  {
    if s != [] {
      OnlyZeros(s[..|s| - 1], base);
    }
  }

  /** %d, %i, %u, %x and %X with any flags and width: a sign for negative values of the first two,
      the digits of the magnitude, and between them, in front or behind as much as the width is
      missing; zeros only between sign and digits. Nothing more, and the rest of the format goes
      on with the rest of the arguments. */
  lemma NumberConverted(f: seq<u16>, d: Directive, v: u32, args: seq<Arg>)
    returns (sign: seq<u16>, fill: seq<u16>, digits: seq<u16>)
    requires ParseDirective(f) == Some(d) && d.width < TWO31 && Matches(d.rest, args)
    requires d.conv in [0x64, 0x69, 0x75, 0x78, 0x58]
    ensures Matches([0x25] + f, [Word(v)] + args)
    ensures Render([0x25] + f, [Word(v)] + args)
         == (if d.left then sign + digits + fill
             else if d.zero then sign + fill + digits else fill + sign + digits) + Render(d.rest, args)
    ensures sign == if d.conv in [0x64, 0x69] && v >= 0x8000_0000 then [0x2D] else []
    ensures ValueOf(digits, if d.conv in [0x78, 0x58] then 16 else 10)
         == Some(if sign == [] then v else 0x1_0000_0000 - v)
    ensures GoodDigits(digits, if d.conv in [0x78, 0x58] then 16 else 10, d.conv == 0x58)
    ensures |fill| == if d.width > |sign| + |digits| then d.width - |sign| - |digits| else 0
    ensures forall i: nat :: i < |fill| ==> fill[i] == if d.zero && !d.left then 0x30 else 0x20
  {
    hide ParseDirective, DigitsOf, ValueOf, GoodDigits, Matches, Render, WordText, NumberText, Repeat;
    RenderHead(f, d, Word(v), args);
    var base := if d.conv in [0x78, 0x58] then 16 else 10;
    var negative := d.conv in [0x64, 0x69] && v >= 0x8000_0000;
    var m := if negative then 0x1_0000_0000 - v else v;
    sign := if negative then [0x2D] else [];
    digits := DigitsOf(m, base, d.conv == 0x58);
    fill := Repeat(d.width - |sign| - |digits|, if d.zero && !d.left then 0x30 else 0x20);
    DigitsReadBack(m, base, d.conv == 0x58);
    DigitsAreGood(m, base, d.conv == 0x58);
    NumberOf(d, v, negative, m);
    Layout(m, base, d.conv == 0x58, negative, d.width, d.left, d.zero, sign, digits, fill);
  }

  lemma NumberOf(d: Directive, v: u32, negative: bool, m: nat)
    requires d.conv in [0x64, 0x69, 0x75, 0x78, 0x58]
    requires negative == (d.conv in [0x64, 0x69] && v >= 0x8000_0000)
    requires m == if negative then 0x1_0000_0000 - v else v
    ensures WordText(d, v) == NumberText(m, if d.conv in [0x78, 0x58] then 16 else 10, d.conv == 0x58, negative,
                                         d.width, d.left, d.zero)
  {
    hide NumberText;
  }

  lemma Layout(m: nat, base: nat, upper: bool, negative: bool, width: nat, left: bool, zero: bool,
               sign: seq<u16>, digits: seq<u16>, fill: seq<u16>)
    requires Base(base) && digits == DigitsOf(m, base, upper) && sign == if negative then [0x2D] else []
    requires fill == Repeat(width - |sign| - |digits|, if zero && !left then 0x30 else 0x20)
    ensures NumberText(m, base, upper, negative, width, left, zero)
         == if left then sign + digits + fill else if zero then sign + fill + digits else fill + sign + digits
    ensures |fill| == if width > |sign| + |digits| then width - |sign| - |digits| else 0
    ensures forall i: nat :: i < |fill| ==> fill[i] == if zero && !left then 0x30 else 0x20
  {
    hide DigitsOf;
  }

  /** %p: 0x and eight digits, whatever the flags and the width. */
  lemma PointerConverted(f: seq<u16>, d: Directive, v: u32, args: seq<Arg>) returns (digits: seq<u16>)
    requires ParseDirective(f) == Some(d) && d.width < TWO31 && Matches(d.rest, args) && d.conv == 0x70
    ensures Matches([0x25] + f, [Word(v)] + args)
    ensures Render([0x25] + f, [Word(v)] + args) == [0x30, 0x78] + digits + Render(d.rest, args)
    ensures |digits| == 8 && ValueOf(digits, 16) == Some(v)
    ensures forall i: nat :: i < 8 ==> 0x30 <= digits[i] <= 0x39 || 0x61 <= digits[i] <= 0x66
  {
    hide ParseDirective, DigitsOf, ValueOf;
    RenderHead(f, d, Word(v), args);
    var plain := DigitsOf(v, 16, false);
    Power16();
    HexDigitsFit(v, false, 8);
    DigitsReadBack(v, 16, false);
    DigitsAreGood(v, 16, false);
    var k := 8 - |plain|;
    digits := Repeat(k, ZERO) + plain;
    assert digits[k..] == plain && AllZeros(digits[..k]);
    ZerosInFront(k, digits, 16);
    assert WordText(d, v) == [0x30, 0x78] + digits;
  }

  lemma Power16()
    ensures Power(16, 8) == TWO32
  {
    assert Power(16, 4) == 65536;
  }

  /** %s and %S: the string unbroken, or (null), with blanks on one side. */
  lemma TextConverted(f: seq<u16>, d: Directive, s: Option<seq<u16>>, args: seq<Arg>)
    returns (text: seq<u16>, fill: seq<u16>)
    requires ParseDirective(f) == Some(d) && d.width < TWO31 && Matches(d.rest, args)
    requires d.conv == 0x73 || d.conv == 0x53
    ensures Matches([0x25] + f, [Text(s)] + args)
    ensures Render([0x25] + f, [Text(s)] + args)
         == (if d.left then text + fill else fill + text) + Render(d.rest, args)
    ensures text == if s.Some? then s.value else [0x28, 0x6E, 0x75, 0x6C, 0x6C, 0x29]
    ensures |fill| == if d.width > |text| then d.width - |text| else 0
    ensures forall i: nat :: i < |fill| ==> fill[i] == 0x20
  {
    hide ParseDirective, Matches, Render;
    RenderHead(f, d, Text(s), args);
    text := if s.Some? then s.value else [0x28, 0x6E, 0x75, 0x6C, 0x6C, 0x29];
    fill := Repeat(d.width - |text|, SPACE);
  }

  /** %c: one character, whatever the flags and the width. */
  lemma CharacterConverted(f: seq<u16>, d: Directive, v: u32, args: seq<Arg>)
    requires ParseDirective(f) == Some(d) && d.width < TWO31 && Matches(d.rest, args) && d.conv == 0x63
    ensures Matches([0x25] + f, [Word(v)] + args)
    ensures Render([0x25] + f, [Word(v)] + args) == [v % 0x1_0000] + Render(d.rest, args)
  {
    hide ParseDirective, Matches, Render;
    RenderHead(f, d, Word(v), args);
  }

  /** Everything else: characters outside directives stand for themselves, %% for a percent sign,
      and an unknown conversion for itself with its percent sign. No argument is used up. A
      directive without a conversion ends the text. */
  lemma OthersCopied(c: u16, f: seq<u16>, args: seq<Arg>)
    ensures c != 0x25 && Matches(f, args) ==>
              Matches([c] + f, args) && Render([c] + f, args) == [c] + Render(f, args)
    ensures ParseDirective(f) == None ==> Matches([0x25] + f, args) && Render([0x25] + f, args) == []
    ensures ParseDirective(f).Some? ==>
              var d := ParseDirective(f).value;
              d.width < TWO31 && Matches(d.rest, args) &&
              d.conv !in [0x64, 0x69, 0x75, 0x78, 0x58, 0x70, 0x63, 0x73, 0x53] ==>
                && Matches([0x25] + f, args)
                && Render([0x25] + f, args)
                   == (if d.conv == 0x25 then [0x25] else [0x25, d.conv]) + Render(d.rest, args)
  {
    hide ParseDirective;
    assert ([c] + f)[1..] == f && ([0x25] + f)[1..] == f;
  }

  lemma RenderHead(f: seq<u16>, d: Directive, a: Arg, args: seq<Arg>)
    requires ParseDirective(f) == Some(d) && d.width < TWO31 && Matches(d.rest, args)
    requires if a.Word? then TakesWord(d.conv) else TakesText(d.conv)
    ensures Matches([0x25] + f, [a] + args)
    ensures Render([0x25] + f, [a] + args)
         == (if a.Word? then WordText(d, a.v) else TextText(d, a.s)) + Render(d.rest, args)
  {
    hide ParseDirective, WordText, TextText;
    assert ([0x25] + f)[1..] == f && ([a] + args)[1..] == args;
  }
}
