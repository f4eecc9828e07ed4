/** decode_block of tools/tds340.py against the definite-length block of section 8.7.9 of
    IEEE 488.2. */
module Blocks {
  import opened Words
  import opened Wrappers

  const HASH: bv8 := 0x23
  const NEWLINE: bv8 := 0x0A
  const UNDERSCORE: bv8 := 0x5F

  // ---- The host language's slices and numbers -----------------------------------------

  /** A slice bound: negative counts from the end, and what is outside is clamped. */
  function Bound(i: int, n: nat): (r: nat)
    ensures r <= n
  {
    if i < 0 then (if i + n < 0 then 0 else i + n) else Min(i, n)
  }

  function Slice(s: seq<bv8>, lo: int, hi: int): seq<bv8> {
    var l, h := Bound(lo, |s|), Bound(hi, |s|);
    if l < h then s[l..h] else []
  }

  /** The offset of a byte, or of the end. */
  function Find(s: seq<bv8>, b: bv8): (r: nat)
    ensures r <= |s|
  {
    if s == [] || s[0] == b then 0 else 1 + Find(s[1..], b)
  }

  predicate IsDigit(b: bv8) { 48 <= (b as int) <= 57 }

  predicate IsBlank(b: bv8) { b == 0x20 || 9 <= (b as int) <= 13 }

  function StripLeft(s: seq<bv8>): seq<bv8> {
    if s != [] && IsBlank(s[0]) then StripLeft(s[1..]) else s
  }

  function StripRight(s: seq<bv8>, newlinesOnly: bool): seq<bv8> {
    if s != [] && (if newlinesOnly then s[|s| - 1] == NEWLINE else IsBlank(s[|s| - 1]))
    then StripRight(s[..|s| - 1], newlinesOnly) else s
  }

  /** Digits, with single underscores allowed between them. */
  function Magnitude(s: seq<bv8>): Option<nat> {
    if s == [] || !IsDigit(s[|s| - 1]) then None
    else
      var front, d: nat := s[..|s| - 1], (s[|s| - 1] as int) - 48;
      if front == [] then Some(d)
      else
        match Magnitude(if front[|front| - 1] == UNDERSCORE then front[..|front| - 1] else front)
        case None => None
        case Some(m) => Some(10 * m + d)
  }

  /** int() of a byte string: blanks around it, a sign, digits. */
  function ParseInteger(s: seq<bv8>): Option<int> {
    var t := StripRight(StripLeft(s), false);
    if t == [] then None
    else
      var signed := t[0] == 0x2B || t[0] == 0x2D;
      match Magnitude(if signed then t[1..] else t)
      case None => None
      case Some(m) => Some(if t[0] == 0x2D then -(m as int) else m)
  }

  // ---- The decoder --------------------------------------------------------------------

  datatype Decoded = Payload(data: seq<bv8>) | NoHeader | BadLength | Truncated(got: nat, length: int)

  /** decode_block. Its three ways to raise ValueError are kept apart. */
  function DecodeBlock(data: seq<bv8>): Decoded {
    var start := Find(data, HASH);
    if start + 1 >= |data| then NoHeader
    else
      var digits := (data[start + 1] as int) - 48;
      if digits == 0 then Payload(StripRight(data[start + 2..], true))
      else
        match ParseInteger(Slice(data, start + 2, start + 2 + digits))
        case None => BadLength
        case Some(length) =>
          var payload := Slice(data, start + 2 + digits, start + 2 + digits + length);
          if |payload| != length then Truncated(|payload|, length) else Payload(payload)
  }

  // ---- The encoder --------------------------------------------------------------------

  predicate AllDigits(s: seq<bv8>) {
    forall i :: 0 <= i < |s| ==> IsDigit(s[i])
  }

  function DecimalValue(s: seq<bv8>): (v: int)
    requires AllDigits(s)
    ensures v >= 0
  {
    if s == [] then 0 else 10 * DecimalValue(s[..|s| - 1]) + (s[|s| - 1] as int) - 48
  }

  /** '#', the number of length digits, the length digits. */
  function BlockHeader(length: seq<bv8>): seq<bv8>
    requires |length| < 10
  {
    [HASH, Byte(48 + |length|)] + length
  }

  function DigitByte(d: nat): (b: bv8)
    requires d < 10
    ensures IsDigit(b) && (b as int) == 48 + d
  {
    hide ByteOf, Byte;
    assert (48 + d) % 0x100 == 48 + d;
    Byte(48 + d)
  }

  /** A number in decimal, without leading zeros. */
  function Decimal(n: nat): (s: seq<bv8>)
    ensures AllDigits(s) && s != []
  {
    hide Byte, DigitByte, IsDigit;
    if n < 10 then [DigitByte(n)] else Decimal(n / 10) + [DigitByte(n % 10)]
  }

  function TenTo(k: nat): nat {
    if k == 0 then 1 else 10 * TenTo(k - 1)
  }

  lemma {:induction false} DecimalReadsBack(n: nat)
    ensures DecimalValue(Decimal(n)) == n
    decreases n
  {
    hide Byte, DigitByte;
    if n < 10 {
      assert Decimal(n)[..0] == [];
    } else {
      DecimalReadsBack(n / 10);
      assert Decimal(n)[..|Decimal(n)| - 1] == Decimal(n / 10);
    }
  }

  lemma {:induction false} DecimalLength(n: nat, k: nat)
    requires k > 0
    ensures |Decimal(n)| <= k <==> n < TenTo(k)
    decreases k
  {
    hide Byte, DigitByte;
    assert TenTo(k) == 10 * TenTo(k - 1);
    if k == 1 {
      assert TenTo(0) == 1;
      if n >= 10 { assert Decimal(n / 10) != []; }
    } else if n >= 10 {
      DecimalLength(n / 10, k - 1);
    } else {
      TenToGrows(k - 1);
    }
  }

  lemma TenToGrows(k: nat)
    ensures TenTo(k) >= 1
  {
  }

  // ---- Decoding what was encoded ------------------------------------------------------

  lemma {:induction false} FindAfter(before: seq<bv8>, rest: seq<bv8>, b: bv8)
    requires b !in before && rest != [] && rest[0] == b
    ensures Find(before + rest, b) == |before|
    decreases |before|
  {
    if before == [] {
      assert before + rest == rest;
    } else {
      assert (before + rest)[0] == before[0] && (before + rest)[1..] == before[1..] + rest;
      FindAfter(before[1..], rest, b);
    }
  }

  lemma {:induction false} DigitsAreAMagnitude(s: seq<bv8>)
    requires AllDigits(s) && s != []
    ensures Magnitude(s) == Some(DecimalValue(s))
    decreases |s|
  {
    var front := s[..|s| - 1];
    assert AllDigits(front);
    if front != [] {
      DigitsAreAMagnitude(front);
      assert IsDigit(front[|front| - 1]);
      assert !IsDigit(UNDERSCORE);
    } else {
      assert DecimalValue(front) == 0;
    }
  }

  lemma DigitsParse(s: seq<bv8>)
    requires AllDigits(s) && s != []
    ensures ParseInteger(s) == Some(DecimalValue(s))
  {
    DigitsAreAMagnitude(s);
    DigitIsPlain(s[0]);
    DigitIsPlain(s[|s| - 1]);
    assert StripLeft(s) == s;
    assert StripRight(s, false) == s;
  }

  lemma DigitIsPlain(b: bv8)
    requires IsDigit(b)
    ensures !IsBlank(b) && b != 0x2B && b != 0x2D
  {
  }

  lemma SliceMiddle(a: seq<bv8>, b: seq<bv8>, c: seq<bv8>)
    ensures Slice(a + b + c, |a|, |a| + |b|) == b
  {
    assert (a + b + c)[|a|..|a| + |b|] == b;
  }

  lemma SliceTail(a: seq<bv8>, b: seq<bv8>, n: nat)
    ensures Slice(a + b, |a|, |a| + n) == b[..Min(n, |b|)]
  {
    assert (a + b)[|a|..|a| + Min(n, |b|)] == b[..Min(n, |b|)];
  }

  /** A block header found anywhere decides: the payload is the announced number of bytes, and a
      block that is any shorter is refused. Leading zeros in the length do no harm. */
  lemma {:induction false} HeaderDecides(before: seq<bv8>, length: seq<bv8>, body: seq<bv8>)
    requires HASH !in before && 0 < |length| < 10 && AllDigits(length)
    ensures var n := DecimalValue(length);
            DecodeBlock(before + BlockHeader(length) + body)
            == if n <= |body| then Payload(body[..n]) else Truncated(|body|, n)
  {
    hide Byte, Find, Slice, ParseInteger, DecimalValue, StripRight;
    var n := DecimalValue(length);
    var head := [HASH, Byte(48 + |length|)];
    var data := before + BlockHeader(length) + body;
    assert data == before + (BlockHeader(length) + body);
    FindAfter(before, BlockHeader(length) + body, HASH);
    assert data[|before| + 1] == head[1] && (head[1] as int) == 48 + |length|;
    assert data == (before + head) + length + body;
    SliceMiddle(before + head, length, body);
    DigitsParse(length);
    SliceTail(before + BlockHeader(length), body, n);
  }

  /** Without a header there is nothing to decode, nor where the data ends with its first byte. */
  lemma {:induction false} HeaderIsMissing(data: seq<bv8>)
    requires 0x23 !in data
    ensures DecodeBlock(data) == NoHeader && DecodeBlock(data + [0x23]) == NoHeader
  {
    FindNothing(data, HASH);
    FindAfter(data, [HASH], HASH);
  }

  lemma {:induction false} FindNothing(s: seq<bv8>, b: bv8)
    requires b !in s
    ensures Find(s, b) == |s|
    decreases |s|
  {
    if s != [] {
      FindNothing(s[1..], b);
    }
  }

  /** "#0" announces no length: the payload is all the rest, up to the newlines that close it. */
  lemma {:induction false} IndefiniteBlock(before: seq<bv8>, body: seq<bv8>, newlines: seq<bv8>)
    requires 0x23 !in before && (body != [] ==> body[|body| - 1] != 0x0A)
    requires forall i: nat :: i < |newlines| ==> newlines[i] == 0x0A
    ensures DecodeBlock(before + [0x23, 0x30] + body + newlines) == Payload(body)
  {
    hide *;
    var rest := [0x23, 0x30] + body + newlines;
    var data := before + [0x23, 0x30] + body + newlines;
    assert data == before + rest && rest[0] == 0x23;
    FindAfter(before, rest, 0x23);
    assert data[|before| + 1] == 0x30 && data[|before| + 2..] == body + newlines;
    DecodesToTheEnd(data, |before|);
    NewlinesStripped(body, newlines);
  }

  lemma DecodesToTheEnd(data: seq<bv8>, at: nat)
    requires Find(data, 0x23) == at && at + 1 < |data| && data[at + 1] == 0x30
    ensures DecodeBlock(data) == Payload(StripRight(data[at + 2..], true))
  {
    hide Find, ParseInteger, Slice, StripRight;
  }

  lemma {:induction false} NewlinesStripped(body: seq<bv8>, newlines: seq<bv8>)
    requires body != [] ==> body[|body| - 1] != 0x0A
    requires forall i: nat :: i < |newlines| ==> newlines[i] == 0x0A
    ensures StripRight(body + newlines, true) == body
    decreases |newlines|
  {
    if newlines == [] {
      assert body + newlines == body;
    } else {
      var n := |newlines| - 1;
      assert (body + newlines)[..|body| + n] == body + newlines[..n];
      NewlinesStripped(body, newlines[..n]);
    }
  }

  /** A length that is no number is refused. */
  lemma BadLengthIsRefused(before: seq<bv8>, length: seq<bv8>, body: seq<bv8>)
    requires 0x23 !in before && 0 < |length| < 10 && ParseInteger(length) == None
    ensures DecodeBlock(before + [0x23, Byte(48 + |length|)] + length + body) == BadLength
  {
    hide Byte, Find, Slice, ParseInteger, StripRight;
    var head := [HASH, Byte(48 + |length|)];
    var data := before + head + length + body;
    assert data == before + (head + length + body);
    FindAfter(before, head + length + body, HASH);
    assert data[|before| + 1] == head[1] && (head[1] as int) == 48 + |length|;
    SliceMiddle(before + head, length, body);
  }

  // ---- What int() takes ---------------------------------------------------------------

  /** A number may carry a sign and stand between blanks. */
  lemma {:induction false} SignAndBlanks(a: seq<bv8>, sign: seq<bv8>, digits: seq<bv8>, b: seq<bv8>)
    requires AllBlanks(a) && AllBlanks(b) && AllDigits(digits) && digits != []
    requires sign == [] || sign == [0x2B] || sign == [0x2D]
    ensures ParseInteger(a + sign + digits + b)
         == Some(if sign == [0x2D] then -DecimalValue(digits) else DecimalValue(digits))
  {
    hide IsBlank, Magnitude, DecimalValue;
    var t := sign + digits;
    DigitsAreAMagnitude(digits);
    DigitIsPlain(digits[0]);
    DigitIsPlain(digits[|digits| - 1]);
    assert !IsBlank(0x2B) && !IsBlank(0x2D) by { SignsAreNotBlank(); }
    assert a + sign + digits + b == a + (t + b);
    BlanksLeft(a, t + b);
    BlanksRight(t, b);
    assert sign == [] ==> t == digits;
    assert sign != [] ==> t[1..] == digits;
  }

  predicate AllBlanks(s: seq<bv8>) {
    forall i: nat :: i < |s| ==> s[i] in [0x20, 0x09, 0x0A, 0x0B, 0x0C, 0x0D]
  }

  lemma SignsAreNotBlank()
    ensures !IsBlank(0x2B) && !IsBlank(0x2D)
  {
  }

  lemma {:induction false} BlanksLeft(a: seq<bv8>, t: seq<bv8>)
    requires AllBlanks(a) && (t != [] ==> !IsBlank(t[0]))
    ensures StripLeft(a + t) == t
    decreases |a|
  {
    if a == [] {
      assert a + t == t;
    } else {
      assert (a + t)[0] == a[0] && (a + t)[1..] == a[1..] + t;
      BlanksLeft(a[1..], t);
    }
  }

  lemma {:induction false} BlanksRight(t: seq<bv8>, b: seq<bv8>)
    requires AllBlanks(b) && (t != [] ==> !IsBlank(t[|t| - 1]))
    ensures StripRight(t + b, false) == t
    decreases |b|
  {
    if b == [] {
      assert t + b == t;
    } else {
      var n := |b| - 1;
      assert (t + b)[..|t| + n] == t + b[..n];
      BlanksRight(t, b[..n]);
    }
  }

  /** One underscore may stand between two digits; two may not, nor one at either end. */
  lemma Underscores(s: seq<bv8>, d: bv8)
    requires IsDigit(d) && Magnitude(s).Some?
    ensures Magnitude(s + [d]) == Some(10 * Magnitude(s).value + (d as int) - 48)
    ensures Magnitude(s + [0x5F, d]) == Some(10 * Magnitude(s).value + (d as int) - 48)
    ensures Magnitude(s + [0x5F, 0x5F, d]) == None && Magnitude(s + [0x5F]) == None && Magnitude([0x5F, d]) == None
  {
    assert IsDigit(s[|s| - 1]) && !IsDigit(UNDERSCORE);
    assert (s + [d])[..|s|] == s;
    assert (s + [0x5F, d])[..|s| + 1] == s + [0x5F] && (s + [0x5F])[..|s|] == s;
    assert (s + [0x5F, 0x5F, d])[..|s| + 2] == s + [0x5F, 0x5F] && (s + [0x5F, 0x5F])[..|s| + 1] == s + [0x5F];
    assert Magnitude(s + [0x5F]) == None;
    assert [0x5F, d][..1] == [0x5F] && [0x5F][..0] == [];
    assert Magnitude([]) == None;
  }

  /** Any payload whose length has at most nine digits comes back, whatever is printed before the
      block and whatever follows it. */
  lemma {:induction false} BlockReadsBack(before: seq<bv8>, payload: seq<bv8>, after: seq<bv8>)
    requires HASH !in before && |payload| < 1_000_000_000
    ensures |Decimal(|payload|)| < 10
    ensures DecodeBlock(before + BlockHeader(Decimal(|payload|)) + (payload + after)) == Payload(payload)
  {
    hide DecodeBlock, Decimal, DecimalValue, BlockHeader, TenTo;
    NineDigits();
    DecimalLength(|payload|, 9);
    DecimalReadsBack(|payload|);
    HeaderDecides(before, Decimal(|payload|), payload + after);
    assert (payload + after)[..|payload|] == payload;
  }

  lemma NineDigits()
    ensures TenTo(9) == 1_000_000_000
  {
    assert TenTo(3) == 1000;
    assert TenTo(6) == 1000 * TenTo(3);
    assert TenTo(9) == 1000 * TenTo(6);
  }
}
