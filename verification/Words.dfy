/** Fixed-width words, written as integers: the range of a word, its two's-complement reading
    and the helpers that the register machine, the chip counter and the clock share. */
module Words {

  const TWO31 := 0x8000_0000
  const TWO32 := 0x1_0000_0000

  type u32 = x: int | 0 <= x < TWO32

  function Wrap(x: int): (r: u32) {
    x % TWO32
  }

  /** The two's-complement reading of a word. */
  function Signed(x: u32): (r: int)
    ensures -TWO31 <= r < TWO31
    ensures Wrap(r) == x
  {
    if x < TWO31 then x else x - TWO32
  }

  predicate FitsSigned(x: int) {
    -TWO31 <= x < TWO31
  }

  function Pow2(k: nat): (p: nat)
    ensures p >= 1
  {
    if k == 0 then 1 else 2 * Pow2(k - 1)
  }

  function Min(a: int, b: int): (r: int) {
    if a <= b then a else b
  }

  /** Wrapping depends on the residue only, so wrapped terms may be replaced inside a sum. */
  lemma WrapShift(x: int, k: int)
    ensures Wrap(x + k * TWO32) == Wrap(x)
  {
    assert (x + k * TWO32) % TWO32 == x % TWO32;
  }

  lemma SignedIsInverse(x: int)
    requires FitsSigned(x)
    ensures Signed(Wrap(x)) == x
  {
  }

  // ---- A word as four bytes -----------------------------------------------------------

  lemma NextByte(b: bv8)
    requires (b as int) < 0xFF
    ensures ((b + 1) as int) == (b as int) + 1
  {
    assert b != 0xFF;
  }

  /** The byte with a given value. */
  function ByteOf(x: nat): (b: bv8)
    requires x < 0x100
    ensures (b as int) == x
  {
    if x == 0 then 0
    else
      var b := ByteOf(x - 1);
      NextByte(b);
      b + 1
  }

  lemma {:induction false} ByteOfValue(b: bv8)
    ensures ByteOf(b as int) == b
    decreases b as int
  {
    if b != 0 {
      NextByte(b - 1);
      ByteOfValue(b - 1);
    }
  }

  /** The low byte of a number. */
  function Byte(x: nat): (b: bv8)
    ensures (b as int) == x % 0x100
  {
    ByteOf(x % 0x100)
  }

  lemma ByteOfSmall(x: nat)
    requires x < 0x100
    ensures Byte(x) == ByteOf(x)
  {
    assert x % 0x100 == x;
  }

  lemma AtMost30(b: bv8)
    ensures b <= 30 <==> (b as int) <= 30
  {
  }

  lemma ByteBack(b: bv8)
    ensures Byte(b as int) == b
  {
    hide ByteOf, Byte;
    ByteOfSmall(b as int);
    ByteOfValue(b);
  }

  function FromBytes(b3: nat, b2: nat, b1: nat, b0: nat): nat {
    b3 * 0x100_0000 + b2 * 0x1_0000 + b1 * 0x100 + b0
  }

  lemma Bytes(v: u32)
    ensures v == FromBytes(v / 0x100_0000 % 0x100, v / 0x1_0000 % 0x100, v / 0x100 % 0x100, v % 0x100)
  {
    var q1 := v / 0x100;
    var q2 := q1 / 0x100;
    assert v / 0x1_0000 == q2;
    assert v / 0x100_0000 == q2 / 0x100 < 0x100;
  }

  /** A word with byte i replaced. */
  function WithByte(c: u32, i: nat, b: nat): u32
    requires i < 4 && b < 0x100
  {
    if i == 0 then c / 0x100 * 0x100 + b
    else if i == 1 then c / 0x1_0000 * 0x1_0000 + b * 0x100 + c % 0x100
    else if i == 2 then c / 0x100_0000 * 0x100_0000 + b * 0x1_0000 + c % 0x1_0000
    else b * 0x100_0000 + c % 0x100_0000
  }

  lemma WithByte01(a3: nat, a2: nat, a1: nat, a0: nat, b: nat)
    requires a3 < 0x100 && a2 < 0x100 && a1 < 0x100 && a0 < 0x100 && b < 0x100
    ensures WithByte(FromBytes(a3, a2, a1, a0), 0, b) == FromBytes(a3, a2, a1, b)
    ensures WithByte(FromBytes(a3, a2, a1, a0), 1, b) == FromBytes(a3, a2, b, a0)
  {
    var h := a3 * 0x1_0000 + a2 * 0x100 + a1;
    assert (h * 0x100 + a0) / 0x100 == h;
    var g := a3 * 0x100 + a2;
    assert (g * 0x1_0000 + a1 * 0x100 + a0) / 0x1_0000 == g;
  }

  lemma WithByte23(a3: nat, a2: nat, a1: nat, a0: nat, b: nat)
    requires a3 < 0x100 && a2 < 0x100 && a1 < 0x100 && a0 < 0x100 && b < 0x100
    ensures WithByte(FromBytes(a3, a2, a1, a0), 2, b) == FromBytes(a3, b, a1, a0)
    ensures WithByte(FromBytes(a3, a2, a1, a0), 3, b) == FromBytes(b, a2, a1, a0)
  {
    var l := a1 * 0x100 + a0;
    assert (a3 * 0x100_0000 + a2 * 0x1_0000 + l) / 0x100_0000 == a3;
    assert (a3 * 0x100_0000 + a2 * 0x1_0000 + l) % 0x1_0000 == l;
  }

  /** Writing the four bytes of v, lowest first, over any word leaves v. */
  lemma {:induction false} FourBytes(c: u32, v: u32)
    ensures var c0 := WithByte(c, 0, v % 0x100);
            var c1 := WithByte(c0, 1, v / 0x100 % 0x100);
            var c2 := WithByte(c1, 2, v / 0x1_0000 % 0x100);
            WithByte(c2, 3, v / 0x100_0000 % 0x100) == v
  {
    hide WithByte, FromBytes;
    var a3, a2, a1, a0 := c / 0x100_0000 % 0x100, c / 0x1_0000 % 0x100, c / 0x100 % 0x100, c % 0x100;
    var v3, v2, v1, v0 := v / 0x100_0000 % 0x100, v / 0x1_0000 % 0x100, v / 0x100 % 0x100, v % 0x100;
    Bytes(c);
    Bytes(v);
    WithByte01(a3, a2, a1, a0, v0);
    WithByte01(a3, a2, a1, v0, v1);
    WithByte23(a3, a2, v1, v0, v2);
    WithByte23(a3, v2, v1, v0, v3);
  }
}
