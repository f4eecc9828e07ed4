/** The part of the SH-3 register machine that src/rt/divide.s uses: sixteen general registers,
    the T bit, and the Q and M bits of the division steps. */
module Sh3 {
  import opened Words

  /** A word shifted left by one with a bit taken in at the bottom; the top bit is lost. */
  function ShiftIn(x: u32, bit: bool): u32 {
    2 * (if x >= TWO31 then x - TWO31 else x) + if bit then 1 else 0
  }

  /** The two's complement of a word. */
  function Negated(x: u32): u32 {
    if x == 0 then 0 else TWO32 - x
  }

  /** What DIV1 leaves in Rn and the status bits, case by case on the old Q and on M. */
  datatype Div1Result = Div1Result(rn: u32, q: bool, t: bool)

  function Div1Step(rn: u32, rm: u32, t: bool, q: bool, m: bool): Div1Result {
    var top := rn >= TWO31;
    var shifted := ShiftIn(rn, t);
    var sub: u32 := Wrap(shifted - rm);
    var add: u32 := Wrap(shifted + rm);
    var borrow := sub > shifted;
    var carry := add < shifted;
    if !q && !m then
      var q' := if top then !borrow else borrow;
      Div1Result(sub, q', q' == m)
    else if !q && m then
      var q' := if top then carry else !carry;
      Div1Result(add, q', q' == m)
    else if q && !m then
      var q' := if top then !carry else carry;
      Div1Result(add, q', q' == m)
    else
      var q' := if top then borrow else !borrow;
      Div1Result(sub, q', q' == m)
  }

  /** Exclusive or of the low `bits` bits, from the top bit down. */
  function XorBits(a: nat, b: nat, bits: nat): (r: nat)
    requires a < Pow2(bits) && b < Pow2(bits)
    ensures r < Pow2(bits)
    decreases bits
  {
    if bits == 0 then 0
    else
      var half := Pow2(bits - 1);
      var low := XorBits(if a >= half then a - half else a, if b >= half then b - half else b, bits - 1);
      if (a >= half) != (b >= half) then half + low else low
  }

  lemma Pow2Of32()
    ensures Pow2(32) == TWO32 && Pow2(31) == TWO31
  {
    assert Pow2(8) == 256;
    assert Pow2(16) == 65536 by { assert Pow2(12) == 4096; }
    assert Pow2(24) == 0x100_0000 by { assert Pow2(20) == 0x10_0000; }
    assert Pow2(31) == TWO31 by { assert Pow2(28) == 0x1000_0000; }
  }

  function Xor(a: u32, b: u32): (r: u32)
    ensures (r >= TWO31) <==> ((a >= TWO31) != (b >= TWO31))
  {
    Pow2Of32();
    XorBits(a, b, 32)
  }

  class Cpu {
    var r: seq<u32>
    var t: bool
    var q: bool
    var m: bool

    ghost predicate Valid()
      reads this
    {
      |r| == 16
    }

    constructor (r: seq<u32>, t: bool, q: bool, m: bool)
      requires |r| == 16
      ensures Valid() && this.r == r && this.t == t && this.q == q && this.m == m
    {
      this.r, this.t, this.q, this.m := r, t, q, m;
    }

    method MovImm(imm: u32, n: nat)
      requires Valid() && n < 16
      modifies this`r
      ensures Valid() && r == old(r)[n := imm]
    {
      r := r[n := imm];
    }

    method Mov(s: nat, n: nat)
      requires Valid() && s < 16 && n < 16
      modifies this`r
      ensures Valid() && r == old(r)[n := old(r)[s]]
    {
      r := r[n := r[s]];
    }

    method Neg(s: nat, n: nat)
      requires Valid() && s < 16 && n < 16
      modifies this`r
      ensures Valid() && r == old(r)[n := Negated(old(r)[s])]
    {
      r := r[n := Negated(r[s])];
    }

    method XorReg(s: nat, n: nat)
      requires Valid() && s < 16 && n < 16
      modifies this`r
      ensures Valid() && r == old(r)[n := Xor(old(r)[s], old(r)[n])]
    {
      r := r[n := Xor(r[s], r[n])];
    }

    /** tst Rn,Rn */
    method TstSelf(n: nat)
      requires Valid() && n < 16
      modifies this`t
      ensures t == (r[n] == 0)
    {
      t := r[n] == 0;
    }

    method CmpPz(n: nat)
      requires Valid() && n < 16
      modifies this`t
      ensures t == (Signed(r[n]) >= 0)
    {
      t := Signed(r[n]) >= 0;
    }

    method Div0u()
      modifies this`t, this`q, this`m
      ensures !t && !q && !m
    {
      t, q, m := false, false, false;
    }

    /** Rotate left through T: the top bit goes to T, the old T becomes the low bit. */
    method Rotcl(n: nat)
      requires Valid() && n < 16
      modifies this`r, this`t
      ensures Valid()
      ensures r == old(r)[n := ShiftIn(old(r)[n], old(t))]
      ensures t == (old(r)[n] >= TWO31)
    {
      var top := r[n] >= TWO31;
      r := r[n := ShiftIn(r[n], t)];
      t := top;
    }

    /** div1 Rs,Rn */
    method Div1(s: nat, n: nat)
      requires Valid() && s < 16 && n < 16
      modifies this`r, this`t, this`q
      ensures Valid()
      ensures var d := Div1Step(old(r)[n], old(r)[s], old(t), old(q), m);
              r == old(r)[n := d.rn] && q == d.q && t == d.t
    {
      var d := Div1Step(r[n], r[s], t, q, m);
      r, q, t := r[n := d.rn], d.q, d.t;
    }
  }
}
