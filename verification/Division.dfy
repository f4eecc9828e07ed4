/** src/rt/divide.s and the modulo helpers of src/rt/crt.c: division on the SH-3 with the
    registers that GCC expects a division helper to leave alone. */
module Division {
  import opened Words
  import opened Sh3

  /** The 33-bit signed partial remainder: Q is its sign bit, Rn its low 32 bits. */
  function Remainder(rn: u32, q: bool): int {
    if q then rn - TWO32 else rn
  }

  function Bit(b: bool): nat {
    if b then 1 else 0
  }

  /** One division step is a 33-bit signed operation: double, take in T, then subtract the
      divisor from a non-negative remainder or add it to a negative one. The step keeps the
      remainder in [-d, d), and T tells its sign. */
  lemma StepOnRemainder(rn: u32, d: u32, t: bool, q: bool)
    requires 0 <= Remainder(rn, q) + d < 2 * d
    ensures var s := Div1Step(rn, d, t, q, false);
            && Remainder(s.rn, s.q) == 2 * Remainder(rn, q) + Bit(t) + (if q then d else 0 - d)
            && 0 <= Remainder(s.rn, s.q) + d < 2 * d
            && (s.t <==> Remainder(s.rn, s.q) >= 0)
  {
  }

  /** What k steps have established. `taken` is the number made of the dividend bits shifted
      out so far, `left` the number made of those still to come, and `bits` the number made of
      the quotient bits produced so far, the last of which is still in T. */
  ghost predicate Progress(n: nat, d: nat, k: nat, dividend: int, rem: int, t: bool,
                           taken: nat, left: nat, bits: nat)
    requires k <= 32
  {
    && n == taken * Pow2(32 - k) + left && left < Pow2(32 - k)
    && bits < Pow2(k)
    && dividend == left * Pow2(k) + bits / 2
    && t == (bits % 2 == 1)
    && 0 <= rem + d < 2 * d
    && (if k == 0 then rem == 0 && bits == 0 else (t <==> rem >= 0))
    && taken == d * bits + (if rem >= 0 then rem else rem + d)
  }

  lemma Associate(a: int, b: int, c: int)
    ensures a * (b * c) == (a * b) * c == (a * c) * b
  {
  }

  lemma Distribute(a: int, b: int, c: int)
    ensures a * (b + c) == a * b + a * c && (b + c) * a == b * a + c * a
  {
  }

  lemma {:induction false} Pow2Split(k: nat)
    requires k < 32
    ensures Pow2(31 - k) * Pow2(k) == TWO31
    decreases k
  {
    Pow2Of32();
    if k > 0 {
      Pow2Split(k - 1);
      assert Pow2(32 - k) == 2 * Pow2(31 - k) && Pow2(k) == 2 * Pow2(k - 1);
      Associate(Pow2(31 - k), 2, Pow2(k - 1));
    }
  }

  lemma ShiftInDropsTop(x: u32, bit: bool)
    ensures ShiftIn(x, bit) == 2 * x + Bit(bit) - TWO32 * Bit(x >= TWO31)
  {
  }

  /** The top bit of a register that holds `left` above `below` is the top bit of `left`;
      h and p are the weights of that bit inside `left` and of `left` inside the register. */
  lemma TopBit(left: nat, h: nat, p: nat, below: nat, reg: int) returns (top: nat, next: nat)
    requires h * p == TWO31 && left < 2 * h && below < p && reg == left * p + below
    ensures top == Bit(reg >= TWO31) && left == top * h + next && next < h
    ensures left * p == top * TWO31 + next * p
  {
    if left >= h {
      top, next := 1, left - h;
      Distribute(p, h, next);
      Positive(next, p);
    } else {
      top, next := 0, left;
      Positive(h - 1 - left, p);
      Distribute(p, left, h - 1 - left);
      Distribute(p, h, -1);
    }
  }

  lemma Positive(a: nat, b: nat)
    ensures a * b >= 0
  {
  }

  /** The bit that the rotation takes out of the dividend register is the next dividend bit,
      and the quotient bit in T enters at the bottom. */
  lemma RotateOnProgress(n: nat, d: nat, k: nat, dividend: u32, rem: int, t: bool,
                         taken: nat, left: nat, bits: nat) returns (next: nat)
    requires k < 32 && Progress(n, d, k, dividend, rem, t, taken, left, bits)
    ensures next < Pow2(31 - k)
    ensures ShiftIn(dividend, t) == next * Pow2(k + 1) + bits
    ensures n == (2 * taken + Bit(dividend >= TWO31)) * Pow2(31 - k) + next
  {
    Pow2Split(k);
    var h, p := Pow2(31 - k), Pow2(k);
    var top;
    top, next := TopBit(left, h, p, bits / 2, dividend);
    ShiftInDropsTop(dividend, t);
    Associate(2, next, p);
    Associate(next, 2, p);
    Associate(taken, 2, h);
    Distribute(h, 2 * taken, top);
  }

  lemma Start(n: u32, d: nat)
    requires d > 0
    ensures Progress(n, d, 0, n, 0, false, 0, n, 0)
  {
    Pow2Of32();
  }

  lemma InRange(n: nat, d: nat, k: nat, dividend: int, rem: int, t: bool, taken: nat, left: nat, bits: nat)
    requires k <= 32 && Progress(n, d, k, dividend, rem, t, taken, left, bits)
    ensures 0 <= rem + d < 2 * d && (k > 0 ==> (t <==> rem >= 0)) && (k == 0 ==> rem == 0)
  {
  }

  lemma StepOnProgress(n: nat, d: nat, k: nat, dividend: u32, rem: int, t: bool,
                       taken: nat, left: nat, bits: nat, rem': int, t': bool)
    returns (next: nat)
    requires k < 32 && Progress(n, d, k, dividend, rem, t, taken, left, bits)
    requires rem' == 2 * rem + Bit(dividend >= TWO31) + (if rem < 0 then d else 0 - d)
    requires 0 <= rem' + d < 2 * d && (t' <==> rem' >= 0)
    ensures Progress(n, d, k + 1, ShiftIn(dividend, t), rem', t',
                     2 * taken + Bit(dividend >= TWO31), next, 2 * bits + Bit(t'))
  {
    next := RotateOnProgress(n, d, k, dividend, rem, t, taken, left, bits);
    Associate(d, 2, bits);
    Distribute(d, 2 * bits, Bit(t'));
  }

  /** The quotient of two magnitudes. */
  function Quotient(n: nat, d: nat): (q: nat)
    requires d > 0
    ensures d * q <= n < d * q + d
  {
    n / d
  }

  /** After 32 steps and the closing rotation the dividend register holds the quotient. */
  lemma Finish(n: nat, d: nat, dividend: u32, rem: int, t: bool, taken: nat, left: nat, bits: nat)
    requires d > 0
    requires Progress(n, d, 32, dividend, rem, t, taken, left, bits)
    ensures ShiftIn(dividend, t) == Quotient(n, d)
  {
    Pow2Of32();
    assert left == 0;
    var r := if rem >= 0 then rem else rem + d;
    assert n == d * bits + r && 0 <= r < d;
    QuotientIsUnique(n, d, bits, r);
  }

  lemma {:induction false} QuotientIsUnique(n: int, d: int, q: int, r: int)
    requires d > 0 && n == d * q + r && 0 <= r < d
    ensures n / d == q && n % d == r
  {
    var e := q - n / d;
    assert d * e == n % d - r by {
      Distribute(d, q, -(n / d));
    }
    if e != 0 {
      Positive(d, if e > 0 then e - 1 else -e - 1);
      Distribute(d, if e > 0 then e - 1 else -e - 1, 1);
      assert false;
    }
  }

  /** Every register but those named is what it was. */
  ghost predicate SameBut(now: seq<u32>, before: seq<u32>, scratch: set<nat>) {
    |now| == |before| && forall i :: 0 <= i < |now| && i !in scratch ==> now[i] == before[i]
  }

  /** The unrolled rotcl/div1 pairs and the closing rotcl, shared by both entry points: the
      dividend in register a, the divisor in register b, the remainder in register c. */
  method Steps(cpu: Cpu, a: nat, b: nat, c: nat)
    requires cpu.Valid() && a < 16 && b < 16 && c < 16 && a != b && b != c && a != c
    requires cpu.r[b] != 0 && cpu.r[c] == 0
    requires !cpu.t && !cpu.q && !cpu.m
    modifies cpu`r, cpu`t, cpu`q
    ensures cpu.Valid()
    ensures cpu.r[a] == Quotient(old(cpu.r)[a], old(cpu.r)[b])
    ensures SameBut(cpu.r, old(cpu.r), {a, c})
  {
    hide Progress, Div1Step, Quotient;
    ghost var before := cpu.r;
    ghost var n, d := cpu.r[a], cpu.r[b];
    ghost var taken, left, bits := 0, n, 0;
    Start(n, d);
    for k := 0 to 32
      invariant cpu.Valid() && !cpu.m
      invariant SameBut(cpu.r, before, {a, c})
      invariant (k == 0 ==> !cpu.q)
      invariant taken >= 0 && left >= 0 && bits >= 0
      invariant Progress(n, d, k, cpu.r[a], Remainder(cpu.r[c], cpu.q), cpu.t, taken, left, bits)
    {
      ghost var dividend, rem, t := cpu.r[a], Remainder(cpu.r[c], cpu.q), cpu.t;
      InRange(n, d, k, dividend, rem, t, taken, left, bits);
      StepOnRemainder(cpu.r[c], d, dividend >= TWO31, cpu.q);
      cpu.Rotcl(a);
      cpu.Div1(b, c);
      left := StepOnProgress(n, d, k, dividend, rem, t, taken, left, bits,
                             Remainder(cpu.r[c], cpu.q), cpu.t);
      taken, bits := 2 * taken + Bit(dividend >= TWO31), 2 * bits + Bit(cpu.t);
    }
    Finish(n, d, cpu.r[a], Remainder(cpu.r[c], cpu.q), cpu.t, taken, left, bits);
    cpu.Rotcl(a);
  }

  /** The unsigned quotient, with division by zero giving zero. */
  function UnsignedQuotient(n: nat, d: nat): nat {
    if d == 0 then 0 else Quotient(n, d)
  }

  /** ___udivsi3: dividend in r4, divisor in r5, quotient in r0; r1 and r4 are scratch. */
  method UDivSi3(cpu: Cpu)
    requires cpu.Valid()
    modifies cpu
    ensures cpu.Valid()
    ensures cpu.r[0] == UnsignedQuotient(old(cpu.r)[4], old(cpu.r)[5])
    ensures SameBut(cpu.r, old(cpu.r), {0, 1, 4})
  {
    cpu.TstSelf(5);
    if cpu.t {
      cpu.MovImm(0, 0);
      return;
    }
    cpu.MovImm(0, 1);
    cpu.Div0u();
    Steps(cpu, 4, 5, 1);
    cpu.Mov(4, 0);
  }

  function Abs(x: int): (r: nat) {
    if x < 0 then -x else x
  }

  /** The quotient truncated toward zero, with division by zero giving zero. */
  function TruncatedQuotient(n: int, d: int): int {
    if d == 0 then 0
    else
      var q: int := Quotient(Abs(n), Abs(d));
      if (n < 0) != (d < 0) then -q else q
  }

  /** What truncation means: the remainder is smaller than the divisor and never has the sign
      opposite to the dividend's; no other quotient leaves such a remainder. */
  ghost predicate IsTruncated(n: int, d: int, q: int) {
    var r := n - q * d;
    Abs(r) < Abs(d) && (n >= 0 ==> r >= 0) && (n <= 0 ==> r <= 0)
  }

  lemma {:induction false} TruncationIsUnique(n: int, d: int, q: int)
    requires d != 0
    ensures IsTruncated(n, d, q) <==> q == TruncatedQuotient(n, d)
  {
    var s := if (n < 0) != (d < 0) then -q else q;
    ByMagnitude(n, d, q, s);
    var a, b := Abs(n), Abs(d);
    if IsTruncated(n, d, q) {
      QuotientIsUnique(a, b, s, a - b * s);
    }
  }

  /** Truncated division of signed numbers is Euclidean division of their magnitudes. */
  lemma ByMagnitude(n: int, d: int, q: int, s: int)
    requires d != 0 && s == if (n < 0) != (d < 0) then -q else q
    ensures IsTruncated(n, d, q) <==> 0 <= Abs(n) - Abs(d) * s < Abs(d)
  {
    SignRules(n, d, s);
  }

  lemma SignRules(n: int, d: int, q: int)
    ensures Abs(d) * q == if d < 0 then -(q * d) else q * d
    ensures (-q) * d == -(q * d)
  {
  }

  lemma {:induction false} HalfAtMost(a: nat, b: nat, q: nat, r: nat)
    requires a == b * q + r && b >= 2
    ensures 2 * q <= a
  {
    Positive(b - 2, q);
    Distribute(q, b - 2, 2);
  }

  /** Truncation shrinks, so the quotient of two words is a word but for one pair. */
  lemma {:induction false} QuotientFits(n: int, d: int)
    requires FitsSigned(n) && FitsSigned(d)
    ensures FitsSigned(TruncatedQuotient(n, d)) <==> !(n == -TWO31 && d == -1)
    ensures Abs(TruncatedQuotient(n, d)) <= TWO31
  {
    hide Quotient;
    var a, b := Abs(n), Abs(d);
    if b >= 2 {
      HalfAtMost(a, b, Quotient(a, b), a - b * Quotient(a, b));
    }
  }

  /** cmp/pz Rtest; bt over; neg Rn,Rn; over: */
  method NegateIfNegative(cpu: Cpu, test: nat, n: nat)
    requires cpu.Valid() && test < 16 && n < 16
    modifies cpu`r, cpu`t
    ensures cpu.Valid() && SameBut(cpu.r, old(cpu.r), {n})
    ensures cpu.r[n] == if Signed(old(cpu.r)[test]) < 0 then Negated(old(cpu.r)[n]) else old(cpu.r)[n]
  {
    cpu.CmpPz(test);
    if !cpu.t {
      cpu.Neg(n, n);
    }
  }

  /** The opening of ___sdivsi3: magnitudes to r1 and r2, the sign of the quotient to r3. */
  method SplitSigns(cpu: Cpu)
    requires cpu.Valid()
    modifies cpu
    ensures cpu.Valid() && SameBut(cpu.r, old(cpu.r), {1, 2, 3})
    ensures cpu.r[1] == Abs(Signed(old(cpu.r)[4])) && cpu.r[2] == Abs(Signed(old(cpu.r)[5]))
    ensures Signed(cpu.r[3]) < 0 <==> (Signed(old(cpu.r)[4]) < 0) != (Signed(old(cpu.r)[5]) < 0)
  {
    hide Xor;
    cpu.Mov(4, 1);
    cpu.Mov(5, 2);
    cpu.Mov(4, 3);
    cpu.XorReg(5, 3);
    NegateIfNegative(cpu, 1, 1);
    NegateIfNegative(cpu, 2, 2);
  }

  /** The magnitude of the quotient, negated if the signs differ, is the quotient as a word. */
  lemma SignedQuotient(n: int, d: int, q: u32)
    requires FitsSigned(n) && FitsSigned(d) && d != 0 && q == Quotient(Abs(n), Abs(d))
    ensures Wrap(TruncatedQuotient(n, d)) == if (n < 0) != (d < 0) then Negated(q) else q
  {
    hide Quotient;
    QuotientFits(n, d);
  }

  /** ___sdivsi3: dividend in r4, divisor in r5, quotient in r0; r1, r2 and r3 are scratch. */
  method SDivSi3(cpu: Cpu)
    requires cpu.Valid()
    modifies cpu
    ensures cpu.Valid()
    ensures cpu.r[0] == Wrap(TruncatedQuotient(Signed(old(cpu.r)[4]), Signed(old(cpu.r)[5])))
    ensures SameBut(cpu.r, old(cpu.r), {0, 1, 2, 3})
  {
    hide Quotient, Negated, Wrap;
    ghost var n, d := Signed(cpu.r[4]), Signed(cpu.r[5]);
    SplitSigns(cpu);
    cpu.TstSelf(2);
    if cpu.t {
      cpu.MovImm(0, 0);
      WrapOfZero();
      return;
    }
    cpu.MovImm(0, 0);
    cpu.Div0u();
    Steps(cpu, 1, 2, 0);
    SignedQuotient(n, d, cpu.r[1]);
    NegateIfNegative(cpu, 3, 1);
    cpu.Mov(1, 0);
  }

  lemma WrapOfZero()
    ensures Wrap(0) == 0
  {
  }

  /** __umodsi3, over the quotient that the machine computes. */
  method UModSi3(cpu: Cpu, n: u32, d: u32) returns (r: u32)
    requires cpu.Valid()
    modifies cpu
    ensures d != 0 ==> r == n % d
    ensures d == 0 ==> r == 0
  {
    if d == 0 {
      return 0;
    }
    cpu.MovImm(n, 4);
    cpu.MovImm(d, 5);
    UDivSi3(cpu);
    var q := cpu.r[0];
    QuotientIsUnique(n, d, q, n - q * d);
    r := Wrap(n - q * d);
  }

  /** __modsi3, over the quotient that the machine computes. The remainder is exact even where
      the quotient wraps. */
  method ModSi3(cpu: Cpu, n: u32, d: u32) returns (r: u32)
    requires cpu.Valid()
    modifies cpu
    ensures d != 0 ==> Signed(r) == Signed(n) - TruncatedQuotient(Signed(n), Signed(d)) * Signed(d)
    ensures d == 0 ==> r == 0
  {
    if d == 0 {
      return 0;
    }
    cpu.MovImm(n, 4);
    cpu.MovImm(d, 5);
    SDivSi3(cpu);
    r := Wrap(Signed(n) - Signed(cpu.r[0]) * Signed(d));
    WrappedRemainder(Signed(n), Signed(d), cpu.r[0]);
  }

  lemma {:induction false} WrappedRemainder(n: int, d: int, q: u32)
    requires FitsSigned(n) && FitsSigned(d) && d != 0
    requires q == Wrap(TruncatedQuotient(n, d))
    ensures Signed(Wrap(n - Signed(q) * d)) == n - TruncatedQuotient(n, d) * d
    ensures IsTruncated(n, d, TruncatedQuotient(n, d))
  {
    var t := TruncatedQuotient(n, d);
    QuotientFits(n, d);
    TruncationIsUnique(n, d, t);
    if n == -TWO31 && d == -1 {
      assert t == TWO31 && Signed(q) == -TWO31;
    } else {
      SignedIsInverse(t);
    }
    SignedIsInverse(n - t * d);
  }
}
