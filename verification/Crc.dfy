/** The card CRC of src/gpib/pnpid.c: a nibble-table CRC-16 with one wrong table entry, against
    the bit-serial CRC that the table stands for. */
module Crc {

  const POLY_REFLECTED: bv16 := 0xA001
  const TYPO_NIBBLE: bv16 := 15
  const TYPO_VALUE: bv16 := 0x4600
  const TRUE_VALUE: bv16 := 0x4400   // what the polynomial gives for the entry

  /** Addition of polynomials; named so that proofs can keep it closed. */
  function Xor(a: bv16, b: bv16): bv16 {
    a ^ b
  }

  /** One bit of the reflected polynomial division. */
  function ShiftBit(c: bv16): bv16 {
    if c & 1 != 0 then Xor(c >> 1, POLY_REFLECTED) else c >> 1
  }

  function ShiftBits(c: bv16, n: nat): bv16
    decreases n
  {
    if n == 0 then c else ShiftBits(ShiftBit(c), n - 1)
  }

  /** crc_table_entry */
  method CrcTableEntry(index: bv16) returns (c: bv16)
    ensures c == ShiftBits(index, 8)
  {
    c := index;
    for bit := 0 to 8
      invariant ShiftBits(c, 8 - bit) == ShiftBits(index, 8)
    {
      c := if c & 1 != 0 then Xor(c >> 1, POLY_REFLECTED) else c >> 1;
    }
  }

  /** The byte that indexes the tables. */
  function Tmp(crc: bv16, data: bv8): bv16 {
    Xor(data as bv16, crc & 0xFF)
  }

  /** The indices into the low and the high table. */
  function Low(tmp: bv16): bv16 { tmp & 0x0F }

  function High(tmp: bv16): bv16 { (tmp >> 4) << 4 }

  predicate IsTypo(tmp: bv16) { tmp >> 4 == TYPO_NIBBLE }

  /** One byte through the nibble tables. */
  function TableStep(crc: bv16, data: bv8): bv16 {
    var tmp := Tmp(crc, data);
    var high := if IsTypo(tmp) then TYPO_VALUE else ShiftBits(High(tmp), 8);
    Xor(Xor(crc >> 8, ShiftBits(Low(tmp), 8)), high)
  }

  /** One byte through the bit-serial CRC-16/ARC. */
  function ArcStep(crc: bv16, data: bv8): bv16 {
    ShiftBits(Xor(crc, data as bv16), 8)
  }

  function TableCrc(crc: bv16, data: seq<bv8>): bv16
    decreases |data|
  {
    if data == [] then crc else TableCrc(TableStep(crc, data[0]), data[1..])
  }

  function ArcCrc(crc: bv16, data: seq<bv8>): bv16
    decreases |data|
  {
    if data == [] then crc else ArcCrc(ArcStep(crc, data[0]), data[1..])
  }

  /** One turn of the loop of pnpid_crc16. */
  method StepByte(crc: bv16, data: bv8) returns (next: bv16)
    ensures next == TableStep(crc, data)
  {
    hide ShiftBits, Xor, Tmp, IsTypo, Low, High;
    var tmp := Tmp(crc, data);
    var high := TYPO_VALUE;
    if !IsTypo(tmp) {
      high := CrcTableEntry(High(tmp));
    }
    var low := CrcTableEntry(Low(tmp));
    next := Xor(Xor(crc >> 8, low), high);
  }

  /** pnpid_crc16 */
  method PnpidCrc16(crc0: bv16, data: seq<bv8>) returns (crc: bv16)
    ensures crc == TableCrc(crc0, data)
  {
    hide TableStep;
    crc := crc0;
    assert data[0..] == data;
    for i := 0 to |data|
      invariant TableCrc(crc, data[i..]) == TableCrc(crc0, data)
    {
      assert data[i..][0] == data[i] && data[i..][1..] == data[i + 1..];
      crc := StepByte(crc, data[i]);
    }
  }

  // ---- Linearity ----------------------------------------------------------------------

  lemma XorShifts(a: bv16, b: bv16)
    ensures Xor(a, b) >> 1 == Xor(a >> 1, b >> 1)
  {
    assert (a ^ b) >> 1 == (a >> 1) ^ (b >> 1);
  }

  lemma XorLowBit(a: bv16, b: bv16)
    ensures (Xor(a, b) & 1 != 0) == ((a & 1 != 0) != (b & 1 != 0))
  {
  }

  lemma XorMoves(a: bv16, b: bv16, p: bv16)
    ensures Xor(Xor(a, p), b) == Xor(Xor(a, b), p) && Xor(a, Xor(b, p)) == Xor(Xor(a, b), p)
    ensures Xor(Xor(a, p), Xor(b, p)) == Xor(a, b)
  {
    hide Xor;
    XorAssociates(a, b, p);
    XorAssociates(a, p, b);
    XorCommutes(b, p);
    XorAssociates(Xor(a, p), b, p);
    XorAssociates(Xor(a, b), p, p);
    XorCancels(Xor(a, b), p);
  }

  lemma XorAssociates(a: bv16, b: bv16, c: bv16)
    ensures Xor(a, Xor(b, c)) == Xor(Xor(a, b), c)
  {
  }

  lemma XorCommutes(a: bv16, b: bv16)
    ensures Xor(a, b) == Xor(b, a)
  {
  }

  lemma XorCancels(a: bv16, p: bv16)
    ensures Xor(a, Xor(p, p)) == a
  {
  }

  lemma BitIsLinear(a: bv16, b: bv16)
    ensures ShiftBit(Xor(a, b)) == Xor(ShiftBit(a), ShiftBit(b))
  {
    hide Xor;
    XorShifts(a, b);
    XorLowBit(a, b);
    XorMoves(a >> 1, b >> 1, POLY_REFLECTED);
  }

  lemma {:induction false} BitsAreLinear(a: bv16, b: bv16, n: nat)
    ensures ShiftBits(Xor(a, b), n) == Xor(ShiftBits(a, n), ShiftBits(b, n))
    decreases n
  {
    hide ShiftBit, Xor;
    if n > 0 {
      BitIsLinear(a, b);
      BitsAreLinear(ShiftBit(a), ShiftBit(b), n - 1);
    }
  }

  lemma LowByteZero(c: bv16)
    requires c & 0xFF == 0
    ensures ShiftBit(c) == c >> 1 && ShiftBit(c >> 1) == c >> 2 && ShiftBit(c >> 2) == c >> 3
    ensures ShiftBit(c >> 3) == c >> 4 && ShiftBit(c >> 4) == c >> 5 && ShiftBit(c >> 5) == c >> 6
    ensures ShiftBit(c >> 6) == c >> 7 && ShiftBit(c >> 7) == c >> 8
  {
  }

  lemma MaskedHigh(c: bv16)
    ensures (c & 0xFF00) & 0xFF == 0 && (c & 0xFF00) >> 8 == c >> 8
  {
  }

  /** Zeros at the bottom are shifted out without a subtraction. */
  lemma {:induction false} HighByteShiftsDown(c: bv16)
    ensures ShiftBits(c & 0xFF00, 8) == c >> 8
  {
    hide ShiftBit, Xor;
    var h := c & 0xFF00;
    MaskedHigh(c);
    LowByteZero(h);
    assert ShiftBits(h, 8) == ShiftBits(h >> 1, 7);
    assert ShiftBits(h >> 1, 7) == ShiftBits(h >> 2, 6);
    assert ShiftBits(h >> 2, 6) == ShiftBits(h >> 3, 5);
    assert ShiftBits(h >> 3, 5) == ShiftBits(h >> 4, 4);
    assert ShiftBits(h >> 4, 4) == ShiftBits(h >> 5, 3);
    assert ShiftBits(h >> 5, 3) == ShiftBits(h >> 6, 2);
    assert ShiftBits(h >> 6, 2) == ShiftBits(h >> 7, 1);
    assert ShiftBits(h >> 7, 1) == ShiftBits(h >> 8, 0);
  }

  lemma SplitByte(crc: bv16, data: bv8)
    ensures var tmp := Tmp(crc, data);
            Xor(crc, data as bv16) == Xor(crc & 0xFF00, Xor(Low(tmp), High(tmp)))
  {
  }

  lemma TrueEntry()
    ensures ShiftBits(0xF0, 8) == TRUE_VALUE
  {
    assert ShiftBits(0xF0, 8) == ShiftBits(0x78, 7) == ShiftBits(0x3C, 6);
    assert ShiftBits(0x3C, 6) == ShiftBits(0x1E, 5) == ShiftBits(0x0F, 4);
    assert ShiftBits(0x0F, 4) == ShiftBits(0xA006, 3) == ShiftBits(0x5003, 2) == ShiftBits(0x8800, 1) == 0x4400;
  }

  lemma TypoBit(a: bv16)
    ensures Xor(a, TYPO_VALUE) == Xor(Xor(a, TRUE_VALUE), 0x0200) && Xor(a, 0) == a
  {
  }

  lemma TypoNibble(tmp: bv16)
    ensures IsTypo(tmp) ==> High(tmp) == 0xF0
  {
  }

  /** The step with a right table is the bit-serial step. */
  lemma {:induction false} RightTable(crc: bv16, data: bv8)
    ensures var tmp := Tmp(crc, data);
            Xor(Xor(crc >> 8, ShiftBits(Low(tmp), 8)), ShiftBits(High(tmp), 8)) == ArcStep(crc, data)
  {
    hide ShiftBits, Tmp, Xor, Low, High;
    var tmp := Tmp(crc, data);
    var lo, hi := Low(tmp), High(tmp);
    SplitByte(crc, data);
    BitsAreLinear(crc & 0xFF00, Xor(lo, hi), 8);
    BitsAreLinear(lo, hi, 8);
    HighByteShiftsDown(crc);
    XorMoves(crc >> 8, ShiftBits(lo, 8), ShiftBits(hi, 8));
  }

  /** The wrong entry is met exactly when the byte that indexes the tables is at least 0xF0. */
  lemma TypoIsHigh(crc: bv16, data: bv8)
    ensures IsTypo(Tmp(crc, data)) <==> ((crc & 0xFF) ^ (data as bv16)) >= 0xF0
  {
  }

  /** A table step is the bit-serial step, but for one bit of the result when it meets the wrong
      entry. */
  lemma {:induction false} TableStepIsArcStep(crc: bv16, data: bv8)
    ensures TableStep(crc, data)
         == Xor(ArcStep(crc, data), if ((crc & 0xFF) ^ (data as bv16)) >= 0xF0 then 0x0200 else 0)
  {
    TypoIsHigh(crc, data);
    StepByTypo(crc, data);
  }

  lemma StepByTypo(crc: bv16, data: bv8)
    ensures TableStep(crc, data) == Xor(ArcStep(crc, data), if IsTypo(Tmp(crc, data)) then 0x0200 else 0)
  {
    hide ShiftBits, Tmp, Xor, ArcStep, Low, High, IsTypo;
    var tmp := Tmp(crc, data);
    RightTable(crc, data);
    TypoNibble(tmp);
    TrueEntry();
    TypoBit(Xor(crc >> 8, ShiftBits(Low(tmp), 8)));
    TypoBit(ArcStep(crc, data));
  }

  /** Byte 0xF1 meets the wrong entry, where the polynomial gives 0x84C1. */
  lemma WrongEntryShows()
    ensures TableStep(0, 0xF1) == 0x86C1 && ArcStep(0, 0xF1) == 0x84C1
  {
    assert ArcStep(0, 0xF1) == 0x84C1 by {
      assert Xor(0, 0xF1) == 0xF1;
      assert ShiftBits(0xF1, 8) == ShiftBits(0xA079, 7) == ShiftBits(0xF03D, 6);
      assert ShiftBits(0xF03D, 6) == ShiftBits(0xD81F, 5) == ShiftBits(0xCC0E, 4);
      assert ShiftBits(0xCC0E, 4) == ShiftBits(0x6607, 3) == ShiftBits(0x9302, 2) == ShiftBits(0x4981, 1) == 0x84C1;
    }
    TableStepIsArcStep(0, 0xF1);
    assert Xor(0x84C1, 0x0200) == 0x86C1;
  }

  /** Some step of the run meets the wrong entry. */
  predicate EverMeetsTypo(crc: bv16, data: seq<bv8>)
    decreases |data|
  {
    data != [] &&
    (((crc & 0xFF) ^ (data[0] as bv16)) >= 0xF0 || EverMeetsTypo(TableStep(crc, data[0]), data[1..]))
  }

  lemma BitDiffers(a: bv16)
    ensures Xor(a, 0) == a && Xor(a, 0x0200) != a
  {
  }

  lemma FirstStep(crc: bv16, data: seq<bv8>, k: nat)
    requires 1 <= k <= |data|
    ensures TableCrc(crc, data[..k]) == TableCrc(TableStep(crc, data[0]), data[1..][..k - 1])
    ensures ArcCrc(crc, data[..k]) == ArcCrc(ArcStep(crc, data[0]), data[1..][..k - 1])
  {
    hide TableStep, ArcStep;
    assert data[..k][1..] == data[1..][..k - 1];
  }

  /** A run agrees with CRC-16/ARC after every byte exactly when it never meets the wrong entry. */
  lemma {:induction false} AgreesUnlessTypo(crc: bv16, data: seq<bv8>)
    ensures (forall k :: 0 <= k <= |data| ==> TableCrc(crc, data[..k]) == ArcCrc(crc, data[..k]))
       <==> !EverMeetsTypo(crc, data)
    decreases |data|
  {
    hide TableStep, ArcStep, Xor, TableCrc, ArcCrc;
    Empty(crc);
    if data == [] {
      assert data[..0] == [];
    } else {
      var rest := data[1..];
      var next, arc := TableStep(crc, data[0]), ArcStep(crc, data[0]);
      TableStepIsArcStep(crc, data[0]);
      BitDiffers(arc);
      if ((crc & 0xFF) ^ (data[0] as bv16)) >= 0xF0 {
        FirstStep(crc, data, 1);
        Empty(next);
        Empty(arc);
        assert rest[..0] == [];
        assert TableCrc(crc, data[..1]) != ArcCrc(crc, data[..1]);
      } else {
        AgreesUnlessTypo(next, rest);
        assert data[..0] == [];
        forall k | 1 <= k <= |data|
          ensures TableCrc(crc, data[..k]) == TableCrc(next, rest[..k - 1])
          ensures ArcCrc(crc, data[..k]) == ArcCrc(next, rest[..k - 1])
        {
          FirstStep(crc, data, k);
        }
        assert forall k :: 0 <= k <= |rest| ==>
                 (TableCrc(next, rest[..k]) == ArcCrc(next, rest[..k])
                  <==> TableCrc(crc, data[..k + 1]) == ArcCrc(crc, data[..k + 1]));
      }
    }
  }

  lemma Empty(crc: bv16)
    ensures TableCrc(crc, []) == crc && ArcCrc(crc, []) == crc
  {
  }

  /** Feeding a then b is feeding them joined. */
  lemma {:induction false} CrcConcat(crc: bv16, a: seq<bv8>, b: seq<bv8>)
    ensures TableCrc(crc, a + b) == TableCrc(TableCrc(crc, a), b)
    decreases |a|
  {
    hide TableStep;
    if a == [] {
      assert a + b == b;
    } else {
      assert (a + b)[1..] == a[1..] + b;
      CrcConcat(TableStep(crc, a[0]), a[1..], b);
    }
  }
}
