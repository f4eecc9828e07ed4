/** Reset, set-up and configuration in src/gpib/tnt4882.c: what tnt_init establishes and what
    the configuration calls keep. */
module Setup {
  import opened Words
  import opened TntRegs
  import opened ChipModel
  import opened Tnt4882
  import opened Control

  /** No byte moved by the engine touches the control lines. */
  lemma {:induction false} MovesKeepLines(s: State, k: nat)
    ensures Moves(s, k).core.lines == s.core.lines
    decreases k
  {
    if k > 0 {
      MoveKeepsLines(s);
      MovesKeepLines(Move(s), k - 1);
    }
  }

  lemma MoveKeepsLines(s: State)
    ensures Move(s).core.lines == s.core.lines
  {
    hide Received, Overhear, IsCommand, Accepts, Has, Deliver, TakeRole, Offer, TakeOffer, Ends, Counted,
      CountedIn, CountByte;
    if MayReceive(s) {
      ReceivedKeepsLines(s.core, Offer(s.dev)[0], CountByte(s.turbo) == 0 && Has(s.turbo.cfg, CFG_CCEN));
    }
    if MaySend(s) {
      OverhearKeepsLines(s.turbo, s.core);
    }
  }

  lemma ReceivedKeepsLines(c: Core, i: Item, closing: bool)
    ensures Received(c, i, closing).lines == c.lines
  {
    hide Ends;
  }

  lemma OverhearKeepsLines(t: Turbo, c: Core)
    requires |t.fifo| > 0
    ensures Overhear(t, c).lines == c.lines
  {
    hide TakeRole, IsCommand, Addr;
  }

  /** The chip after reset_sequence: both halves at their reset values; the line states that a
      reset leaves alone are kept. */
  ghost predicate AfterReset(c: TntChip, lines: Lines)
    reads c, c.io
  {
    && c.io.core == Core(0, 0, 0, 0, AuxRegs(0, 0, 0, 0), lines.(cic := false, atn := false),
                          Role(false, false), false, 0)
    && c.io.turbo == TurboReset()
    && c.isr1 == 0 && c.isr2 == 0
    && ShelfReset(c.io.shelf)
  }

  /** Interrupts masked, no address, accessory bus off, one-chip mode without DMA, and off line. */
  predicate ShelfReset(r: Shelf) {
    && r.imr1 == 0 && r.imr2 == 0 && r.imr3 == 0 && r.spmr == 0 && r.admr == 0 && r.adr1 == 0
    && r.accwr == 0 && r.keyreg == 0 && r.hssel == 0x11 && r.pon
  }

  lemma ResetWrites(s: State)
    ensures Hidden(s, AUX_7210) == s.(core := s.core.(aux := s.core.aux.(auxra := AUX_7210)))
    ensures Hidden(s, AUX_CR) == s.(core := CoreReset(s.core))
  {
  }

  /** reset_sequence, from any state of the chip. */
  method ResetSequence(c: TntChip)
    modifies c`isr1, c`isr2, c.io
    ensures AfterReset(c, old(c.io.core.lines))
  {
    hide Moves, Hidden, Shelved, AfterWrite, Run, ShelfReset;
    ResetTurbo(c);
    ResetWrites(c.Now());
    ShelfIsReset(c.io.shelf);
    AuxmrIdle(c, AUX_CR);
    ResetTail(c);
  }

  lemma ShelfIsReset(r: Shelf)
    requires r.hssel == HSSEL_NODMA | HSSEL_ONE_CHIP && r.imr3 == 0 && r.accwr == 0
    ensures ShelfReset(Shelved(r, REG_AUXMR, AUX_CR).(keyreg := 0, imr1 := 0, imr2 := 0, spmr := 0))
  {
    hide Shelved;
    ShelfAtReset(r);
  }

  /** The Turbo488 side, and into one-chip mode. */
  method ResetTurbo(c: TntChip)
    modifies c.io
    ensures c.io.core.lines == old(c.io.core.lines) && c.io.turbo == TurboReset()
    ensures var r := c.io.shelf; r.hssel == HSSEL_NODMA | HSSEL_ONE_CHIP && r.imr3 == 0 && r.accwr == 0
  {
    hide Moves, Hidden, Shelved;
    ghost var s0 := c.Now();
    ShelfAtReset(c.io.shelf);
    ghost var j, k := Cmdr(c, CMD_SOFT_RESET);
    MovesKeepLines(s0, j);
    ShelfAtReset(c.io.shelf);
    WriteStored(c, REG_HSSEL, HSSEL_NODMA);
    ShelfAtReset(c.io.shelf);
    WriteStored(c, REG_ACCWR, 0);
    SwappedReset(c);
    ShelfAtReset(c.io.shelf);
    WriteStored(c, REG_HSSEL, HSSEL_NODMA | HSSEL_ONE_CHIP);
  }

  /** Out of 9914 mode, wherever the register is. The second write lands on AUXRA. */
  method SwappedReset(c: TntChip)
    requires !c.io.turbo.go
    modifies c.io
    ensures var s := old(c.Now());
            c.Now() == s.(core := s.core.(aux := s.core.aux.(auxra := AUX_7210)))
    ensures c.io.shelf == old(c.io.shelf).(spmr := AUX_7210)
  {
    hide Moves, Hidden, Shelved;
    ShelfAtReset(c.io.shelf);
    WriteStored(c, REG_AUXCR, AUX_7210);
    ghost var k := c.io.DelayUs(1);
    ResetWrites(c.Now());
    ShelfAtReset(c.io.shelf);
    k := c.io.Write8(REG_SWAPPED_AUXCR, AUX_7210);
    k := c.io.DelayUs(1);
  }

  lemma ShelfAtReset(r: Shelf)
    ensures Shelved(r, REG_CMDR, CMD_SOFT_RESET) == r.(hssel := 0, imr3 := 0)
    ensures Shelved(r, REG_AUXMR, AUX_7210) == r
    ensures Shelved(r, REG_AUXMR, AUX_CR)
         == r.(imr1 := 0, imr2 := 0, spmr := 0, admr := 0, adr1 := 0, auxre := 0, ppr := 0, pon := true)
    ensures forall v :: Shelved(r, REG_HSSEL, v) == r.(hssel := v) && Shelved(r, REG_ACCWR, v) == r.(accwr := v)
    ensures forall v :: Shelved(r, REG_AUXCR, v) == r.(spmr := v)
  {
  }

  /** The end of reset_sequence: masks cleared, stale status read away. */
  method ResetTail(c: TntChip)
    requires !c.io.turbo.go && c.io.core.isr1 == 0 && c.io.core.isr2 == 0
    modifies c`isr1, c`isr2, c.io
    ensures c.Now() == old(c.Now()) && c.isr1 == 0 && c.isr2 == 0
    ensures c.io.shelf == old(c.io.shelf).(keyreg := 0, imr1 := 0, imr2 := 0, spmr := 0)
  {
    hide Value, ReadValue, Has;
    WriteStored(c, REG_KEYREG, 0);
    WriteStored(c, REG_IMR1, 0);
    WriteStored(c, REG_IMR2, 0);
    WriteStored(c, REG_SPMR, 0);
    var v := ReadIdle(c, REG_CPTR);
    v := ReadIdle(c, REG_ISR1);
    v := ReadIdle(c, REG_ISR2);
    c.isr1, c.isr2 := 0, 0;
  }

  /** The reset signature shows on every register but STS1, which also shows the
      system-controller bit, and no reset clears that. */
  lemma Signature(s: State)
    requires s.turbo == TurboReset() && !s.core.lines.cic && !s.core.lines.atn && s.core.role == Role(false, false)
    ensures Sts1(s) == RESET_STS1 <==> !s.core.lines.sc
    ensures Sts2(s) == RESET_STS2 && Isr3(s) == RESET_ISR3 && Adsr(s.core) == RESET_ADSR
  {
  }

  lemma ProbeReads(s: State, r: Shelf)
    ensures ReadValue(s, r, REG_CSR) == CSR_VERSION_TNT4882 && ReadValue(s, r, REG_STS1) == Sts1(s)
    ensures ReadValue(s, r, REG_STS2) == Sts2(s) && ReadValue(s, r, REG_ISR3) == Isr3(s)
    ensures ReadValue(s, r, REG_ADSR) == Adsr(s.core) && ReadValue(s, r, REG_ISR0) == s.turbo.isr0
    ensures AfterRead(s, REG_CSR) == s && AfterRead(s, REG_STS1) == s && AfterRead(s, REG_STS2) == s
    ensures AfterRead(s, REG_ISR3) == s && AfterRead(s, REG_ADSR) == s
    ensures AfterRead(s, REG_ISR0) == s.(turbo := s.turbo.(isr0 := 0))
  {
    hide Sts1, Sts2, Isr3, Adsr;
  }

  /** What tnt_probe reports. */
  datatype Probe = Probe(csr: bv8, sts1: bv8, sts2: bv8, isr3: bv8, adsr: bv8, isr0: bv8, ok: bool)

  /** tnt_probe recognises the chip exactly when it is not already system controller, and reports
      the registers as they are after the reset. */
  method TntProbe(c: TntChip) returns (rc: Status, r: Probe)
    modifies c`isr1, c`isr2, c.io
    ensures rc == if old(c.io.core.lines).sc then EIO else OK
    ensures r.ok == (rc == OK)
    ensures r.csr == CSR_VERSION_TNT4882 && r.sts2 == RESET_STS2 && r.isr3 == RESET_ISR3 && r.adsr == RESET_ADSR
    ensures r.isr0 == ISR0_SYNC && (r.sts1 == RESET_STS1 <==> r.ok)
    ensures c.io.core == CoreReset(old(c.io.core)) && c.io.turbo == TurboReset().(isr0 := 0)
    ensures ShelfReset(c.io.shelf)
    ensures c.isr1 == 0 && c.isr2 == 0
  {
    hide Moves, Sts1, Sts2, Isr3, Adsr, ReadValue, Value, AfterRead;
    ResetSequence(c);
    Signature(c.Now());
    ProbeReads(c.Now(), c.io.shelf);
    var csr := ReadIdle(c, REG_CSR);
    var sts1 := ReadIdle(c, REG_STS1);
    var sts2 := ReadIdle(c, REG_STS2);
    var isr3 := ReadIdle(c, REG_ISR3);
    var adsr := ReadIdle(c, REG_ADSR);
    var isr0 := ReadIdle(c, REG_ISR0);
    var ok := sts1 == RESET_STS1 && sts2 == RESET_STS2 && isr3 == RESET_ISR3 && adsr == RESET_ADSR;
    r := Probe(csr, sts1, sts2, isr3, adsr, isr0, ok);
    rc := if ok then OK else EIO;
  }

  // ---- Configuration ------------------------------------------------------------------

  /** The second address register and the address mode, without and with a secondary address. */
  function Addressed(r: Shelf, sad: int): Shelf {
    if sad < 0 then r.(adr1 := HR_ARS | HR_DT | HR_DL, admr := HR_TRM0 | HR_TRM1 | HR_ADM0)
    else r.(adr1 := HR_ARS | (Byte(sad) & 0x1F), admr := HR_TRM0 | HR_TRM1 | HR_ADM1)
  }

  /** tnt_set_address */
  method TntSetAddress(c: TntChip, pad: bv8, sad: int) returns (rc: Status)
    requires !c.io.turbo.go
    modifies c`pad, c`sad, c.io`core, c.io`turbo, c.io`dev, c.io`shelf, c.io`lastPush
    ensures rc == if pad > 30 || sad > 30 then EINVAL else OK
    ensures rc == OK ==> c.pad == pad && c.sad == sad && c.io.shelf == Addressed(old(c.io.shelf), sad)
    ensures rc == OK ==>
              c.io.shelf == old(c.io.shelf).(adr1 := if sad < 0 then 0xE0 else 0x80 + Byte(sad),
                                             admr := if sad < 0 then 0x31 else 0x32)
    ensures rc == OK ==> var s := old(c.Now()); c.Now() == s.(core := s.core.(adr0 := pad))
    ensures rc != OK ==> c.Now() == old(c.Now()) && c.pad == old(c.pad) && c.sad == old(c.sad)
    ensures rc != OK ==> c.io.shelf == old(c.io.shelf)
  {
    hide Has, Shelved, Byte, Addressed;
    if pad > 30 || sad > 30 {
      return EINVAL;
    }
    c.pad, c.sad := pad, sad;
    AddressedBytes(c.io.shelf, sad);
    PadBits(pad, 0);
    WriteAdr(c, pad & 0x1F);
    SetSecond(c, sad);
    rc := OK;
  }

  /** The second address register and the address mode. */
  method SetSecond(c: TntChip, sad: int)
    requires !c.io.turbo.go
    modifies c.io`core, c.io`turbo, c.io`dev, c.io`shelf, c.io`lastPush
    ensures c.Now() == old(c.Now()) && c.io.shelf == Addressed(old(c.io.shelf), sad)
  {
    hide Has, Shelved, Byte, Addressed;
    PadBits(0, if sad < 0 then 0 else sad);
    if sad < 0 {
      WriteAdr(c, HR_ARS | HR_DT | HR_DL);
      WriteAdmr(c, HR_TRM0 | HR_TRM1 | HR_ADM0);
    } else {
      WriteAdr(c, HR_ARS | (Byte(sad) & 0x1F));
      WriteAdmr(c, HR_TRM0 | HR_TRM1 | HR_ADM1);
    }
    AddressedIs(old(c.io.shelf), sad);
  }

  lemma AddressedIs(r: Shelf, sad: int)
    ensures Addressed(r, sad)
         == if sad < 0 then r.(adr1 := HR_ARS | HR_DT | HR_DL).(admr := HR_TRM0 | HR_TRM1 | HR_ADM0)
            else r.(adr1 := HR_ARS | (Byte(sad) & 0x1F)).(admr := HR_TRM0 | HR_TRM1 | HR_ADM1)
  {
    hide Byte;
  }

  method WriteAdmr(c: TntChip, v: bv8)
    requires !c.io.turbo.go
    modifies c.io`core, c.io`turbo, c.io`dev, c.io`shelf, c.io`lastPush
    ensures c.Now() == old(c.Now()) && c.io.shelf == old(c.io.shelf).(admr := v)
  {
    hide Moves, Shelved;
    AdrIsShelved(c.io.shelf, v);
    WriteStored(c, REG_ADMR, v);
  }

  /** Mode 1 with the second address disabled, or mode 2 with it. */
  lemma AddressedBytes(r: Shelf, sad: int)
    requires sad <= 30
    ensures Addressed(r, sad) == r.(adr1 := if sad < 0 then 0xE0 else 0x80 + Byte(sad),
                                    admr := if sad < 0 then 0x31 else 0x32)
  {
    hide Byte;
    if sad >= 0 {
      assert sad % 0x100 == sad;
      AtMost30(Byte(sad));
      ArsAndAddress(Byte(sad));
    }
  }

  lemma ArsAndAddress(b: bv8)
    requires b <= 30
    ensures HR_ARS | (b & 0x1F) == 0x80 + b
  {
  }

  /** One write serves both address registers. */
  method WriteAdr(c: TntChip, v: bv8)
    requires !c.io.turbo.go
    modifies c.io`core, c.io`turbo, c.io`dev, c.io`shelf, c.io`lastPush
    ensures var s := old(c.Now());
            c.Now() == if Has(v, HR_ARS) then s else s.(core := s.core.(adr0 := v))
    ensures var r := old(c.io.shelf);
            c.io.shelf == if Has(v, HR_ARS) then r.(adr1 := v) else r
  {
    hide Moves, Has, Shelved;
    AdrIsShelved(c.io.shelf, v);
    ghost var k := c.io.Write8(REG_ADR, v);
  }

  lemma AdrIsShelved(r: Shelf, v: bv8)
    ensures Shelved(r, REG_ADR, v) == if Has(v, HR_ARS) then r.(adr1 := v) else r
    ensures Shelved(r, REG_ADMR, v) == r.(admr := v)
  {
    hide Has;
  }

  lemma PadBits(pad: bv8, sad: nat)
    requires pad <= 30
    ensures pad & 0x1F == pad && !Has(pad, HR_ARS)
    ensures Has(HR_ARS | HR_DT | HR_DL, HR_ARS) && Has(HR_ARS | (Byte(sad) & 0x1F), HR_ARS)
  {
    ArsSet(Byte(sad) & 0x1F);
  }

  lemma ArsSet(b: bv8)
    ensures Has(HR_ARS | b, HR_ARS)
  {
  }

  /** A masked update that stays clear of the selector is decoded as the same hidden register. */
  lemma HiddenDecodes(s: State, v: bv8)
    ensures Selector(v) == AUX_AUXRA ==> Hidden(s, v) == s.(core := s.core.(aux := s.core.aux.(auxra := v)))
    ensures Selector(v) == AUX_AUXRB ==> Hidden(s, v) == s.(core := s.core.(aux := s.core.aux.(auxrb := v)))
    ensures Selector(v) == AUX_AUXRI ==> Hidden(s, v) == s.(core := s.core.(aux := s.core.aux.(auxri := v)))
    ensures v == AUX_AUXRG ==> Hidden(s, v) == s.(core := s.core.(aux := s.core.aux.(auxrg := v)))
    ensures Selector(v) == AUX_PPR || Selector(v) == AUX_AUXRE || v == AUX_PON ==> Hidden(s, v) == s
  {
  }

  function Masked(v: bv8, mask: bv8, on: bool): bv8 {
    if on then v | mask else v & !mask
  }

  /** The bits outside a mask. */
  function Without(v: bv8, mask: bv8): bv8 { v & !mask }

  lemma MaskedBits(v: bv8, mask: bv8, on: bool)
    requires Selector(mask) == 0
    ensures Selector(Masked(v, mask, on)) == Selector(v)
    ensures Without(Masked(v, mask, on), mask) == Without(v, mask)
    ensures mask != 0 ==> (Has(Masked(v, mask, on), mask) <==> on)
  {
  }

  lemma KeyIsShelved(r: Shelf)
    ensures forall v :: Shelved(r, REG_KEYREG, v) == r.(keyreg := v)
  {
  }

  lemma AuxrAreNotShelved(r: Shelf, v: bv8)
    requires Selector(v) == AUX_AUXRB || Selector(v) == AUX_AUXRI
    ensures Shelved(r, REG_AUXMR, v) == r
  {
  }

  /** tnt_set_t1: the settling time chooses TRI, USTD and MSTD; the other bits of the registers
      are left alone, and shadows and chip agree again. */
  method TntSetT1(c: TntChip, ns: nat)
    requires c.Shadows() && !c.io.turbo.go
    modifies c`t1Ns, c`auxrb, c`auxri, c.io
    ensures c.Shadows()
    ensures c.t1Ns == ns && c.io.shelf == old(c.io.shelf).(keyreg := if ns <= 350 then KEY_MSTD else 0)
    ensures (Has(c.auxrb, HR_TRI) <==> ns <= 500) && Without(c.auxrb, HR_TRI) == Without(old(c.auxrb), HR_TRI)
    ensures (Has(c.auxri, HR_USTD) <==> 500 < ns <= 1100) && Without(c.auxri, HR_USTD) == Without(old(c.auxri), HR_USTD)
    ensures var s := old(c.Now());
            c.Now() == s.(core := s.core.(aux := s.core.aux.(auxrb := c.auxrb, auxri := c.auxri)))
  {
    hide Masked, Without, Has, Shelved, Selector, TntChip.Shadows;
    SetT1Ns(c, ns);
    SettlingMasks();
    UpdateAuxrb(c, HR_TRI, ns <= 500);
    WriteKey(c, if ns <= 350 then KEY_MSTD else 0);
    UpdateAuxri(c, HR_USTD, 500 < ns <= 1100);
  }

  method SetT1Ns(c: TntChip, ns: nat)
    requires c.Shadows()
    modifies c`t1Ns
    ensures c.Shadows() && c.t1Ns == ns
  {
    c.t1Ns := ns;
  }

  method WriteKey(c: TntChip, v: bv8)
    requires c.Shadows() && !c.io.turbo.go
    modifies c.io`core, c.io`turbo, c.io`dev, c.io`shelf, c.io`lastPush
    ensures c.Shadows() && c.Now() == old(c.Now()) && c.io.shelf == old(c.io.shelf).(keyreg := v)
  {
    hide Shelved, Selector;
    KeyIsShelved(c.io.shelf);
    WriteStored(c, REG_KEYREG, v);
  }

  lemma SettlingMasks()
    ensures Selector(HR_TRI) == 0 && Selector(HR_USTD) == 0
  {
  }

  method UpdateAuxrb(c: TntChip, mask: bv8, on: bool)
    requires c.Shadows() && !c.io.turbo.go && Selector(mask) == 0
    modifies c`auxrb, c.io
    ensures c.Shadows() && c.io.shelf == old(c.io.shelf) && Without(c.auxrb, mask) == Without(old(c.auxrb), mask)
    ensures mask != 0 ==> (Has(c.auxrb, mask) <==> on)
    ensures var s := old(c.Now()); c.Now() == s.(core := s.core.(aux := s.core.aux.(auxrb := c.auxrb)))
  {
    hide Hidden, Masked, Without, Has, Shelved, Moves, Selector;
    MaskedBits(c.auxrb, mask, on);
    c.auxrb := Masked(c.auxrb, mask, on);
    HiddenDecodes(c.Now(), c.auxrb);
    AuxrAreNotShelved(c.io.shelf, c.auxrb);
    AuxmrIdle(c, c.auxrb);
  }

  method UpdateAuxri(c: TntChip, mask: bv8, on: bool)
    requires c.Shadows() && !c.io.turbo.go && Selector(mask) == 0
    modifies c`auxri, c.io
    ensures c.Shadows() && c.io.shelf == old(c.io.shelf) && Without(c.auxri, mask) == Without(old(c.auxri), mask)
    ensures mask != 0 ==> (Has(c.auxri, mask) <==> on)
    ensures var s := old(c.Now()); c.Now() == s.(core := s.core.(aux := s.core.aux.(auxri := c.auxri)))
  {
    hide Hidden, Masked, Without, Has, Shelved, Moves, Selector;
    MaskedBits(c.auxri, mask, on);
    c.auxri := Masked(c.auxri, mask, on);
    HiddenDecodes(c.Now(), c.auxri);
    AuxrAreNotShelved(c.io.shelf, c.auxri);
    AuxmrIdle(c, c.auxri);
  }

  const EOS_MASK: bv8 := HR_REOS | HR_BIN | HR_XEOS

  function EosBits(auxra: bv8, flags: bv8): bv8 {
    Without(auxra, EOS_MASK) | Flag(Has(flags, EOS_REOS), HR_REOS) |
    Flag(Has(flags, EOS_BIN), HR_BIN) | Flag(Has(flags, EOS_XEOS), HR_XEOS)
  }

  lemma EosBitsSet(auxra: bv8, flags: bv8)
    requires Selector(auxra) == AUX_AUXRA
    ensures var v := EosBits(auxra, flags);
            && Selector(v) == AUX_AUXRA
            && Without(v, EOS_MASK) == Without(auxra, EOS_MASK)
            && (Has(v, HR_REOS) <==> Has(flags, EOS_REOS))
            && (Has(v, HR_BIN) <==> Has(flags, EOS_BIN))
            && (Has(v, HR_XEOS) <==> Has(flags, EOS_XEOS))
  {
  }

  lemma EosMatches(core: Core, eos: bv8, flags: bv8)
    requires core.eosr == eos && (Has(core.aux.auxra, HR_REOS) <==> Has(flags, EOS_REOS))
    requires Has(core.aux.auxra, HR_BIN) <==> Has(flags, EOS_BIN)
    ensures forall b :: EosMatch(core, b) <==>
              Has(flags, EOS_REOS) && (if Has(flags, EOS_BIN) then b == eos else b & 0x7F == eos & 0x7F)
  {
    hide Has;
  }

  /** tnt_set_eos: reads end on the EOS byte if asked to, on 7 or 8 bits as asked. */
  method TntSetEos(c: TntChip, eos: bv8, flags: bv8)
    requires c.Valid()
    modifies c`auxra, c.io
    ensures c.Valid()
    ensures Without(c.auxra, EOS_MASK) == Without(old(c.auxra), EOS_MASK)
    ensures Has(c.auxra, HR_XEOS) <==> Has(flags, EOS_XEOS)
    ensures forall b :: EosMatch(c.io.core, b) <==>
              Has(flags, EOS_REOS) && (if Has(flags, EOS_BIN) then b == eos else b & 0x7F == eos & 0x7F)
    ensures var s := old(c.Now());
            c.Now() == s.(core := s.core.(eosr := eos, aux := s.core.aux.(auxra := c.auxra)))
  {
    hide Hidden, EosBits, Moves, Has, Shelved, Selector, Without, EosMatch;
    ghost var k := c.io.Write8(REG_EOSR, eos);
    EosBitsSet(c.auxra, flags);
    c.auxra := EosBits(c.auxra, flags);
    HiddenDecodes(c.Now(), c.auxra);
    AuxmrIdle(c, c.auxra);
    EosMatches(c.io.core, eos, flags);
  }

  /** The constants that tnt_init writes to the hidden registers, decoded. */
  lemma InitDecodes(s: State)
    ensures Hidden(s, AUX_PPR | HR_PPU) == s && Hidden(s, AUX_AUXRE) == s
    ensures Hidden(s, AUX_AUXRA | HR_HLDA) == s.(core := s.core.(aux := s.core.aux.(auxra := AUX_AUXRA | HR_HLDA)))
    ensures Hidden(s, AUX_AUXRB) == s.(core := s.core.(aux := s.core.aux.(auxrb := AUX_AUXRB)))
    ensures Hidden(s, AUX_AUXRI) == s.(core := s.core.(aux := s.core.aux.(auxri := AUX_AUXRI)))
  {
  }

  /** The hidden registers as tnt_init sets them, one after the other. */
  method InitHidden(c: TntChip)
    requires !c.io.turbo.go && c.io.core.aux == AuxRegs(0, 0, 0, 0)
    modifies c`auxra, c`auxrb, c`auxri, c.io
    ensures c.auxra == AUX_AUXRA | HR_HLDA && c.auxrb == AUX_AUXRB && c.auxri == AUX_AUXRI
    ensures var s := old(c.Now());
            c.Now() == s.(core := s.core.(aux := AuxRegs(c.auxra, c.auxrb, 0, c.auxri)))
    ensures c.io.shelf == old(c.io.shelf).(ppr := 0x70, auxre := 0xC0)
  {
    hide Hidden, Moves, Shelved, Run;
    InitAuxra(c);
    InitAuxrb(c);
    InitDecodes(c.Now());
    HiddenPassShelf(c.io.shelf);
    c.auxri := AUX_AUXRI;
    AuxmrIdle(c, c.auxri);
  }

  method InitAuxrb(c: TntChip)
    requires !c.io.turbo.go
    modifies c`auxrb, c.io
    ensures c.auxrb == AUX_AUXRB
    ensures var s := old(c.Now()); c.Now() == s.(core := s.core.(aux := s.core.aux.(auxrb := c.auxrb)))
    ensures c.io.shelf == old(c.io.shelf).(auxre := 0xC0)
  {
    hide Hidden, Moves, Shelved, Run;
    InitDecodes(c.Now());
    HiddenAreShelved(c.io.shelf);
    AuxmrIdle(c, AUX_AUXRE);
    HiddenPassShelf(c.io.shelf);
    c.auxrb := AUX_AUXRB;
    AuxmrIdle(c, c.auxrb);
  }

  method InitAuxra(c: TntChip)
    requires !c.io.turbo.go
    modifies c`auxra, c.io
    ensures c.auxra == AUX_AUXRA | HR_HLDA
    ensures var s := old(c.Now()); c.Now() == s.(core := s.core.(aux := s.core.aux.(auxra := c.auxra)))
    ensures c.io.shelf == old(c.io.shelf).(ppr := 0x70)
  {
    hide Hidden, Moves, Shelved, Run;
    HiddenAreShelved(c.io.shelf);
    HiddenPassShelf(c.io.shelf.(ppr := 0x70));
    InitDecodes(c.Now());
    AuxmrIdle(c, AUX_PPR | HR_PPU);
    c.auxra := AUX_AUXRA | HR_HLDA;
    AuxmrIdle(c, c.auxra);
  }

  /** Of what tnt_init writes through AUXMR, three values are stored on the shelf. */
  lemma HiddenAreShelved(r: Shelf)
    ensures Shelved(r, REG_AUXMR, AUX_PPR | HR_PPU) == r.(ppr := 0x70)
    ensures Shelved(r, REG_AUXMR, AUX_AUXRE) == r.(auxre := 0xC0)
    ensures Shelved(r, REG_AUXMR, AUX_PON) == r.(pon := false)
    ensures Shelved(r, REG_IMR3, 0) == r.(imr3 := 0) && Shelved(r, REG_IMR0, IMR0_ALWAYS) == r.(imr0 := 0x80)
  {
  }

  /** And the others are not. */
  lemma HiddenPassShelf(r: Shelf)
    ensures Shelved(r, REG_AUXMR, AUX_AUXRA | HR_HLDA) == r && Shelved(r, REG_AUXMR, AUX_AUXRB) == r
    ensures Shelved(r, REG_AUXMR, AUX_AUXRI) == r && Shelved(r, REG_AUXMR, AUX_AUXRG) == r
    ensures Shelved(r, REG_AUXMR, AUX_HLDI) == r && Shelved(r, REG_CMDR, CMD_SETSC) == r
    ensures Shelved(r, REG_EOSR, 0) == r
  {
  }

  lemma HoldDecodes(s: State)
    ensures Hidden(s, AUX_HLDI) == s.(core := s.core.(holdoff := true, sasr := ANHS2))
    ensures Hidden(s, AUX_CREN).turbo == s.turbo
  {
  }

  /** The holdoff until the first read, and the last hidden register. */
  method InitHoldoff(c: TntChip)
    requires !c.io.turbo.go
    modifies c`auxrg, c.io
    ensures c.auxrg == AUX_AUXRG
    ensures var s := old(c.Now());
            c.Now() == s.(core := s.core.(aux := s.core.aux.(auxrg := c.auxrg), holdoff := true, sasr := ANHS2),
                          turbo := s.turbo.(isr0 := 0))
    ensures c.io.shelf == old(c.io.shelf).(imr3 := 0, imr0 := 0x80)
  {
    hide Hidden, Moves, Value, ReadValue, Shelved;
    HiddenAreShelved(c.io.shelf);
    HiddenAreShelved(c.io.shelf.(imr3 := 0));
    HiddenPassShelf(c.io.shelf.(imr3 := 0, imr0 := 0x80));
    var v := ReadIdle(c, REG_ISR0);
    WriteStored(c, REG_IMR3, 0);
    WriteStored(c, REG_IMR0, IMR0_ALWAYS);
    HoldDecodes(c.Now());
    AuxmrIdle(c, AUX_HLDI);
    c.auxrg := AUX_AUXRG;
    HiddenDecodes(c.Now(), c.auxrg);
    AuxmrIdle(c, c.auxrg);
  }

  lemma InitMasks(rb: bv8, ri: bv8)
    requires Without(rb, HR_TRI) == Without(AUX_AUXRB, HR_TRI) && Without(ri, HR_USTD) == Without(AUX_AUXRI, HR_USTD)
    ensures !Has(ri, HR_SISB)
    ensures rb == if Has(rb, HR_TRI) then 0xA4 else 0xA0
    ensures ri == if Has(ri, HR_USTD) then 0xE8 else 0xE0
  {
  }

  /** On line as system controller: the address, the interrupts and the mode, and the registers
      that a settling time chooses. */
  ghost predicate OnLine(c: TntChip)
    reads c, c.io
  {
    && (var r := c.io.shelf;
        && !r.pon && r.adr1 == 0xE0 && r.admr == 0x31 && r.imr0 == 0x80 && r.imr1 == 0 && r.imr2 == 0
        && r.imr3 == 0 && r.spmr == 0 && r.accwr == 0 && r.hssel == 0x11 && r.ppr == 0x70 && r.auxre == 0xC0
        && r.keyreg == if c.t1Ns <= 350 then 0x20 else 0)
    && c.io.core.aux == AuxRegs(0x81, if c.t1Ns <= 500 then 0xA4 else 0xA0, 0x40,
                                if 500 < c.t1Ns <= 1100 then 0xE8 else 0xE0)
    && c.io.core.eosr == 0
  }

  /** tnt_init succeeds exactly on a chip that is not yet system controller, with a primary
      address of at most 30. It leaves the shadows in agreement with the chip, nothing
      addressed, the talker held off, and us system controller. */
  method TntInit(c: TntChip, pad: bv8) returns (rc: Status)
    modifies c, c.io
    ensures rc == if old(c.io.core.lines.sc) then EIO else if pad > 30 then EINVAL else OK
    ensures rc == OK ==>
              && c.Valid() && c.auxra == AUX_AUXRA | HR_HLDA
              && c.pad == pad && c.sad == -1 && c.timeoutMs == old(c.timeoutMs)
              && OnLine(c) && c.t1Ns == old(c.t1Ns)
              && c.io.core.lines == old(c.io.core.lines).(sc := true, cic := false, atn := false)
              && c.io.core.role == Role(false, false) && c.io.core.adr0 == pad && c.io.core.holdoff
              && c.io.turbo.fifo == [] && c.isr1 == 0 && c.io.core.isr1 == 0
  {
    hide TntChip.Valid;
    var probe;
    rc, probe := TntProbe(c);
    if rc != OK {
      return;
    }
    ReadyToInit(old(c.Now()).core, c.Now());
    rc := InitAfterProbe(c, pad);
  }

  lemma ReadyToInit(core: Core, s: State)
    requires s.core == CoreReset(core) && s.turbo == TurboReset().(isr0 := 0)
    ensures !s.turbo.go && s.turbo.fifo == [] && s.core.aux == AuxRegs(0, 0, 0, 0) && s.core.isr1 == 0
    ensures s.core.role == Role(false, false) && s.core.lines == core.lines.(cic := false, atn := false)
  {
  }

  /** What tnt_init does to a chip that has just been probed. */
  method InitAfterProbe(c: TntChip, pad: bv8) returns (rc: Status)
    requires !c.io.turbo.go && c.io.core.aux == AuxRegs(0, 0, 0, 0) && ShelfReset(c.io.shelf)
    modifies c, c.io
    ensures rc == if pad > 30 then EINVAL else OK
    ensures rc == OK ==> OnLine(c) && c.t1Ns == old(c.t1Ns)
    ensures c.timeoutMs == old(c.timeoutMs) && c.isr1 == old(c.isr1)
    ensures rc == OK ==>
              && c.Valid() && c.auxra == AUX_AUXRA | HR_HLDA && c.pad == pad && c.sad == -1
              && c.io.core.lines == old(c.io.core.lines).(sc := true)
              && c.io.core.role == old(c.io.core.role) && c.io.core.isr1 == old(c.io.core.isr1)
              && c.io.core.adr0 == pad && c.io.core.holdoff && c.io.turbo.fifo == old(c.io.turbo.fifo)
  {
    hide Hidden, Moves, Value, ReadValue, Has, Sts1, Shelved, AfterRead, AfterWrite, Run, Move;
    InitQuiet(c);
    rc := TntSetAddress(c, pad, -1);
    if rc != OK {
      return;
    }
    rc := GoOnline(c);
  }

  /** Hidden registers and holdoff, up to the address. */
  method InitQuiet(c: TntChip)
    requires !c.io.turbo.go && c.io.core.aux == AuxRegs(0, 0, 0, 0)
    modifies c`auxra, c`auxrb, c`auxrg, c`auxri, c.io
    ensures c.auxra == AUX_AUXRA | HR_HLDA && c.auxrb == AUX_AUXRB && c.auxrg == AUX_AUXRG && c.auxri == AUX_AUXRI
    ensures var s := old(c.Now());
            c.Now() == s.(core := s.core.(aux := AuxRegs(c.auxra, c.auxrb, c.auxrg, c.auxri), holdoff := true,
                                          sasr := ANHS2),
                          turbo := s.turbo.(isr0 := 0))
    ensures c.io.shelf == old(c.io.shelf).(ppr := 0x70, auxre := 0xC0, imr3 := 0, imr0 := 0x80)
  {
    hide Hidden, Moves, Value, ReadValue, Has, Shelved, AfterRead, AfterWrite, Run, Move;
    InitHidden(c);
    InitHoldoff(c);
  }

  /** The second half of tnt_init: online, settled, and in control of the system. */
  method GoOnline(c: TntChip) returns (rc: Status)
    requires c.Shadows() && !c.io.turbo.go && c.auxrb == AUX_AUXRB && c.auxri == AUX_AUXRI
    modifies c`t1Ns, c`auxrb, c`auxri, c.io
    ensures rc == OK && c.Valid()
    ensures var was := old(c.io.core);
            c.io.core == was.(eosr := 0, aux := was.aux.(auxrb := c.auxrb, auxri := c.auxri),
                              lines := was.lines.(sc := true))
    ensures c.io.turbo == old(c.io.turbo) && c.io.dev == old(c.io.dev)
    ensures c.t1Ns == old(c.t1Ns)
    ensures c.io.shelf == old(c.io.shelf).(pon := false, keyreg := if c.t1Ns <= 350 then 0x20 else 0)
    ensures c.auxrb == if c.t1Ns <= 500 then 0xA4 else 0xA0
    ensures c.auxri == if 500 < c.t1Ns <= 1100 then 0xE8 else 0xE0
  {
    hide Hidden, Moves, Value, Has, Sts1, Shelved;
    HiddenPassShelf(c.io.shelf);
    HiddenAreShelved(c.io.shelf);
    ghost var k := c.io.Write8(REG_EOSR, 0);
    HiddenDecodes(c.Now(), AUX_PON);
    AuxmrIdle(c, AUX_PON);
    TntSetT1(c, c.t1Ns);
    InitMasks(c.auxrb, c.auxri);
    rc := BecomeController(c);
  }

  /** The end of tnt_init: claim the bus, and see that the chip took it. */
  method BecomeController(c: TntChip) returns (rc: Status)
    requires !c.io.turbo.go
    modifies c.io
    ensures rc == OK
    ensures var s := old(c.Now()); c.Now() == s.(core := s.core.(lines := s.core.lines.(sc := true)))
    ensures c.io.shelf == old(c.io.shelf)
  {
    hide Moves, Shelved;
    HiddenPassShelf(c.io.shelf);
    ghost var j, k := Cmdr(c, CMD_SETSC);
    var sts1 := ReadIdle(c, REG_STS1);
    Sts1Bits(c.Now());
    rc := if Has(sts1, S_SC) then OK else EIO;
  }
}
