/** Control of the bus in src/gpib/tnt4882.c: interface clear, remote enable, ATN, and the two
    outgoing transfers that depend on it. */
module Control {
  import opened Words
  import opened TntRegs
  import opened ChipModel
  import opened Deadlines
  import opened Tnt4882
  import opened TransferOut

  lemma AuxiliaryDecodes(s: State, v: bv8)
    requires Selector(v) == 0
    ensures Hidden(s, v) == Auxiliary(s, v)
  {
  }

  lemma SelectorZero()
    ensures Selector(AUX_CR) == 0 && Selector(AUX_GTS) == 0 && Selector(AUX_TCA) == 0
    ensures Selector(AUX_TCS) == 0 && Selector(AUX_CIFC) == 0 && Selector(AUX_CREN) == 0
    ensures Selector(AUX_SIFC) == 0 && Selector(AUX_SREN) == 0
  {
  }

  /** An auxiliary command between transfers. */
  method Order(c: TntChip, v: bv8)
    requires !c.io.turbo.go && Selector(v) == 0
    modifies c.io
    ensures c.Now() == Auxiliary(old(c.Now()), v) && c.io.shelf == Shelved(old(c.io.shelf), REG_AUXMR, v)
    ensures c.io.timeUs >= old(c.io.timeUs)
  {
    hide Shelved, Hidden, Moves, Auxiliary;
    AuxiliaryDecodes(c.Now(), v);
    AuxmrIdle(c, v);
  }

  lemma AdsrBits(core: Core)
    ensures Has(Adsr(core), HR_NATN) <==> !core.lines.atn
    ensures Has(Adsr(core), HR_CIC) <==> core.lines.cic
  {
  }

  lemma Sts1Bits(s: State)
    ensures Has(Sts1(s), S_SC) <==> s.core.lines.sc
  {
    hide Done;
  }

  method TntIsCic(c: TntChip) returns (cic: bool)
    requires !c.io.turbo.go
    modifies c.io
    ensures cic == c.io.core.lines.cic && c.Now() == old(c.Now()) && c.io.timeUs == old(c.io.timeUs)
  {
    hide Moves, Adsr, Has;
    var v := ReadIdle(c, REG_ADSR);
    AdsrBits(c.io.core);
    cic := Has(v, HR_CIC);
  }

  method ReadNatn(c: TntChip) returns (natn: bool)
    requires !c.io.turbo.go
    modifies c.io`core, c.io`turbo, c.io`dev, c.io`lastPop
    ensures natn == !c.io.core.lines.atn && c.Now() == old(c.Now())
  {
    hide Moves, Adsr, Has;
    var v := ReadIdle(c, REG_ADSR);
    AdsrBits(c.io.core);
    natn := Has(v, HR_NATN);
  }

  /** wait_atn: a short spin, then the deadline. */
  method WaitAtn(c: TntChip, asserted: bool) returns (rc: Status)
    requires !c.io.turbo.go && (c.timeoutMs != 0 || c.io.core.lines.atn == asserted)
    modifies c.io
    ensures c.Now() == old(c.Now())
    ensures rc == if c.io.core.lines.atn == asserted then OK else ETIMEOUT
    ensures c.io.timeUs >= old(c.io.timeUs)
    ensures rc == ETIMEOUT ==> c.timeoutMs > TWO31 || c.io.Ms() - old(c.io.Ms()) >= c.timeoutMs
  {
    hide Moves, Start, Wrap;
    ghost var k;
    for spin := 0 to TCA_SPIN_US
      invariant c.Now() == old(c.Now()) && c.io.timeUs >= old(c.io.timeUs)
      invariant spin > 0 ==> c.io.core.lines.atn != asserted
    {
      var natn := ReadNatn(c);
      if natn == !asserted {
        return OK;
      }
      k := c.io.DelayUs(1);
    }
    var d;
    ghost var start: nat;
    d, start := DeadlineStart(c);
    while true
      invariant c.Now() == old(c.Now()) && c.io.timeUs >= old(c.io.timeUs)
      invariant Watched(d, start, c.io.Ms(), c.timeoutMs) && old(c.io.Ms()) <= start
      decreases start + c.timeoutMs - c.io.Ms()
    {
      var natn := ReadNatn(c);
      if natn == !asserted {
        return OK;
      }
      var expired := DeadlineExpired(c, d, start);
      if expired {
        return ETIMEOUT;
      }
      k := c.io.Yield();
    }
  }

  /** tnt_take_control: the controller in charge asserts ATN, and nothing else changes. */
  method TntTakeControl(c: TntChip, synchronous: bool) returns (rc: Status)
    requires c.Valid()
    modifies c.io
    ensures c.Valid()
    ensures rc == if old(c.io.core.lines.cic) then OK else ENOTCIC
    ensures var s, l := old(c.Now()), old(c.io.core.lines);
            c.Now() == if l.cic then s.(core := s.core.(lines := l.(atn := true))) else s
    ensures c.io.timeUs >= old(c.io.timeUs)
  {
    hide Has;
    var cic := TntIsCic(c);
    if !cic {
      return ENOTCIC;
    }
    SelectorZero();
    Order(c, if synchronous then AUX_TCS else AUX_TCA);
    rc := WaitAtn(c, true);
  }

  /** tnt_go_to_standby: the controller in charge releases ATN, and nothing else changes. */
  method TntGoToStandby(c: TntChip) returns (rc: Status)
    requires c.Valid()
    modifies c.io
    ensures c.Valid()
    ensures rc == if old(c.io.core.lines.cic) then OK else ENOTCIC
    ensures var s, l := old(c.Now()), old(c.io.core.lines);
            c.Now() == if l.cic then s.(core := s.core.(lines := l.(atn := false))) else s
    ensures c.io.timeUs >= old(c.io.timeUs)
  {
    hide Has;
    var cic := TntIsCic(c);
    if !cic {
      return ENOTCIC;
    }
    SelectorZero();
    Order(c, AUX_GTS);
    rc := WaitAtn(c, false);
  }

  /** tnt_interface_clear: refused unless we are system controller; otherwise IFC is pulsed,
      which makes us controller in charge with ATN asserted and nobody addressed. */
  method TntInterfaceClear(c: TntChip) returns (rc: Status)
    requires c.Valid()
    modifies c.io
    ensures c.Valid()
    ensures rc == if old(c.io.core.lines.sc) then OK else ENOTSC
    ensures rc == OK ==>
              && c.io.core.lines.cic && c.io.core.lines.atn && !c.io.core.lines.ifc
              && c.io.core.role == Role(false, false)
              && !c.io.dev.mode.talking && !c.io.dev.mode.listening && !c.io.dev.mode.spe
              && (var s := InterfaceClear(old(c.Now()));
                  c.Now() == s.(core := s.core.(lines := s.core.lines.(ifc := false))))
    ensures rc != OK ==> c.Now() == old(c.Now())
    ensures rc == OK ==> c.io.timeUs >= old(c.io.timeUs) + 200
  {
    hide Has, Moves, Shelved;
    var v := ReadIdle(c, REG_STS1);
    Sts1Bits(c.Now());
    if !Has(v, S_SC) {
      return ENOTSC;
    }
    Pulse(c);
    rc := OK;
  }

  /** IFC is asserted, held for as long as the standard asks, and released. */
  method Pulse(c: TntChip)
    requires !c.io.turbo.go && c.io.core.lines.sc
    modifies c.io
    ensures var s := InterfaceClear(old(c.Now()));
            c.Now() == s.(core := s.core.(lines := s.core.lines.(ifc := false)))
    ensures c.io.timeUs >= old(c.io.timeUs) + 200
  {
    hide Has, Moves, Shelved, Auxiliary, InterfaceClear;
    SelectorZero();
    IfcOrders(c.Now());
    Order(c, AUX_SIFC);
    ghost var k := c.io.DelayUs(IFC_PULSE_US);
    Order(c, AUX_CIFC);
  }

  lemma IfcOrders(s: State)
    requires s.core.lines.sc
    ensures var s1, s' := Auxiliary(s, AUX_SIFC), InterfaceClear(s);
            && s1.turbo == s.turbo
            && Auxiliary(s1, AUX_CIFC) == s'.(core := s'.core.(lines := s'.core.lines.(ifc := false)))
  {
    hide Has;
  }

  /** tnt_remote_enable */
  method TntRemoteEnable(c: TntChip, on: bool) returns (rc: Status)
    requires c.Valid()
    modifies c.io
    ensures c.Valid()
    ensures rc == if old(c.io.core.lines.sc) then OK else ENOTSC
    ensures var s := old(c.Now());
            c.Now() == if rc == OK then s.(core := s.core.(lines := s.core.lines.(ren := on))) else s
  {
    hide Has, Moves, Shelved;
    var v := ReadIdle(c, REG_STS1);
    Sts1Bits(c.Now());
    if !Has(v, S_SC) {
      return ENOTSC;
    }
    SelectorZero();
    Order(c, if on then AUX_SREN else AUX_CREN);
    rc := OK;
  }

  lemma ShelfAtShutdown(r: Shelf)
    ensures var r1 := Shelved(Shelved(Shelved(r, REG_IMR0, IMR0_ALWAYS), REG_IMR3, 0), REG_AUXMR, AUX_CREN);
            var r2 := Shelved(Shelved(r1, REG_CMDR, CMD_CLRSC), REG_AUXMR, AUX_CR);
            Shelved(Shelved(r2, REG_IMR1, 0), REG_IMR2, 0)
            == r.(imr0 := 0x80, imr1 := 0, imr2 := 0, imr3 := 0, spmr := 0, admr := 0, adr1 := 0, auxre := 0,
                  ppr := 0, pon := true)
  {
  }

  method MaskTurbo(c: TntChip)
    requires !c.io.turbo.go
    modifies c.io
    ensures var s := old(c.Now()); c.Now() == s.(turbo := s.turbo.(isr0 := 0))
    ensures c.io.shelf == Shelved(Shelved(old(c.io.shelf), REG_IMR0, IMR0_ALWAYS), REG_IMR3, 0)
  {
    hide Has, Moves, Shelved, ReadValue;
    WriteStored(c, REG_IMR0, IMR0_ALWAYS);
    WriteStored(c, REG_IMR3, 0);
    var v := ReadIdle(c, REG_ISR0);
  }

  /** tnt_shutdown gives up the bus, so that the chip can be initialised again. */
  method TntShutdown(c: TntChip)
    requires c.Valid()
    modifies c.io
    ensures !c.io.core.lines.sc && !c.io.core.lines.cic && !c.io.core.lines.atn && !c.io.turbo.go
    ensures old(c.io.core.lines.sc) ==> !c.io.core.lines.ren
    ensures c.io.core.role == Role(false, false) && c.io.core.aux == AuxRegs(0, 0, 0, 0)
    ensures c.io.dev == old(c.io.dev) && c.io.turbo == old(c.io.turbo).(isr0 := 0)
    ensures var r := c.io.shelf;
            && r.pon && r.imr0 == 0x80 && r.imr1 == 0 && r.imr2 == 0 && r.imr3 == 0
            && r.adr1 == 0 && r.admr == 0 && r.spmr == 0
  {
    hide Has, Moves, Shelved, ReadValue;
    ShelfAtShutdown(c.io.shelf);
    MaskTurbo(c);
    SelectorZero();
    Order(c, AUX_CREN);
    ghost var j, k := Cmdr(c, CMD_CLRSC);
    Order(c, AUX_CR);
    WriteStored(c, REG_IMR1, 0);
    WriteStored(c, REG_IMR2, 0);
  }

  /** tnt_command: commands go out under ATN, which is asserted first if it is not. */
  method TntCommand(c: TntChip, cmd: seq<bv8>) returns (rc: Status, sent: nat)
    requires c.Valid() && Limited(c, true)
    modifies c`isr1, c`isr2, c.io
    ensures c.Valid()
    ensures !old(c.io.core.lines.cic) ==> rc == ENOTCIC && sent == 0 && c.Now() == old(c.Now())
    ensures old(c.io.core.lines.cic) ==>
              && c.io.core.lines == old(c.io.core.lines).(atn := true)
              && sent <= |cmd|
              && c.io.dev == Heard(Config(false, true), old(c.io.dev), cmd, sent)
              && c.io.core.role == Overheard(Config(false, true), old(c.io.core), cmd, sent).role
              && c.io.core.adr0 == old(c.io.core.adr0) && c.io.core.eosr == old(c.io.core.eosr)
              && c.io.core.aux == old(c.io.core.aux)
              && (rc == OK ==> sent == |cmd|)
              && (sent > 0 ==> old(c.io.dev).present)
              && (rc == ENOLISTENER ==> !old(c.io.dev).present && sent == 0)
              && (rc == OK || rc == ETIMEOUT || rc == ENOLISTENER || (rc == EINVAL && |cmd| > MAX_TRANSFER))
              && (c.io.eager && 0 < |cmd| <= MAX_TRANSFER ==> rc == if old(c.io.dev).present then OK else ENOLISTENER)
    ensures c.io.timeUs >= old(c.io.timeUs)
  {
    hide Has, Heard, Overheard, Config, Accepted;
    sent := 0;
    var cic := TntIsCic(c);
    if !cic {
      return ENOTCIC, 0;
    }
    ghost var core0 := c.io.core;
    var natn := ReadNatn(c);
    if natn {
      rc := TntTakeControl(c, false);
      if rc != OK {
        assert false;
      }
    }
    ghost var now1 := c.Now();
    rc, sent := TntTransferOut(c, cmd, false, true);
    CommandsTaken(c.Now(), now1, core0, cmd, sent);
  }

  lemma CommandsTaken(s: State, before: State, core: Core, cmd: seq<bv8>, sent: nat)
    requires Accepted(s, before, Config(false, true), cmd, sent)
    requires core.role == before.core.role && core.adr0 == before.core.adr0
    ensures sent <= |cmd| && s.dev == Heard(Config(false, true), before.dev, cmd, sent)
    ensures s.core.role == Overheard(Config(false, true), core, cmd, sent).role
    ensures var now, was := s.core, before.core;
            now.adr0 == was.adr0 && now.eosr == was.eosr && now.aux == was.aux && now.lines == was.lines
  {
    hide Heard, Overheard, Config;
    SameRole(Config(false, true), core, before.core, cmd, sent);
    OverheardFrame(Config(false, true), before.core, cmd, sent);
  }

  lemma {:induction false} SameRole(cfg: bv8, c: Core, c': Core, buf: seq<bv8>, k: nat)
    requires k <= |buf| && c.role == c'.role && c.adr0 == c'.adr0
    ensures Overheard(cfg, c, buf, k).role == Overheard(cfg, c', buf, k).role
    ensures Overheard(cfg, c, buf, k).adr0 == Overheard(cfg, c', buf, k).adr0 == c.adr0
  {
    hide Has, TakeRole;
    if k > 0 && Has(cfg, CFG_COMMAND) {
      SameRole(cfg, c, c', buf, k - 1);
    }
  }

  /** tnt_write: the listener gets a prefix of the buffer, all of it if the call succeeds, with
      EOI on the last byte of the buffer and only if asked for. */
  method TntWrite(c: TntChip, buf: seq<bv8>, eoi: bool) returns (rc: Status, sent: nat)
    requires c.Valid() && Limited(c, MayDrive(c.io.core, false))
    modifies c`isr1, c`isr2, c.io
    ensures c.Valid()
    ensures sent <= |buf| && c.io.dev == old(c.io.dev).(rx := old(c.io.dev.rx) + Logged(buf, sent, eoi))
    ensures var was, now := old(c.io.core), c.io.core; now == was.(isr1 := now.isr1, isr2 := now.isr2)
    ensures rc == OK ==> sent == |buf|
    ensures rc == EINVAL <==> |buf| > MAX_TRANSFER
    ensures buf == [] ==> rc == OK
    ensures sent > 0 ==> Hears(old(c.io.dev), false)
    ensures rc == ENOLISTENER ==> sent == 0 && !Hears(old(c.io.dev), false)
    ensures rc == OK || rc == ETIMEOUT || rc == ENOLISTENER || rc == EINVAL
    ensures c.io.eager && old(MayDrive(c.io.core, false)) && 0 < |buf| <= MAX_TRANSFER ==>
              rc == if Hears(old(c.io.dev), false) then OK else ENOLISTENER
    ensures rc == ETIMEOUT ==>
              c.io.lastPush >= old(c.io.Ms()) && (c.timeoutMs > TWO31 || c.io.Ms() - c.io.lastPush >= c.timeoutMs)
    ensures c.io.timeUs >= old(c.io.timeUs)
  {
    hide Has, Heard;
    rc, sent := TntTransferOut(c, buf, eoi, false);
    ConfigBits(eoi, false);
    HeardData(Config(eoi, false), old(c.io.dev), buf, sent);
  }
}
