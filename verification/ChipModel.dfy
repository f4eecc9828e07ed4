/** The TNT4882C in one-chip mode with one instrument on the bus, after the behavioural
    simulator tests/host/sim_tnt4882.c. The state is a value; the class SimTnt keeps it and
    the register accesses change it in place.

    The simulator moves bytes between FIFO and bus as far as it can at every register read.
    Here the number of bytes moved before each access is chosen by an adversary, so what holds
    here holds for the simulator's schedule and for every slower bus; `eager` stands for an
    engine that always goes as far as it can. */
module ChipModel {
  import opened Words
  import opened TntRegs

  /** A byte on the bus with its EOI line. */
  datatype Item = Item(b: bv8, eoi: bool)

  /** What command bytes do to an instrument, apart from being logged. */
  datatype Mode = Mode(
    listening: bool, talking: bool, spe: bool, speSent: bool,
    cleared: nat, triggered: nat, local: bool, lockout: bool)

  datatype Device = Device(
    present: bool, pad: bv8, stb: bv8, srq: bool,
    rx: seq<Item>, tx: seq<Item>, txPos: nat,
    commands: seq<bv8>, mode: Mode)

  /** The hidden registers behind AUXMR. */
  datatype AuxRegs = AuxRegs(auxra: bv8, auxrb: bv8, auxrg: bv8, auxri: bv8)

  /** System controller, controller in charge, and the bus lines that we drive. */
  datatype Lines = Lines(sc: bool, cic: bool, atn: bool, ren: bool, ifc: bool)

  /** Our own addressing. */
  datatype Role = Role(talker: bool, listener: bool)

  /** The 7210 core. */
  datatype Core = Core(
    isr1: bv8, isr2: bv8, adr0: bv8, eosr: bv8,
    aux: AuxRegs, lines: Lines, role: Role,
    holdoff: bool, sasr: bv8)

  /** The Turbo488 side: FIFO, transfer counter and transfer state. */
  datatype Turbo = Turbo(
    cfg: bv8, cnt: u32, cnt32: bool, fifo: seq<bv8>,
    go: bool, stop: bool, halt: bool, gsync: bool, isr0: bv8)

  datatype State = State(core: Core, turbo: Turbo, dev: Device)

  /** Registers that are stored and that nothing else in the chip consults. */
  datatype Shelf = Shelf(
    imr0: bv8, imr1: bv8, imr2: bv8, imr3: bv8, spmr: bv8, admr: bv8, adr1: bv8, cptr: bv8,
    accwr: bv8, intrt: bv8, hssel: bv8, keyreg: bv8, ccr: bv8, timer: bv8,
    ppr: bv8, auxre: bv8, icr: bv8, pon: bool)

  predicate Has(v: bv8, mask: bv8) {
    v & mask != 0
  }

  /** Status bits accumulate. */
  function Both(a: bv8, b: bv8): bv8 { a | b }

  lemma HasBoth(a: bv8, b: bv8, mask: bv8)
    ensures Has(Both(a, b), mask) == (Has(a, mask) || Has(b, mask))
  {
  }

  lemma HasItself(a: bv8)
    ensures Has(a | HR_ERR, HR_ERR) && Has(a | HR_END, HR_END)
    ensures !Has(a & !HR_ERR, HR_ERR) && !Has(a & !HR_END, HR_END)
  {
  }

  // ---- Resets ------------------------------------------------------------------------

  function CoreReset(c: Core): Core {
    Core(0, 0, 0, 0, AuxRegs(0, 0, 0, 0), c.lines.(cic := false, atn := false), Role(false, false), false, 0)
  }

  /** The counter starts in 16-bit mode at -1. */
  function TurboReset(): Turbo {
    Turbo(0, TWO32 - 1, false, [], false, true, true, true, ISR0_SYNC)
  }

  function InterfaceClear(s: State): State {
    s.(dev := s.dev.(mode := s.dev.mode.(listening := false, talking := false, spe := false, speSent := false)),
       core := s.core.(role := Role(false, false), lines := s.core.lines.(cic := true, atn := true)))
  }

  // ---- What a command byte does to the instrument and to us --------------------------

  function React(m: Mode, pad: bv8, b: bv8): Mode {
    if b == UNL then m.(listening := false)
    else if b == UNT then m.(talking := false)
    else if IsLad(b) then if Addr(b) == pad then m.(listening := true) else m
    else if IsTad(b) then
      var talking := Addr(b) == pad;
      m.(talking := talking, speSent := if talking && m.spe then false else m.speSent)
    else if b == SPE then m.(spe := true)
    else if b == SPD then m.(spe := false, speSent := false)
    else if b == DCL then m.(cleared := m.cleared + 1)
    else if b == SDC && m.listening then m.(cleared := m.cleared + 1)
    else if b == GET && m.listening then m.(triggered := m.triggered + 1)
    else if b == GTL && m.listening then m.(local := true)
    else if b == LLO then m.(lockout := true)
    else m
  }

  function DeviceCommand(d: Device, b: bv8): Device {
    d.(commands := d.commands + [b], mode := React(d.mode, d.pad, b))
  }

  function TakeRole(r: Role, mypad: bv8, b: bv8): Role {
    if b == UNL then r.(listener := false)
    else if b == UNT then r.(talker := false)
    else if IsLad(b) then if Addr(b) == mypad then r.(listener := true) else r
    else if IsTad(b) then r.(talker := Addr(b) == mypad)
    else r
  }

  function SelfCommand(c: Core, b: bv8): Core {
    c.(role := TakeRole(c.role, Addr(c.adr0), b))
  }

  // ---- The engine: one byte at a time ------------------------------------------------

  function CountByte(t: Turbo): u32 {
    if t.cnt32 then Wrap(t.cnt + 1)
    else
      var low := (t.cnt + 1) % 0x1_0000;
      if low >= 0x8000 then low + 0xFFFF_0000 else low
  }

  /** Count a byte; the transfer ends when the counter reaches zero. */
  function Counted(t: Turbo): Turbo {
    var cnt := CountByte(t);
    if cnt == 0 then t.(cnt := cnt, stop := true, gsync := true, go := false) else t.(cnt := cnt)
  }

  /** Nobody accepts the byte: the bus error is flagged and the transfer halts. */
  function Refused(s: State): State {
    s.(core := s.core.(isr1 := s.core.isr1 | HR_ERR), turbo := s.turbo.(halt := true))
  }

  predicate IsCommand(t: Turbo) {
    Has(t.cfg, CFG_COMMAND)
  }

  /** Commands need us in charge with ATN asserted, data needs us talking with ATN released. */
  predicate MayDrive(c: Core, command: bool) {
    if command then c.lines.cic && c.lines.atn else c.role.talker && !c.lines.atn
  }

  predicate MaySend(s: State) {
    |s.turbo.fifo| > 0 && MayDrive(s.core, IsCommand(s.turbo))
  }

  /** Every device takes part in a command handshake, only a listener in a data handshake. */
  predicate Accepts(t: Turbo, d: Device) {
    d.present && (IsCommand(t) || d.mode.listening)
  }

  /** The byte at the head of the FIFO as the instrument gets it: EOI goes with the byte that
      completes the count, if asked for. */
  function Deliver(t: Turbo, d: Device): Device
    requires |t.fifo| > 0
  {
    if IsCommand(t) then DeviceCommand(d, t.fifo[0])
    else d.(rx := d.rx + [Item(t.fifo[0], CountByte(t) == 0 && Has(t.cfg, CFG_CCEN))])
  }

  function Overhear(t: Turbo, c: Core): Core
    requires |t.fifo| > 0
  {
    if IsCommand(t) then SelfCommand(c, t.fifo[0]) else c
  }

  function MoveOut(s: State): State {
    if !MaySend(s) then s
    else if !Accepts(s.turbo, s.dev) then Refused(s)
    else
      State(Overhear(s.turbo, s.core), Counted(s.turbo.(fifo := s.turbo.fifo[1..])), Deliver(s.turbo, s.dev))
  }

  predicate EosMatch(c: Core, b: bv8) {
    && Has(c.aux.auxra, HR_REOS)
    && (if Has(c.aux.auxra, HR_BIN) then b == c.eosr else b & 0x7F == c.eosr & 0x7F)
  }

  /** The byte ends a message: it came with EOI, or it matches the EOS character. */
  predicate Ends(c: Core, i: Item) {
    i.eoi || EosMatch(c, i.b)
  }

  /** What the instrument still has to send, once addressed to talk. In serial-poll mode that
      is its status byte, once per addressing, and its data stays where it is. */
  function Offer(d: Device): seq<Item> {
    if d.mode.spe then if d.mode.speSent then [] else [Item(d.stb, false)]
    else if d.txPos <= |d.tx| then d.tx[d.txPos..] else []
  }

  function TakeOffer(d: Device): Device {
    if d.mode.spe then d.(mode := d.mode.(speSent := true)) else d.(txPos := d.txPos + 1)
  }

  /** The core after a byte came in: END with its holdoff, the holdoff on all data, and the
      holdoff that closes a counted transfer. */
  function Received(c: Core, i: Item, closing: bool): Core {
    var mode := c.aux.auxra & (HR_HLDA | HR_HLDE);
    var c1 := if !Ends(c, i) then c
              else if mode == HR_HLDE then c.(isr1 := c.isr1 | HR_END, holdoff := true, sasr := AEHS)
              else c.(isr1 := c.isr1 | HR_END);
    var c2 := if mode == HR_HLDA then c1.(holdoff := true, sasr := ANHS1) else c1;
    if closing then c2.(holdoff := true, sasr := ANHS1) else c2
  }

  function CountedIn(t: Turbo): Turbo {
    var cnt := CountByte(t);
    if cnt == 0 then t.(cnt := cnt, stop := true, go := false) else t.(cnt := cnt)
  }

  predicate MayReceive(s: State) {
    && !s.core.holdoff && |s.turbo.fifo| < FIFO_DEPTH
    && s.core.role.listener && !s.core.lines.atn
    && s.dev.present && s.dev.mode.talking
    && Offer(s.dev) != []
  }

  function MoveIn(s: State): State {
    if !MayReceive(s) then s
    else
      var i := Offer(s.dev)[0];
      var pushed := s.turbo.(fifo := s.turbo.fifo + [i.b]);
      var closing := CountByte(s.turbo) == 0 && Has(s.turbo.cfg, CFG_CCEN);
      State(Received(s.core, i, closing), CountedIn(pushed), TakeOffer(s.dev))
  }

  /** One turn of the engine's loop: at most one byte moves. */
  function Move(s: State): State {
    if s.turbo.halt then s
    else if Has(s.turbo.cfg, CFG_IN) then MoveIn(s)
    else MoveOut(s)
  }

  function Moves(s: State, k: nat): State
    decreases k
  {
    if k == 0 then s else Moves(Move(s), k - 1)
  }

  /** The engine entered once, left after at most k bytes. */
  function Run(s: State, k: nat): State {
    if !s.turbo.go || s.turbo.halt then s else Moves(s, k)
  }

  /** Nothing more can move until an access changes something. */
  predicate Dry(s: State) {
    !s.turbo.go || s.turbo.halt || Move(s) == s
  }

  // ---- Register accesses -------------------------------------------------------------

  /** An auxiliary command. */
  function Auxiliary(s: State, v: bv8): State {
    var c, l := s.core, s.core.lines;
    if v == AUX_CR then s.(core := CoreReset(c))
    else if v == AUX_FH then s.(core := c.(holdoff := false, sasr := 0))
    else if v == AUX_GTS then if l.cic then s.(core := c.(lines := l.(atn := false))) else s
    else if v == AUX_TCA || v == AUX_TCS then if l.cic then s.(core := c.(lines := l.(atn := true))) else s
    else if v == AUX_DSC then s.(core := c.(lines := l.(sc := false)))
    else if v == AUX_CIFC then s.(core := c.(lines := l.(ifc := false)))
    else if v == AUX_CREN then if l.sc then s.(core := c.(lines := l.(ren := false))) else s
    else if v == AUX_SIFC then
      if l.sc then InterfaceClear(s.(core := c.(lines := l.(ifc := true)))) else s
    else if v == AUX_SREN then if l.sc then s.(core := c.(lines := l.(ren := true))) else s
    else s
  }

  /** A write to AUXMR: the top three bits select an auxiliary command or a hidden register. */
  function Hidden(s: State, v: bv8): State {
    var c := s.core;
    var sel := Selector(v);
    if sel == 0x00 then Auxiliary(s, v)
    else if sel == AUX_AUXRG then
      if v == AUX_HLDI then s.(core := c.(holdoff := true, sasr := ANHS2))
      else if v == AUX_PAGEIN || v == AUX_CLEAR_END then s
      else s.(core := c.(aux := c.aux.(auxrg := v)))
    else if sel == AUX_AUXRA then s.(core := c.(aux := c.aux.(auxra := v)))
    else if sel == AUX_AUXRB then s.(core := c.(aux := c.aux.(auxrb := v)))
    else if sel == AUX_AUXRI then s.(core := c.(aux := c.aux.(auxri := v)))
    else s
  }

  function Commanded(s: State, v: bv8): State {
    var t := s.turbo;
    if v == CMD_SOFT_RESET then s.(turbo := TurboReset())
    else if v == CMD_RESET_FIFO then s.(turbo := t.(fifo := []))
    else if v == CMD_GO then s.(turbo := t.(go := true, halt := false, stop := false, gsync := false))
    else if v == CMD_STOP then s.(turbo := t.(stop := true, halt := true, go := false, gsync := true))
    else if v == CMD_SETSC then s.(core := s.core.(lines := s.core.lines.(sc := true)))
    else if v == CMD_CLRSC then s.(core := s.core.(lines := s.core.lines.(sc := false)))
    else s
  }

  function SetCount(t: Turbo, off: nat, v: bv8): Turbo {
    if off == REG_CNT0 then t.(cnt := WithByte(t.cnt, 0, v as int))
    else if off == REG_CNT1 then t.(cnt := WithByte(t.cnt, 1, v as int))
    else if off == REG_CNT2 then t.(cnt := WithByte(t.cnt, 2, v as int), cnt32 := true)
    else t.(cnt := WithByte(t.cnt, 3, v as int), cnt32 := true)
  }

  /** Writes to registers that are stored and never consulted leave this state as it is. */
  function AfterWrite(s: State, off: nat, v: bv8): State {
    if off == REG_AUXMR then Hidden(s, v)
    else if off == REG_ADR then if Has(v, HR_ARS) then s else s.(core := s.core.(adr0 := v))
    else if off == REG_EOSR then s.(core := s.core.(eosr := v))
    else if off == REG_CNT0 || off == REG_CNT1 || off == REG_CNT2 || off == REG_CNT3 then
      s.(turbo := SetCount(s.turbo, off, v))
    else if off == REG_CFG then s.(turbo := s.turbo.(cfg := v))
    else if off == REG_FIFOB then
      if |s.turbo.fifo| < FIFO_DEPTH then s.(turbo := s.turbo.(fifo := s.turbo.fifo + [v])) else s
    else if off == REG_CMDR then Commanded(s, v)
    else s
  }

  predicate Done(s: State) {
    var t := s.turbo;
    if Has(t.cfg, CFG_IN) then !t.go && |t.fifo| == 0 else !t.go || (t.cnt == 0 && |t.fifo| == 0)
  }

  function Flag(on: bool, mask: bv8): bv8 {
    if on then mask else 0
  }

  function Sts1(s: State): bv8 {
    var t := s.turbo;
    Flag(Done(s), S_DONE) | Flag(s.core.lines.sc, S_SC) | Flag(Has(t.cfg, CFG_IN), S_IN) |
    Flag(t.stop, S_STOP) | Flag(t.halt, S_HALT) | Flag(t.gsync, S_GSYNC)
  }

  function Sts2(s: State): bv8 {
    0x90 | Flag(|s.turbo.fifo| < FIFO_DEPTH, AFFN | BFFN) | Flag(|s.turbo.fifo| > 0, AEFN | BEFN)
  }

  function Isr3(s: State): bv8 {
    Flag(Done(s), ISR3_DONE) | Flag(|s.turbo.fifo| > 0, ISR3_NEF) |
    Flag(|s.turbo.fifo| < FIFO_DEPTH, ISR3_NFF) | Flag(s.turbo.stop, ISR3_STOP)
  }

  function Adsr(c: Core): bv8 {
    Flag(c.lines.cic, HR_CIC) | Flag(!c.lines.atn, HR_NATN) |
    Flag(c.role.talker, HR_TA) | Flag(c.role.listener, HR_LA)
  }

  function Bsr(s: State): bv8 {
    Flag(s.core.lines.atn, BSR_ATN) | Flag(s.core.lines.ren, BSR_REN) | Flag(s.core.lines.ifc, BSR_IFC) |
    Flag(s.dev.srq, BSR_SRQ) | Flag(s.core.holdoff, BSR_NRFD)
  }

  /** What a write does to the stored registers. */
  function Shelved(r: Shelf, off: nat, v: bv8): Shelf {
    if off == REG_IMR1 then r.(imr1 := v)
    else if off == REG_IMR2 then r.(imr2 := v)
    else if off == REG_SPMR then r.(spmr := v)
    else if off == REG_ADMR then r.(admr := v)
    else if off == REG_AUXMR then
      if v == AUX_PON then r.(pon := false)
      else if v == AUX_CR then
        r.(imr1 := 0, imr2 := 0, spmr := 0, admr := 0, adr1 := 0, auxre := 0, ppr := 0, pon := true)
      else if Selector(v) == AUX_ICR then r.(icr := v)
      else if Selector(v) == AUX_PPR then r.(ppr := v)
      else if Selector(v) == AUX_AUXRE then r.(auxre := v)
      else r
    else if off == REG_ADR then if Has(v, HR_ARS) then r.(adr1 := v) else r
    else if off == REG_ACCWR then r.(accwr := v)
    else if off == REG_INTRT then r.(intrt := v)
    else if off == REG_HSSEL then r.(hssel := v)
    else if off == REG_IMR3 then r.(imr3 := v)
    else if off == REG_KEYREG then r.(keyreg := v)
    else if off == REG_CCR then r.(ccr := v)
    else if off == REG_CMDR then if v == CMD_SOFT_RESET then r.(hssel := 0, imr3 := 0) else r
    else if off == REG_IMR0 then r.(imr0 := v)
    else if off == REG_TIMER then r.(timer := v)
    else r
  }

  /** What a read returns: a stored register, or a view of the state. */
  function ReadValue(s: State, r: Shelf, off: nat): bv8 {
    if off == REG_DIR then 0
    else if off == REG_SPSR then r.spmr
    else if off == REG_CPTR then r.cptr
    else if off == REG_ADR0 then s.core.adr0
    else if off == REG_ADR1 then r.adr1
    else Value(s, off)
  }

  /** The registers that show the state. */
  function Value(s: State, off: nat): bv8 {
    if off == REG_ISR1 then s.core.isr1
    else if off == REG_ISR2 then s.core.isr2
    else if off == REG_ADSR then Adsr(s.core)
    else if off == REG_CNT0 then Byte(s.turbo.cnt)
    else if off == REG_CNT1 then Byte(s.turbo.cnt / 0x100)
    else if off == REG_CNT2 then Byte(s.turbo.cnt / 0x1_0000)
    else if off == REG_CNT3 then Byte(s.turbo.cnt / 0x100_0000)
    else if off == REG_STS1 then Sts1(s)
    else if off == REG_CSR then CSR_VERSION_TNT4882
    else if off == REG_FIFOB then if |s.turbo.fifo| == 0 then 0xFF else s.turbo.fifo[0]
    else if off == REG_ISR3 then Isr3(s)
    else if off == REG_SASR then if s.core.holdoff then s.core.sasr else 0
    else if off == REG_STS2 then Sts2(s)
    else if off == REG_ISR0 then s.turbo.isr0
    else if off == REG_BSR then Bsr(s)
    else 0xFF
  }

  /** What a read changes: the status registers clear unless SISB is set, the FIFO advances. */
  function AfterRead(s: State, off: nat): State {
    if off == REG_ISR1 then if Has(s.core.aux.auxri, HR_SISB) then s else s.(core := s.core.(isr1 := 0))
    else if off == REG_ISR2 then if Has(s.core.aux.auxri, HR_SISB) then s else s.(core := s.core.(isr2 := 0))
    else if off == REG_FIFOB then
      if |s.turbo.fifo| == 0 then s else s.(turbo := s.turbo.(fifo := s.turbo.fifo[1..]))
    else if off == REG_ISR0 then s.(turbo := s.turbo.(isr0 := 0))
    else s
  }

  lemma ReadsClear(s: State)
    requires !Has(s.core.aux.auxri, HR_SISB)
    ensures AfterRead(s, REG_ISR1) == s.(core := s.core.(isr1 := 0))
    ensures AfterRead(s, REG_ISR2) == s.(core := s.core.(isr2 := 0))
  {
  }

  lemma MovesAddsOne(s: State, k: nat)
    ensures Moves(s, k + 1) == Move(Moves(s, k))
    decreases k
  {
    if k > 0 {
      MovesAddsOne(Move(s), k - 1);
    }
  }

  lemma DryStays(s: State, k: nat)
    requires Dry(s)
    ensures Run(s, k) == s
    decreases k
  {
    if k > 0 && Move(s) == s && s.turbo.go && !s.turbo.halt {
      DryStays(s, k - 1);
    }
  }

  /** How many bytes the engine can still move before it must stop. */
  function Movable(s: State): nat {
    if Has(s.turbo.cfg, CFG_IN) then if |s.turbo.fifo| < FIFO_DEPTH then FIFO_DEPTH - |s.turbo.fifo| else 0
    else |s.turbo.fifo| + if s.turbo.halt then 0 else 1
  }

  /** A move either changes nothing or brings the engine nearer to a stop. */
  lemma MoveMakesProgress(s: State)
    ensures Move(s) == s || Movable(Move(s)) < Movable(s)
  {
    if Has(s.turbo.cfg, CFG_IN) {
      MoveInShape(s);
    } else {
      MoveOutShape(s);
    }
  }

  lemma MoveInShape(s: State)
    ensures var t := MoveIn(s).turbo;
            MoveIn(s) == s || (|s.turbo.fifo| < FIFO_DEPTH && |t.fifo| == |s.turbo.fifo| + 1 && t.cfg == s.turbo.cfg)
  {
    hide Received, Offer, TakeOffer, Has;
  }

  lemma MoveOutShape(s: State)
    ensures var t := MoveOut(s).turbo;
            || MoveOut(s) == s
            || (t.cfg == s.turbo.cfg && t.halt == s.turbo.halt && |t.fifo| + 1 == |s.turbo.fifo|)
            || (t.cfg == s.turbo.cfg && t.halt && t.fifo == s.turbo.fifo)
  {
    hide Deliver, Overhear, Accepts, IsCommand, Has;
  }

  class SimTnt {
    var core: Core
    var turbo: Turbo
    var dev: Device
    var shelf: Shelf
    var timeUs: nat     // time since some start, never wrapping; the driver sees it mod 2^32 ms
    ghost var lastPop: nat    // when a byte was last read out of the FIFO, in ms
    ghost var lastPush: nat   // when a byte was last written into it
    const eager: bool   // the engine runs dry at every access, as in the simulator

    constructor (core: Core, turbo: Turbo, dev: Device, shelf: Shelf, eager: bool)
      ensures Now() == State(core, turbo, dev) && this.shelf == shelf && timeUs == 0 && this.eager == eager
    {
      this.core, this.turbo, this.dev, this.shelf, this.timeUs, this.eager := core, turbo, dev, shelf, 0, eager;
    }

    /** sim_reset: reset values everywhere, and an absent instrument at address 5. */
    constructor Reset(eager: bool)
      ensures core == Core(0, 0, 0, 0, AuxRegs(0, 0, 0, 0), Lines(false, false, false, false, false),
                           Role(false, false), false, 0)
      ensures turbo == TurboReset()
      ensures dev == Device(false, 5, 0, false, [], [], 0, [], Mode(false, false, false, false, 0, 0, false, false))
      ensures shelf == Shelf(IMR0_ALWAYS, 0, 0, 0, 0, 0, 0, 0, 0, 0, 0, 0, 0, 0, 0, 0, 0, true)
      ensures timeUs == 0 && this.eager == eager
    {
      core := CoreReset(Core(0, 0, 0, 0, AuxRegs(0, 0, 0, 0), Lines(false, false, false, false, false),
                             Role(false, false), false, 0));
      turbo := TurboReset();
      dev := Device(false, 5, 0, false, [], [], 0, [], Mode(false, false, false, false, 0, 0, false, false));
      shelf := Shelf(IMR0_ALWAYS, 0, 0, 0, 0, 0, 0, 0, 0, 0, 0, 0, 0, 0, 0, 0, 0, true);
      timeUs, this.eager := 0, eager;
    }

    ghost function Now(): State
      reads this
    {
      State(core, turbo, dev)
    }

    ghost function Ms(): nat
      reads this
    {
      timeUs / 1000
    }

    /** The engine of the simulator, left after as many bytes as the schedule allows. */
    method Engine() returns (ghost k: nat)
      modifies this`core, this`turbo, this`dev
      ensures Now() == Run(old(Now()), k)
      ensures eager ==> Dry(Now())
    {
      k := 0;
      if !turbo.go || turbo.halt {
        return;
      }
      var limit: nat := *;
      var moved := true;
      while moved && (eager || limit > 0)
        invariant Now() == Moves(old(Now()), k)
        invariant !moved ==> Move(Now()) == Now()
        decreases Movable(Now()), if moved then 1 else 0
      {
        var s := State(core, turbo, dev);
        MoveMakesProgress(s);
        var s' := Move(s);
        MovesAddsOne(old(Now()), k);
        moved := s' != s;
        core, turbo, dev := s'.core, s'.turbo, s'.dev;
        k := k + 1;
        limit := if limit > 0 then limit - 1 else 0;
      }
    }

    method Read8(off: nat) returns (v: bv8, ghost k: nat)
      modifies this`core, this`turbo, this`dev, this`lastPop
      ensures var s := Run(old(Now()), k);
              && v == ReadValue(s, shelf, off) && Now() == AfterRead(s, off)
              && lastPop == (if off == REG_FIFOB && |s.turbo.fifo| > 0 then Ms() else old(lastPop))
              && (eager ==> Dry(s))
    {
      k := Engine();
      var s := State(core, turbo, dev);
      v := ReadValue(s, shelf, off);
      lastPop := if off == REG_FIFOB && |turbo.fifo| > 0 then Ms() else lastPop;
      var s' := AfterRead(s, off);
      core, turbo, dev := s'.core, s'.turbo, s'.dev;
    }

    method Write8(off: nat, v: bv8) returns (ghost k: nat)
      modifies this`core, this`turbo, this`dev, this`shelf, this`lastPush
      ensures Now() == AfterWrite(Run(old(Now()), k), off, v) && shelf == Shelved(old(shelf), off, v)
      ensures lastPush == if off == REG_FIFOB then Ms() else old(lastPush)
    {
      shelf, lastPush := Shelved(shelf, off, v), if off == REG_FIFOB then Ms() else lastPush;
      k := Engine();
      var s' := AfterWrite(State(core, turbo, dev), off, v);
      core, turbo, dev := s'.core, s'.turbo, s'.dev;
    }

    method DelayUs(us: nat) returns (ghost k: nat)
      modifies this`core, this`turbo, this`dev, this`timeUs
      ensures Now() == Run(old(Now()), k) && timeUs == old(timeUs) + us
    {
      timeUs := timeUs + us;
      k := Engine();
    }

    method NowMs() returns (ms: u32)
      ensures ms == Wrap(Ms())
    {
      ms := Wrap(timeUs / 1000);
    }

    /** Other threads run; at least a millisecond passes, and less than 2^31 of them. */
    method Yield() returns (ghost k: nat)
      modifies this`core, this`turbo, this`dev, this`timeUs
      ensures Now() == Run(old(Now()), k)
      ensures old(Ms()) < Ms() < old(Ms()) + TWO31
    {
      var ms: nat := *;
      timeUs := timeUs + 1000 * (1 + ms % (TWO31 - 1));
      k := Engine();
    }
  }
}
