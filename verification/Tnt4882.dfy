/** The chip driver of src/gpib/tnt4882.c: the register helpers, the shadows of the write-only
    hidden registers, reset and set-up, and the control of ATN. Transfers are in TransferOut
    and TransferIn. */
module Tnt4882 {
  import opened Words
  import opened TntRegs
  import opened ChipModel
  import opened Deadlines

  class TntChip {
    const io: SimTnt
    var pad: bv8
    var sad: int
    var auxra: bv8
    var auxrb: bv8
    var auxrg: bv8
    var auxri: bv8
    var isr1: bv8      // status bits seen and not yet consumed
    var isr2: bv8
    var timeoutMs: u32
    var t1Ns: nat

    /** tnt_bind */
    constructor (io: SimTnt)
      ensures this.io == io && pad == 0 && sad == -1 && isr1 == 0 && isr2 == 0
      ensures auxra == AUX_AUXRA | HR_HLDA && auxrb == AUX_AUXRB && auxrg == AUX_AUXRG && auxri == AUX_AUXRI
      ensures timeoutMs == 10000 && t1Ns == 2000
    {
      this.io, pad, sad := io, 0, -1;
      auxra, auxrb, auxrg, auxri := AUX_AUXRA | HR_HLDA, AUX_AUXRB, AUX_AUXRG, AUX_AUXRI;
      isr1, isr2, timeoutMs, t1Ns := 0, 0, 10000, 2000;
    }

    ghost function Now(): State
      reads this, io
    {
      io.Now()
    }

    /** The shadows are the chip's hidden registers, each with its own selector. */
    ghost predicate Shadows()
      reads this, io
    {
      var c := io.core.aux;
      && c.auxra == auxra && c.auxrb == auxrb && c.auxrg == auxrg && c.auxri == auxri
      && Selector(auxra) == AUX_AUXRA && Selector(auxrb) == AUX_AUXRB
      && auxrg == AUX_AUXRG && Selector(auxri) == AUX_AUXRI
    }

    /** Between driver calls on an initialised chip: the shadows hold, reading a status
        register clears it, and no transfer is running. */
    ghost predicate Valid()
      reads this, io
    {
      Shadows() && !Has(auxri, HR_SISB) && !io.turbo.go
    }
  }

  // ---- Register helpers ---------------------------------------------------------------

  method Auxmr(c: TntChip, v: bv8)
    modifies c.io`core, c.io`turbo, c.io`dev, c.io`shelf, c.io`timeUs, c.io`lastPush
    ensures c.io.lastPush == old(c.io.lastPush)
    ensures exists j: nat, k: nat :: c.Now() == Hidden(Run(Run(old(c.Now()), j), k), v)
    ensures c.io.shelf == Shelved(old(c.io.shelf), REG_AUXMR, v)
    ensures c.io.timeUs == old(c.io.timeUs) + 1
  {
    hide Hidden, Shelved, Moves;
    ghost var j := c.io.DelayUs(1);
    ghost var k := c.io.Write8(REG_AUXMR, v);
    assert c.Now() == Hidden(Run(Run(old(c.Now()), j), k), v);
  }

  /** The same between transfers, when nothing else moves. */
  method AuxmrIdle(c: TntChip, v: bv8)
    requires !c.io.turbo.go
    modifies c.io`core, c.io`turbo, c.io`dev, c.io`shelf, c.io`timeUs, c.io`lastPush
    ensures c.io.lastPush == old(c.io.lastPush)
    ensures c.Now() == Hidden(old(c.Now()), v) && c.io.shelf == Shelved(old(c.io.shelf), REG_AUXMR, v)
    ensures c.io.timeUs == old(c.io.timeUs) + 1
  {
    hide Hidden, Shelved, Moves;
    Auxmr(c, v);
  }

  /** Registers that the chip stores and this model's behaviour never consults. */
  predicate IsStored(off: nat) {
    off == REG_HSSEL || off == REG_ACCWR || off == REG_AUXCR || off == REG_KEYREG || off == REG_IMR0 ||
    off == REG_IMR1 || off == REG_IMR2 || off == REG_IMR3 || off == REG_SPMR || off == REG_ADMR
  }

  method WriteStored(c: TntChip, off: nat, v: bv8)
    requires !c.io.turbo.go && IsStored(off)
    modifies c.io`core, c.io`turbo, c.io`dev, c.io`shelf, c.io`lastPush
    ensures c.io.lastPush == old(c.io.lastPush)
    ensures c.Now() == old(c.Now()) && c.io.shelf == Shelved(old(c.io.shelf), off, v)
  {
    hide Moves, Shelved;
    ghost var k := c.io.Write8(off, v);
  }

  method ReadIdle(c: TntChip, off: nat) returns (v: bv8)
    requires !c.io.turbo.go
    modifies c.io`core, c.io`turbo, c.io`dev, c.io`lastPop
    ensures v == ReadValue(old(c.Now()), c.io.shelf, off) && c.Now() == AfterRead(old(c.Now()), off)
  {
    hide Moves, ReadValue, AfterRead;
    ghost var k;
    v, k := c.io.Read8(off);
  }

  method Cmdr(c: TntChip, v: bv8) returns (ghost j: nat, ghost k: nat)
    modifies c.io`core, c.io`turbo, c.io`dev, c.io`shelf, c.io`timeUs, c.io`lastPush
    ensures c.io.lastPush == old(c.io.lastPush)
    ensures c.Now() == Run(Commanded(Run(old(c.Now()), j), v), k)
    ensures c.io.shelf == Shelved(old(c.io.shelf), REG_CMDR, v)
    ensures c.io.timeUs == old(c.io.timeUs) + 1
  {
    j := c.io.Write8(REG_CMDR, v);
    k := c.io.DelayUs(1);
  }

  method PollStatus(c: TntChip) returns (ghost j: nat, ghost k: nat)
    modifies c`isr1, c`isr2, c.io`core, c.io`turbo, c.io`dev, c.io`lastPop
    ensures var s := Run(old(c.Now()), j);
            var s' := Run(AfterRead(s, REG_ISR1), k);
            && c.isr1 == Both(old(c.isr1), s.core.isr1) && c.isr2 == Both(old(c.isr2), s'.core.isr2)
            && c.Now() == AfterRead(s', REG_ISR2)
            && (c.io.eager ==> Dry(s))
    ensures c.io.lastPop == old(c.io.lastPop)
  {
    var v;
    v, j := c.io.Read8(REG_ISR1);
    c.isr1 := Both(c.isr1, v);
    v, k := c.io.Read8(REG_ISR2);
    c.isr2 := Both(c.isr2, v);
  }

  // ---- The transfer counter -----------------------------------------------------------

  /** The counter counts up to zero, so it is loaded with the count negated. */
  function Negative(n: nat): u32 {
    if n % TWO32 == 0 then 0 else TWO32 - n % TWO32
  }

  lemma CountsAreNotShelved(r: Shelf)
    ensures forall v :: Shelved(r, REG_CNT0, v) == r && Shelved(r, REG_CNT1, v) == r
    ensures forall v :: Shelved(r, REG_CNT2, v) == r && Shelved(r, REG_CNT3, v) == r
  {
  }

  /** set_count */
  method LoadCount(c: TntChip, n: nat)
    requires !c.io.turbo.go
    modifies c.io`core, c.io`turbo, c.io`dev, c.io`shelf, c.io`lastPush
    ensures c.io.lastPush == old(c.io.lastPush)
    ensures c.io.shelf == old(c.io.shelf)
    ensures c.Now() == old(c.Now()).(turbo := old(c.io.turbo).(cnt := Negative(n), cnt32 := true))
  {
    hide WithByte, ByteOf, Move, Negative, Shelved;
    var v := Negative(n);
    CountsAreNotShelved(c.io.shelf);
    FourBytes(c.io.turbo.cnt, v);
    ghost var k := c.io.Write8(REG_CNT0, Byte(v));
    k := c.io.Write8(REG_CNT1, Byte(v / 0x100));
    k := c.io.Write8(REG_CNT2, Byte(v / 0x1_0000));
    k := c.io.Write8(REG_CNT3, Byte(v / 0x100_0000));
  }

  /** remaining_count: what is left of the count that was loaded. */
  method RemainingCount(c: TntChip) returns (left: u32)
    requires !c.io.turbo.go
    modifies c.io`core, c.io`turbo, c.io`dev, c.io`lastPop
    ensures left == Negative(c.io.turbo.cnt) && c.Now() == old(c.Now())
  {
    hide Move, ByteOf, FromBytes, Negative;
    var b0, b1, b2, b3;
    ghost var k;
    b0, k := c.io.Read8(REG_CNT0);
    b1, k := c.io.Read8(REG_CNT1);
    b2, k := c.io.Read8(REG_CNT2);
    b3, k := c.io.Read8(REG_CNT3);
    ghost var cnt := c.io.turbo.cnt;
    Bytes(cnt);
    left := Negative(FromBytes(b3 as int, b2 as int, b1 as int, b0 as int));
  }

  // ---- Deadlines ----------------------------------------------------------------------

  method DeadlineStart(c: TntChip) returns (d: Deadline, ghost start: nat)
    ensures start == c.io.Ms() && d == Start(c.io.Ms(), c.timeoutMs)
    ensures Watched(d, start, c.io.Ms(), c.timeoutMs)
  {
    start := c.io.Ms();
    var now := c.io.NowMs();
    d := Deadline(Wrap(now + c.timeoutMs), c.timeoutMs != 0);
  }

  /** deadline_expired. Without a timeout it never fires; else it fires no earlier than the
      timeout, and a timeout of more than 2^31 ms is over at the first check. */
  method DeadlineExpired(c: TntChip, d: Deadline, ghost start: nat) returns (expired: bool)
    requires Watched(d, start, c.io.Ms(), c.timeoutMs)
    ensures expired <==> c.timeoutMs != 0 && (c.timeoutMs > TWO31 || c.io.Ms() - start >= c.timeoutMs)
  {
    hide Wrap;
    if c.timeoutMs != 0 {
      CheckArmed(d, start, c.io.Ms(), c.timeoutMs);
    }
    var now := c.io.NowMs();
    expired := Expired(now, d);
  }

  /** No partner can keep the call waiting for ever: waiting is limited, or the engine runs dry
      at every access and the partner answers. */
  ghost predicate Limited(c: TntChip, answers: bool)
    reads c, c.io
  {
    c.timeoutMs != 0 || (c.io.eager && answers)
  }

  // ---- Starting a transfer ------------------------------------------------------------

  /** FIFO emptied, direction set, counter loaded, status consumed. */
  function Configured(s: State, cfg: bv8, n: nat): State {
    State(s.core.(isr1 := 0, isr2 := 0),
          s.turbo.(cfg := cfg, cnt := Negative(n), cnt32 := true, fifo := []), s.dev)
  }

  /** What both transfers do before GO. */
  method Configure(c: TntChip, cfg: bv8, n: nat)
    requires c.Valid()
    modifies c`isr1, c`isr2, c.io
    ensures c.Now() == Configured(old(c.Now()), cfg, n)
    ensures c.isr1 == Both(old(c.isr1), old(c.io.core.isr1)) && c.isr2 == Both(old(c.isr2), old(c.io.core.isr2))
    ensures c.io.timeUs >= old(c.io.timeUs)
  {
    hide Moves, Negative, Has;
    ghost var j, m := Cmdr(c, CMD_RESET_FIFO);
    assert c.Now() == old(c.Now()).(turbo := old(c.io.turbo).(fifo := []));
    j := c.io.Write8(REG_CFG, cfg);
    LoadCount(c, n);
    j, m := PollStatus(c);
  }

  /** GO: the engine may move bytes from here on. */
  function Launched(s: State): State {
    s.(turbo := s.turbo.(go := true, halt := false, stop := false, gsync := false))
  }

  /** STOP: nothing moves any more, and the counter stands. */
  method Stop(c: TntChip) returns (ghost k: nat)
    modifies c.io`core, c.io`turbo, c.io`dev, c.io`shelf, c.io`timeUs, c.io`lastPush
    ensures c.io.lastPush == old(c.io.lastPush)
    ensures var t := c.io.turbo;
            && c.Now() == Run(old(c.Now()), k).(turbo := t)
            && t == Run(old(c.Now()), k).turbo.(stop := true, halt := true, go := false, gsync := true)
    ensures c.io.timeUs >= old(c.io.timeUs)
  {
    hide Moves;
    ghost var m;
    k, m := Cmdr(c, CMD_STOP);
  }
}
