/** tnt_transfer_out of src/gpib/tnt4882.c: bytes out through the FIFO, as data or as commands,
    against a bus that takes them whenever it likes. */
module TransferOut {
  import opened Words
  import opened TntRegs
  import opened ChipModel
  import opened Deadlines
  import opened Tnt4882

  // ---- What the first k bytes of a buffer do when they arrive -------------------------

  /** The instrument after the first k bytes of buf: commands acted on one by one, or data
      received, with EOI on the last byte of the buffer if CCEN is set. */
  function Heard(cfg: bv8, d: Device, buf: seq<bv8>, k: nat): Device
    requires k <= |buf|
  {
    if k == 0 then d
    else
      var d' := Heard(cfg, d, buf, k - 1);
      if Has(cfg, CFG_COMMAND) then DeviceCommand(d', buf[k - 1])
      else d'.(rx := d'.rx + [Item(buf[k - 1], k == |buf| && Has(cfg, CFG_CCEN))])
  }

  /** Our own addressing after the first k bytes of buf. */
  function Overheard(cfg: bv8, c: Core, buf: seq<bv8>, k: nat): Core
    requires k <= |buf|
  {
    if k == 0 || !Has(cfg, CFG_COMMAND) then c
    else SelfCommand(Overheard(cfg, c, buf, k - 1), buf[k - 1])
  }

  /** Data bytes as the instrument logs them. */
  function Logged(buf: seq<bv8>, k: nat, eoi: bool): seq<Item>
    requires k <= |buf|
  {
    seq(k, i requires 0 <= i < k => Item(buf[i], eoi && i + 1 == |buf|))
  }

  lemma {:induction false} HeardData(cfg: bv8, d: Device, buf: seq<bv8>, k: nat)
    requires k <= |buf| && !Has(cfg, CFG_COMMAND)
    ensures Heard(cfg, d, buf, k) == d.(rx := d.rx + Logged(buf, k, Has(cfg, CFG_CCEN)))
  {
    hide DeviceCommand, Has;
    var eoi := Has(cfg, CFG_CCEN);
    if k == 0 {
      assert d.rx + Logged(buf, 0, eoi) == d.rx;
    } else {
      HeardData(cfg, d, buf, k - 1);
      assert d.rx + Logged(buf, k - 1, eoi) + [Item(buf[k - 1], k == |buf| && eoi)] == d.rx + Logged(buf, k, eoi);
    }
  }

  lemma {:induction false} HeardCommands(cfg: bv8, d: Device, buf: seq<bv8>, k: nat)
    requires k <= |buf| && Has(cfg, CFG_COMMAND)
    ensures var d' := Heard(cfg, d, buf, k);
            d' == d.(commands := d.commands + buf[..k], mode := d'.mode)
  {
    hide React, Has;
    if k == 0 {
      assert d.commands + buf[..0] == d.commands;
    } else {
      HeardCommands(cfg, d, buf, k - 1);
      assert d.commands + buf[..k - 1] + [buf[k - 1]] == d.commands + buf[..k];
    }
  }

  lemma {:induction false} OverheardFrame(cfg: bv8, c: Core, buf: seq<bv8>, k: nat)
    requires k <= |buf|
    ensures var c' := Overheard(cfg, c, buf, k);
            c' == c.(role := c'.role)
  {
    hide TakeRole, Has;
    if k > 0 && Has(cfg, CFG_COMMAND) {
      OverheardFrame(cfg, c, buf, k - 1);
    }
  }

  // ---- The invariant of a transfer in progress ----------------------------------------

  /** The transfer engine when k of `queued` bytes have left the FIFO. */
  ghost predicate Flow(t: Turbo, cfg: bv8, buf: seq<bv8>, queued: nat, k: nat) {
    && k <= queued <= |buf|
    && t.fifo == buf[k..queued]
    && t.cnt == (if k == |buf| then 0 else TWO32 - (|buf| - k))
    && t.cnt32 && t.cfg == cfg && (t.go <==> k < |buf|)
  }

  /** Between GO and STOP: b is the chip as it was started, k bytes have been accepted and
      `queued` bytes written to the FIFO. The transfer halts only when nobody accepts the
      first byte, and then ERR is pending in the chip or already seen by the driver. */
  ghost predicate Sending(s: State, b: State, buf: seq<bv8>, queued: nat, k: nat, seen: bool) {
    var cfg := b.turbo.cfg;
    && Flow(s.turbo, cfg, buf, queued, k)
    && s.dev == Heard(cfg, b.dev, buf, k)
    && s.core == Overheard(cfg, b.core, buf, k).(isr1 := s.core.isr1, isr2 := s.core.isr2)
    && (k > 0 ==> Accepts(b.turbo, b.dev))
    && (s.turbo.halt ==> !Accepts(b.turbo, b.dev))
    && ((seen || Has(s.core.isr1, HR_ERR)) <==> s.turbo.halt)
  }

  ghost predicate Outgoing(b: State, buf: seq<bv8>) {
    !Has(b.turbo.cfg, CFG_IN) && |buf| <= MAX_TRANSFER
  }

  lemma FlowStep(t: Turbo, cfg: bv8, buf: seq<bv8>, queued: nat, k: nat)
    requires |buf| <= MAX_TRANSFER && Flow(t, cfg, buf, queued, k) && |t.fifo| > 0
    ensures Flow(Counted(t.(fifo := t.fifo[1..])), cfg, buf, queued, k + 1)
    ensures Counted(t.(fifo := t.fifo[1..])).halt == t.halt
    ensures k < |buf| && t.cfg == cfg && t.fifo[0] == buf[k] && (CountByte(t) == 0 <==> k + 1 == |buf|)
  {
    assert buf[k..queued][1..] == buf[k + 1..queued];
  }

  lemma StillAccepts(s: State, b: State, buf: seq<bv8>, queued: nat, k: nat, seen: bool)
    requires Sending(s, b, buf, queued, k, seen)
    ensures Accepts(s.turbo, s.dev) == Accepts(b.turbo, b.dev)
  {
    hide DeviceCommand, Heard, Overheard, SelfCommand, Has;
    if Has(b.turbo.cfg, CFG_COMMAND) {
      HeardCommands(b.turbo.cfg, b.dev, buf, k);
    } else {
      HeardData(b.turbo.cfg, b.dev, buf, k);
    }
  }

  lemma HeardStep(t: Turbo, cfg: bv8, d: Device, buf: seq<bv8>, k: nat)
    requires k < |buf| && t.cfg == cfg && |t.fifo| > 0 && t.fifo[0] == buf[k]
    requires CountByte(t) == 0 <==> k + 1 == |buf|
    ensures Deliver(t, Heard(cfg, d, buf, k)) == Heard(cfg, d, buf, k + 1)
  {
    hide Has, DeviceCommand, CountByte;
  }

  lemma OverheardStep(t: Turbo, cfg: bv8, c: Core, buf: seq<bv8>, k: nat, isr1: bv8, isr2: bv8)
    requires k < |buf| && t.cfg == cfg && |t.fifo| > 0 && t.fifo[0] == buf[k]
    ensures Overhear(t, Overheard(cfg, c, buf, k).(isr1 := isr1, isr2 := isr2))
         == Overheard(cfg, c, buf, k + 1).(isr1 := isr1, isr2 := isr2)
  {
    hide Has, TakeRole;
  }

  /** A byte that is accepted advances the transfer by one. */
  lemma DeliveredStep(s: State, b: State, buf: seq<bv8>, queued: nat, k: nat, seen: bool)
    requires Outgoing(b, buf) && Sending(s, b, buf, queued, k, seen)
    requires !s.turbo.halt && |s.turbo.fifo| > 0 && Accepts(s.turbo, s.dev)
    ensures var s' := State(Overhear(s.turbo, s.core), Counted(s.turbo.(fifo := s.turbo.fifo[1..])),
                            Deliver(s.turbo, s.dev));
            Sending(s', b, buf, queued, k + 1, seen)
  {
    hide Has, Flow, Counted, CountByte, Accepts, Heard, Overheard, Deliver, Overhear;
    StillAccepts(s, b, buf, queued, k, seen);
    FlowStep(s.turbo, b.turbo.cfg, buf, queued, k);
    HeardStep(s.turbo, b.turbo.cfg, b.dev, buf, k);
    OverheardStep(s.turbo, b.turbo.cfg, b.core, buf, k, s.core.isr1, s.core.isr2);
  }

  lemma SendingMove(s: State, b: State, buf: seq<bv8>, queued: nat, k: nat, seen: bool)
    returns (k': nat)
    requires Outgoing(b, buf) && Sending(s, b, buf, queued, k, seen)
    ensures Sending(Move(s), b, buf, queued, k', seen)
  {
    hide Has, Heard, Overheard, Counted, Overhear, Deliver;
    k' := k;
    if !s.turbo.halt && MaySend(s) {
      StillAccepts(s, b, buf, queued, k, seen);
      if Accepts(s.turbo, s.dev) {
        k' := k + 1;
        DeliveredStep(s, b, buf, queued, k, seen);
      } else {
        HasItself(s.core.isr1);
      }
    }
  }

  lemma SendingMoves(s: State, b: State, buf: seq<bv8>, queued: nat, k: nat, seen: bool, n: nat)
    returns (k': nat)
    requires Outgoing(b, buf) && Sending(s, b, buf, queued, k, seen)
    ensures Sending(Moves(s, n), b, buf, queued, k', seen)
    decreases n
  {
    hide Sending, Move;
    if n == 0 {
      k' := k;
    } else {
      k' := SendingMove(s, b, buf, queued, k, seen);
      k' := SendingMoves(Move(s), b, buf, queued, k', seen, n - 1);
    }
  }

  lemma SendingRun(s: State, b: State, buf: seq<bv8>, queued: nat, k: nat, seen: bool, n: nat)
    returns (k': nat)
    requires Outgoing(b, buf) && Sending(s, b, buf, queued, k, seen)
    ensures Sending(Run(s, n), b, buf, queued, k', seen)
  {
    hide Sending, Move, Moves;
    if s.turbo.go && !s.turbo.halt {
      k' := SendingMoves(s, b, buf, queued, k, seen, n);
    } else {
      k' := k;
    }
  }

  /** The bus is ours to send on. Nothing in a transfer changes that. */
  predicate Open(b: State) {
    MayDrive(b.core, IsCommand(b.turbo))
  }

  lemma StaysOpen(s: State, b: State, buf: seq<bv8>, queued: nat, k: nat, seen: bool)
    requires Sending(s, b, buf, queued, k, seen)
    ensures Open(s) == Open(b)
  {
    hide Heard, Accepts, Has;
    OverheardFrame(b.turbo.cfg, b.core, buf, k);
  }

  /** On an open bus an engine that has run dry has emptied the FIFO, or met nobody to accept. */
  lemma DrySending(s: State, b: State, buf: seq<bv8>, queued: nat, k: nat, seen: bool)
    requires Outgoing(b, buf) && Sending(s, b, buf, queued, k, seen)
    ensures Dry(s) && Open(b) && k < queued ==> s.turbo.halt
    ensures s.turbo.halt ==> seen || Has(s.core.isr1, HR_ERR)
  {
    hide Has, Heard, Overheard, Accepts, MayDrive, Deliver, Overhear, Counted;
    StaysOpen(s, b, buf, queued, k, seen);
    FifoShrinks(s);
  }

  lemma FifoShrinks(s: State)
    ensures MaySend(s) && !s.turbo.halt ==> MoveOut(s) != s
  {
    hide MayDrive, Accepts, Deliver, Overhear, CountByte;
  }

  // ---- The driver ---------------------------------------------------------------------

  function Config(eoi: bool, command: bool): bv8 {
    Flag(eoi, CFG_CCEN) | Flag(command, CFG_COMMAND)
  }

  lemma ConfigBits(eoi: bool, command: bool)
    ensures var cfg := Config(eoi, command);
            !Has(cfg, CFG_IN) && Has(cfg, CFG_CCEN) == eoi && Has(cfg, CFG_COMMAND) == command
  {
  }

  lemma StartsSending(s: State, buf: seq<bv8>, cfg: bv8)
    requires 0 < |buf| <= MAX_TRANSFER && !Has(cfg, CFG_IN)
    ensures var b := Launched(Configured(s, cfg, |buf|));
            Outgoing(b, buf) && Sending(b, b, buf, 0, 0, false)
  {
  }

  /** Everything up to GO. */
  method Launch(c: TntChip, buf: seq<bv8>, cfg: bv8) returns (ghost b: State, ghost k: nat)
    requires c.Valid() && 0 < |buf| <= MAX_TRANSFER && !Has(cfg, CFG_IN)
    modifies c`isr1, c`isr2, c.io
    ensures b == Launched(Configured(old(c.Now()), cfg, |buf|))
    ensures Outgoing(b, buf) && Sending(c.Now(), b, buf, 0, k, Has(c.isr1, HR_ERR))
    ensures c.io.timeUs >= old(c.io.timeUs)
  {
    hide Has, Moves, Sending, Outgoing, Configured;
    Configure(c, cfg, |buf|);
    StartsSending(old(c.Now()), buf, cfg);
    HasItself(c.isr1);
    c.isr1 := c.isr1 & !HR_ERR;
    b := Launched(c.Now());
    IdleAfterConfigure(old(c.Now()), cfg, |buf|);
    ghost var j, m := Cmdr(c, CMD_GO);
    k := SendingRun(b, b, buf, 0, 0, false, m);
  }

  lemma IdleAfterConfigure(s: State, cfg: bv8, n: nat)
    ensures Configured(s, cfg, n).turbo.go == s.turbo.go
  {
  }

  /** Moving the status bits from the chip to the driver loses none. */
  lemma PolledSending(s: State, b: State, buf: seq<bv8>, queued: nat, k: nat, seen: bool)
    requires Sending(s, b, buf, queued, k, seen)
    ensures Sending(s.(core := s.core.(isr1 := 0)), b, buf, queued, k, seen || Has(s.core.isr1, HR_ERR))
    ensures Sending(s.(core := s.core.(isr2 := 0)), b, buf, queued, k, seen)
    ensures s.core.aux == b.core.aux
    ensures seen || Has(s.core.isr1, HR_ERR) ==> !Accepts(b.turbo, b.dev)
  {
    hide Heard, Overheard, Accepts;
    OverheardFrame(b.turbo.cfg, b.core, buf, k);
  }

  lemma HaltedStays(s: State, n: nat)
    ensures s.turbo.halt ==> Run(s, n) == s
  {
    hide Moves;
  }

  /** poll_status while a transfer runs: ERR is seen only if nobody accepts, and always after
      the engine has met nobody. */
  method PollSending(c: TntChip, ghost b: State, buf: seq<bv8>, queued: nat, ghost k: nat)
    returns (ghost k': nat)
    requires Outgoing(b, buf) && Sending(c.Now(), b, buf, queued, k, Has(c.isr1, HR_ERR))
    requires !Has(b.core.aux.auxri, HR_SISB)
    modifies c`isr1, c`isr2, c.io`core, c.io`turbo, c.io`dev, c.io`lastPop
    ensures Sending(c.Now(), b, buf, queued, k', Has(c.isr1, HR_ERR))
    ensures Has(c.isr1, HR_ERR) ==> !Accepts(b.turbo, b.dev)
    ensures old(c.io.turbo.halt) ==> Has(c.isr1, HR_ERR)
  {
    hide Has, Both, Sending, Run, Accepts, Outgoing, AfterRead;
    ghost var s0 := c.Now();
    ghost var i, j := PollStatus(c);
    HasBoth(old(c.isr1), Run(s0, i).core.isr1, HR_ERR);
    k' := PolledStates(s0, b, buf, queued, k, old(Has(c.isr1, HR_ERR)), i, j);
  }

  /** The two register reads of poll_status as state changes. */
  lemma PolledStates(s0: State, b: State, buf: seq<bv8>, queued: nat, k: nat, seen: bool, i: nat, j: nat)
    returns (k': nat)
    requires Outgoing(b, buf) && Sending(s0, b, buf, queued, k, seen)
    requires !Has(b.core.aux.auxri, HR_SISB)
    ensures var s1 := Run(s0, i);
            var s3 := AfterRead(Run(AfterRead(s1, REG_ISR1), j), REG_ISR2);
            var seen1 := seen || Has(s1.core.isr1, HR_ERR);
            && Sending(s3, b, buf, queued, k', seen1)
            && (seen1 ==> !Accepts(b.turbo, b.dev)) && (s0.turbo.halt ==> seen1)
  {
    hide Has, Sending, Run, Accepts, Outgoing, AfterRead, Open, Dry;
    var s1 := Run(s0, i);
    HaltedStays(s0, i);
    DrySending(s0, b, buf, queued, k, seen);
    k' := SendingRun(s0, b, buf, queued, k, seen, i);
    PolledSending(s1, b, buf, queued, k', seen);
    ReadsClear(s1);
    var s2, seen1 := AfterRead(s1, REG_ISR1), seen || Has(s1.core.isr1, HR_ERR);
    k' := SendingRun(s2, b, buf, queued, k', seen1, j);
    PolledSending(Run(s2, j), b, buf, queued, k', seen1);
    ReadsClear(Run(s2, j));
  }

  /** What a read of STS2 or STS1 says about the transfer. */
  lemma StatusSending(s: State, b: State, buf: seq<bv8>, queued: nat, k: nat, seen: bool)
    requires Outgoing(b, buf) && Sending(s, b, buf, queued, k, seen)
    ensures Has(Sts2(s), BFFN) <==> |s.turbo.fifo| < FIFO_DEPTH
    ensures |s.turbo.fifo| == queued - k
    ensures Has(Sts1(s), S_DONE) <==> k == |buf|
  {
    hide Heard, Overheard, Accepts;
  }

  lemma PushedSending(s: State, b: State, buf: seq<bv8>, queued: nat, k: nat, seen: bool)
    requires Outgoing(b, buf) && Sending(s, b, buf, queued, k, seen)
    requires queued < |buf| && |s.turbo.fifo| < FIFO_DEPTH
    ensures Sending(AfterWrite(s, REG_FIFOB, buf[queued]), b, buf, queued + 1, k, seen)
  {
    hide Heard, Overheard, Accepts, Has;
    assert buf[k..queued] + [buf[queued]] == buf[k..queued + 1];
  }

  /** Reading a status register moves nothing by itself. */
  method ReadSending(c: TntChip, ghost b: State, buf: seq<bv8>, queued: nat, ghost k: nat, off: nat)
    returns (v: bv8, ghost k': nat)
    requires off == REG_STS1 || off == REG_STS2
    requires Outgoing(b, buf) && Sending(c.Now(), b, buf, queued, k, Has(c.isr1, HR_ERR))
    modifies c.io`core, c.io`turbo, c.io`dev, c.io`lastPop
    ensures Sending(c.Now(), b, buf, queued, k', Has(c.isr1, HR_ERR)) && v == Value(c.Now(), off)
    ensures c.io.eager ==> Dry(c.Now())
  {
    hide Has, Sending, Run, Outgoing;
    ghost var s0 := c.Now();
    ghost var i;
    v, i := c.io.Read8(off);
    k' := SendingRun(s0, b, buf, queued, k, Has(c.isr1, HR_ERR), i);
  }

  /** Room in the FIFO means that the byte goes in, whatever leaves meanwhile. */
  method PushSending(c: TntChip, ghost b: State, buf: seq<bv8>, queued: nat, ghost k: nat)
    returns (ghost k': nat)
    requires Outgoing(b, buf) && Sending(c.Now(), b, buf, queued, k, Has(c.isr1, HR_ERR))
    requires queued < |buf| && |c.io.turbo.fifo| < FIFO_DEPTH
    modifies c.io`core, c.io`turbo, c.io`dev, c.io`shelf, c.io`lastPush
    ensures c.io.lastPush == c.io.Ms()
    ensures Sending(c.Now(), b, buf, queued + 1, k', Has(c.isr1, HR_ERR))
  {
    hide Has, Sending, Run, AfterWrite;
    ghost var seen, s0 := Has(c.isr1, HR_ERR), c.Now();
    ghost var i := c.io.Write8(REG_FIFOB, buf[queued]);
    k' := SendingRun(s0, b, buf, queued, k, seen, i);
    DrainsOnly(s0, i);
    assert Outgoing(b, buf);
    SameConfig(s0, b, buf, queued, k, seen);
    PushedSending(Run(s0, i), b, buf, queued, k', seen);
  }

  lemma SameConfig(s: State, b: State, buf: seq<bv8>, queued: nat, k: nat, seen: bool)
    requires Sending(s, b, buf, queued, k, seen)
    ensures s.turbo.cfg == b.turbo.cfg
  {
  }

  /** The engine only shortens the FIFO of an outgoing transfer. */
  lemma {:induction false} DrainsOnly(s: State, n: nat)
    ensures !Has(s.turbo.cfg, CFG_IN) ==> |Run(s, n).turbo.fifo| <= |s.turbo.fifo|
  {
    if !Has(s.turbo.cfg, CFG_IN) {
      DrainsMoves(s, n);
    }
  }

  lemma {:induction false} DrainsMoves(s: State, n: nat)
    requires !Has(s.turbo.cfg, CFG_IN)
    ensures |Moves(s, n).turbo.fifo| <= |s.turbo.fifo|
    decreases n
  {
    hide Has, MoveOut;
    if n > 0 {
      MoveOutShape(s);
      DrainsMoves(Move(s), n - 1);
    }
  }

  /** The loop that fills the FIFO. */
  method Fill(c: TntChip, ghost b: State, buf: seq<bv8>, ghost k0: nat)
    returns (rc: Status, queued: nat, d: Deadline, ghost k: nat, ghost start: nat)
    requires Outgoing(b, buf) && Sending(c.Now(), b, buf, 0, k0, Has(c.isr1, HR_ERR))
    requires !Has(b.core.aux.auxri, HR_SISB) && Limited(c, Open(b))
    modifies c`isr1, c`isr2, c.io
    ensures Sending(c.Now(), b, buf, queued, k, Has(c.isr1, HR_ERR))
    ensures rc == OK || rc == ETIMEOUT || rc == ENOLISTENER
    ensures rc == OK ==> queued == |buf| && Watched(d, start, c.io.Ms(), c.timeoutMs)
    ensures rc == ENOLISTENER ==> !Accepts(b.turbo, b.dev)
    ensures c.io.eager && Open(b) ==> rc != ETIMEOUT
    ensures old(c.io.timeUs) <= c.io.timeUs && old(c.io.Ms()) <= start
    ensures |buf| > 0 ==> queued > 0 && start == c.io.lastPush
    ensures rc == ETIMEOUT ==> c.timeoutMs > TWO31 || c.io.Ms() - start >= c.timeoutMs
  {
    hide Has, Sending, Outgoing, Run, Accepts, Start, Wrap, Open, Dry;
    rc, queued, k := OK, 0, k0;
    d, start := DeadlineStart(c);
    while queued < |buf|
      invariant queued <= |buf| && Sending(c.Now(), b, buf, queued, k, Has(c.isr1, HR_ERR))
      invariant Watched(d, start, c.io.Ms(), c.timeoutMs)
      invariant old(c.io.timeUs) <= c.io.timeUs && old(c.io.Ms()) <= start
      invariant queued > 0 ==> start == c.io.lastPush
      decreases |buf| - queued, start + c.timeoutMs - c.io.Ms()
    {
      var v;
      v, k := ReadSending(c, b, buf, queued, k, REG_STS2);
      StatusSending(c.Now(), b, buf, queued, k, Has(c.isr1, HR_ERR));
      if Has(v, BFFN) {
        k := PushSending(c, b, buf, queued, k);
        queued := queued + 1;
        d, start := DeadlineStart(c);
        continue;
      }
      DrySending(c.Now(), b, buf, queued, k, Has(c.isr1, HR_ERR));
      k := PollSending(c, b, buf, queued, k);
      if Has(c.isr1, HR_ERR) {
        rc := ENOLISTENER;
        break;
      }
      var expired := DeadlineExpired(c, d, start);
      if expired {
        rc := ETIMEOUT;
        break;
      }
      k := YieldSending(c, b, buf, queued, k);
    }
  }

  method YieldSending(c: TntChip, ghost b: State, buf: seq<bv8>, queued: nat, ghost k: nat)
    returns (ghost k': nat)
    requires Outgoing(b, buf) && Sending(c.Now(), b, buf, queued, k, Has(c.isr1, HR_ERR))
    modifies c.io`core, c.io`turbo, c.io`dev, c.io`timeUs
    ensures Sending(c.Now(), b, buf, queued, k', Has(c.isr1, HR_ERR))
    ensures old(c.io.Ms()) < c.io.Ms() < old(c.io.Ms()) + TWO31
  {
    hide Has, Sending, Run, Outgoing;
    ghost var s0 := c.Now();
    ghost var i := c.io.Yield();
    k' := SendingRun(s0, b, buf, queued, k, Has(c.isr1, HR_ERR), i);
  }

  /** The loop that waits for DONE once everything is in the FIFO. */
  method AwaitDone(c: TntChip, ghost b: State, buf: seq<bv8>, ghost k0: nat, d: Deadline, ghost start: nat)
    returns (rc: Status, ghost k: nat)
    requires Outgoing(b, buf) && Sending(c.Now(), b, buf, |buf|, k0, Has(c.isr1, HR_ERR))
    requires !Has(b.core.aux.auxri, HR_SISB) && Limited(c, Open(b))
    requires Watched(d, start, c.io.Ms(), c.timeoutMs)
    modifies c`isr1, c`isr2, c.io
    ensures c.io.lastPush == old(c.io.lastPush)
    ensures Sending(c.Now(), b, buf, |buf|, k, Has(c.isr1, HR_ERR))
    ensures rc == OK || rc == ETIMEOUT || rc == ENOLISTENER
    ensures rc == OK ==> k == |buf|
    ensures rc == ENOLISTENER ==> !Accepts(b.turbo, b.dev)
    ensures c.io.eager && Open(b) ==> rc != ETIMEOUT
    ensures old(c.io.timeUs) <= c.io.timeUs
    ensures rc == ETIMEOUT ==> c.timeoutMs > TWO31 || c.io.Ms() - start >= c.timeoutMs
  {
    hide Has, Sending, Outgoing, Run, Accepts, Start, Wrap, Open, Dry;
    rc, k := OK, k0;
    while true
      invariant rc == OK && Sending(c.Now(), b, buf, |buf|, k, Has(c.isr1, HR_ERR))
      invariant Watched(d, start, c.io.Ms(), c.timeoutMs)
      invariant old(c.io.timeUs) <= c.io.timeUs && c.io.lastPush == old(c.io.lastPush)
      decreases start + c.timeoutMs - c.io.Ms()
    {
      var v;
      v, k := ReadSending(c, b, buf, |buf|, k, REG_STS1);
      StatusSending(c.Now(), b, buf, |buf|, k, Has(c.isr1, HR_ERR));
      if Has(v, S_DONE) {
        return;
      }
      DrySending(c.Now(), b, buf, |buf|, k, Has(c.isr1, HR_ERR));
      k := PollSending(c, b, buf, |buf|, k);
      if Has(c.isr1, HR_ERR) {
        rc := ENOLISTENER;
        return;
      }
      var expired := DeadlineExpired(c, d, start);
      if expired {
        rc := ETIMEOUT;
        return;
      }
      k := YieldSending(c, b, buf, |buf|, k);
    }
  }

  /** What stands after STOP: the counter tells the accepted bytes exactly. */
  lemma StoppedSending(s: State, b: State, buf: seq<bv8>, queued: nat, k: nat, seen: bool)
    requires Outgoing(b, buf) && |buf| > 0 && Sending(s, b, buf, queued, k, seen)
    ensures k <= |buf| && Negative(s.turbo.cnt) == |buf| - k
    ensures s.dev == Heard(b.turbo.cfg, b.dev, buf, k)
    ensures s.core == Overheard(b.turbo.cfg, b.core, buf, k).(isr1 := s.core.isr1, isr2 := s.core.isr2)
    ensures s.core.aux == b.core.aux && s.core.lines == b.core.lines
    ensures !Accepts(b.turbo, b.dev) ==> k == 0
  {
    hide Heard, Overheard, Accepts, Has;
    OverheardFrame(b.turbo.cfg, b.core, buf, k);
  }

  /** The instrument and our addressing are as the first k bytes of buf left them, and nothing
      else that the driver knows about has changed. */
  ghost predicate Accepted(s: State, before: State, cfg: bv8, buf: seq<bv8>, k: nat) {
    && k <= |buf|
    && s.dev == Heard(cfg, before.dev, buf, k)
    && s.core == Overheard(cfg, before.core, buf, k).(isr1 := s.core.isr1, isr2 := s.core.isr2)
  }

  /** STOP, and the account of what was sent. */
  method Finish(c: TntChip, ghost b: State, ghost before: State, buf: seq<bv8>, queued: nat, ghost k0: nat)
    returns (sent: nat)
    requires 0 < |buf| <= MAX_TRANSFER && Outgoing(b, buf)
    requires Sending(c.Now(), b, buf, queued, k0, Has(c.isr1, HR_ERR))
    requires b == Launched(Configured(before, b.turbo.cfg, |buf|))
    modifies c`isr1, c.io
    ensures c.io.lastPush == old(c.io.lastPush)
    ensures Accepted(c.Now(), before, b.turbo.cfg, buf, sent) && !c.io.turbo.go
    ensures c.io.core.aux == before.core.aux && c.io.core.lines == before.core.lines
    ensures sent > 0 ==> Accepts(b.turbo, b.dev)
    ensures k0 == |buf| ==> sent == |buf|
    ensures old(c.io.timeUs) <= c.io.timeUs
  {
    hide Has, Sending, Run, Outgoing, Accepts, Heard, Overheard;
    ghost var s0 := c.Now();
    ghost var m := Stop(c);
    ghost var k := SendingRun(s0, b, buf, queued, k0, Has(c.isr1, HR_ERR), m);
    NeverFewer(s0, b, buf, queued, k0, Has(c.isr1, HR_ERR), m, k);
    StoppedSending(Run(s0, m), b, buf, queued, k, Has(c.isr1, HR_ERR));
    OverheardBase(b.turbo.cfg, before.core, b.core, buf, k);
    var left := RemainingCount(c);
    if left <= |buf| {
      sent := |buf| - left;
    } else {
      assert false;   // the fallback to the bytes queued is never taken
    }
    c.isr1 := c.isr1 & !HR_ERR;
  }

  /** A transfer that is complete stays complete. */
  lemma NeverFewer(s: State, b: State, buf: seq<bv8>, queued: nat, k0: nat, seen: bool, m: nat, k: nat)
    requires Sending(s, b, buf, queued, k0, seen) && Sending(Run(s, m), b, buf, queued, k, seen)
    requires |buf| <= MAX_TRANSFER
    ensures k0 == |buf| ==> k == |buf|
  {
    hide Heard, Overheard, Accepts, Has, Moves;
  }

  lemma {:induction false} OverheardBase(cfg: bv8, c: Core, b: Core, buf: seq<bv8>, k: nat)
    requires k <= |buf| && b == c.(isr1 := b.isr1, isr2 := b.isr2)
    ensures Overheard(cfg, b, buf, k) == Overheard(cfg, c, buf, k).(isr1 := b.isr1, isr2 := b.isr2)
  {
    hide TakeRole, Has;
    if k > 0 && Has(cfg, CFG_COMMAND) {
      OverheardBase(cfg, c, b, buf, k - 1);
    }
  }

  /** The instrument takes part in the handshake: always for commands, for data if it listens. */
  predicate Hears(d: Device, command: bool) {
    d.present && (command || d.mode.listening)
  }

  /** Setting up a transfer changes neither whose bus it is nor who hears. */
  lemma OpensAlike(s: State, cfg: bv8, n: nat)
    ensures var b, command := Launched(Configured(s, cfg, n)), Has(cfg, CFG_COMMAND);
            && Open(b) == MayDrive(s.core, command) && Accepts(b.turbo, b.dev) == Hears(s.dev, command)
            && b.core.aux == s.core.aux && b.turbo.cfg == cfg
  {
    hide Has, Negative;
  }

  /** tnt_transfer_out for a count in range, by the configuration it writes. */
  method SendCounted(c: TntChip, buf: seq<bv8>, cfg: bv8) returns (rc: Status, sent: nat)
    requires c.Valid() && 0 < |buf| <= MAX_TRANSFER && !Has(cfg, CFG_IN)
    requires Limited(c, MayDrive(c.io.core, Has(cfg, CFG_COMMAND)))
    modifies c`isr1, c`isr2, c.io
    ensures c.Valid() && c.io.core.lines == old(c.io.core.lines)
    ensures Accepted(c.Now(), old(c.Now()), cfg, buf, sent)
    ensures rc == OK || rc == ETIMEOUT || rc == ENOLISTENER
    ensures rc == OK ==> sent == |buf|
    ensures sent > 0 ==> Hears(old(c.io.dev), Has(cfg, CFG_COMMAND))
    ensures rc == ENOLISTENER ==> sent == 0 && !Hears(old(c.io.dev), Has(cfg, CFG_COMMAND))
    ensures rc == ETIMEOUT ==>
              c.io.lastPush >= old(c.io.Ms()) && (c.timeoutMs > TWO31 || c.io.Ms() - c.io.lastPush >= c.timeoutMs)
    ensures c.io.eager && old(MayDrive(c.io.core, Has(cfg, CFG_COMMAND))) ==> rc != ETIMEOUT
    ensures old(c.io.timeUs) <= c.io.timeUs
  {
    hide Has, Sending, Outgoing, Open, Accepts, MayDrive, Hears, Selector, Launched, Configured, Accepted;
    OpensAlike(c.Now(), cfg, |buf|);
    ghost var b, k := Launch(c, buf, cfg);
    var queued, d;
    ghost var start;
    rc, queued, d, k, start := Fill(c, b, buf, k);
    if rc == OK {
      rc, k := AwaitDone(c, b, buf, k, d, start);
    }
    sent := Finish(c, b, old(c.Now()), buf, queued, k);
    AcceptedBound(c.Now(), old(c.Now()), cfg, buf, sent);
  }

  lemma AcceptedBound(s: State, before: State, cfg: bv8, buf: seq<bv8>, k: nat)
    requires Accepted(s, before, cfg, buf, k)
    ensures k <= |buf|
  {
  }

  lemma NothingAccepted(s: State, cfg: bv8, buf: seq<bv8>)
    ensures Accepted(s, s, cfg, buf, 0)
  {
  }

  /** tnt_transfer_out: `sent` is exactly what the bus accepted, whatever the outcome. Where the
      engine always goes as far as it can and the bus is ours, the outcome depends on the
      instrument alone, whatever the timeout. */
  method TntTransferOut(c: TntChip, buf: seq<bv8>, eoi: bool, command: bool) returns (rc: Status, sent: nat)
    requires c.Valid() && Limited(c, MayDrive(c.io.core, command))
    modifies c`isr1, c`isr2, c.io
    ensures c.Valid() && c.io.core.lines == old(c.io.core.lines)
    ensures buf == [] ==> rc == OK && sent == 0 && c.Now() == old(c.Now())
    ensures |buf| > MAX_TRANSFER ==> rc == EINVAL && sent == 0 && c.Now() == old(c.Now())
    ensures Accepted(c.Now(), old(c.Now()), Config(eoi, command), buf, sent)
    ensures rc == OK ==> sent == |buf|
    ensures sent > 0 ==> Hears(old(c.io.dev), command)
    ensures rc == ENOLISTENER ==> sent == 0 && !Hears(old(c.io.dev), command)
    ensures rc == OK || rc == ETIMEOUT || rc == ENOLISTENER || (rc == EINVAL && |buf| > MAX_TRANSFER)
    ensures rc == ETIMEOUT ==>
              c.io.lastPush >= old(c.io.Ms()) && (c.timeoutMs > TWO31 || c.io.Ms() - c.io.lastPush >= c.timeoutMs)
    ensures c.io.eager && old(MayDrive(c.io.core, command)) && 0 < |buf| <= MAX_TRANSFER ==>
              rc == if Hears(old(c.io.dev), command) then OK else ENOLISTENER
    ensures old(c.io.timeUs) <= c.io.timeUs
  {
    hide Has, MayDrive, Hears, TntChip.Valid, Accepted, Config;
    sent := 0;
    NothingAccepted(c.Now(), Config(eoi, command), buf);
    if |buf| == 0 {
      return OK, 0;
    }
    if |buf| > MAX_TRANSFER {
      return EINVAL, 0;
    }
    ConfigBits(eoi, command);
    rc, sent := SendCounted(c, buf, Config(eoi, command));
  }
}
