/** tnt_read of src/gpib/tnt4882.c: bytes in through the FIFO, from a talker that sends
    whenever it likes, up to a count or to the byte that ends the message. */
module TransferIn {
  import opened Words
  import opened TntRegs
  import opened ChipModel
  import opened Deadlines
  import opened Tnt4882

  function BytesOf(items: seq<Item>): seq<bv8> {
    seq(|items|, i requires 0 <= i < |items| => items[i].b)
  }

  /** The talker after j of the bytes it had to offer. */
  function Taken(d: Device, j: nat): Device {
    if j == 0 then d else TakeOffer(Taken(d, j - 1))
  }

  lemma {:induction false} TakenOffer(d: Device, j: nat)
    requires j <= |Offer(d)|
    ensures Offer(Taken(d, j)) == Offer(d)[j..]
    ensures var d' := Taken(d, j); d' == d.(txPos := d'.txPos, mode := d'.mode)
    ensures Taken(d, j).mode == d.mode.(speSent := Taken(d, j).mode.speSent)
    ensures d.mode.spe ==> Taken(d, j).txPos == d.txPos
    ensures !d.mode.spe ==> Taken(d, j).txPos == d.txPos + j && Taken(d, j).mode == d.mode
  {
    if j > 0 {
      TakenOffer(d, j - 1);
    }
  }

  /** The chip set up to receive: END holds the talker off, and so does the last counted byte. */
  ghost predicate Incoming(b: State, cap: nat) {
    && 0 < cap <= MAX_TRANSFER
    && Has(b.turbo.cfg, CFG_IN) && Has(b.turbo.cfg, CFG_CCEN)
    && b.core.aux.auxra & (HR_HLDA | HR_HLDE) == HR_HLDE
  }

  /** After j bytes the talker is held off for good: the count is complete or a message ended. */
  predicate Closed(b: State, cap: nat, j: nat)
    requires j <= |Offer(b.dev)|
  {
    j == cap || EndedAt(b, j)
  }

  predicate EndedAt(b: State, j: nat)
    requires j <= |Offer(b.dev)|
  {
    j > 0 && Ends(b.core, Offer(b.dev)[j - 1])
  }

  /** The transfer engine when n of j received bytes have been read out of the FIFO. */
  ghost predicate Flow(t: Turbo, cfg: bv8, offer: seq<Item>, cap: nat, n: nat, j: nat) {
    && n <= j <= cap && j <= |offer|
    && t.fifo == BytesOf(offer[n..j])
    && t.cnt == (if j == cap then 0 else TWO32 - (cap - j))
    && t.cnt32 && t.cfg == cfg && (t.go <==> j < cap) && !t.halt
  }

  /** The instrument is addressed to talk, we to listen, and ATN lets data through. */
  predicate MayTalk(c: Core, d: Device) {
    c.role.listener && !c.lines.atn && d.present && d.mode.talking
  }

  /** Between GO and STOP: b is the chip as it was started, j bytes have been taken from the
      talker and n of them read by the driver. */
  ghost predicate Receiving(s: State, b: State, cap: nat, n: nat, j: nat, seen: bool) {
    var offer := Offer(b.dev);
    && Flow(s.turbo, b.turbo.cfg, offer, cap, n, j)
    && s.dev == Taken(b.dev, j)
    && (j > 0 ==> MayTalk(b.core, b.dev))
    && (forall i :: 0 <= i && i + 1 < j ==> !Ends(b.core, offer[i]))
    && (s.core.holdoff <==> Closed(b, cap, j))
    && ((seen || Has(s.core.isr1, HR_END)) <==> EndedAt(b, j))
    && s.core == b.core.(isr1 := s.core.isr1, isr2 := s.core.isr2,
                         holdoff := s.core.holdoff, sasr := s.core.sasr)
  }

  /** The talker has what a read of cap bytes waits for: that many bytes, or the end of a message. */
  ghost predicate Enough(core: Core, offer: seq<Item>, cap: nat) {
    cap <= |offer| || exists i :: 0 <= i < |offer| && Ends(core, offer[i])
  }

  ghost predicate Answers(core: Core, dev: Device, cap: nat) {
    MayTalk(core, dev) && Enough(core, Offer(dev), cap)
  }

  lemma FlowStep(t: Turbo, cfg: bv8, offer: seq<Item>, cap: nat, n: nat, j: nat)
    requires 0 < cap <= MAX_TRANSFER && Flow(t, cfg, offer, cap, n, j) && j < cap && j < |offer|
    ensures Flow(CountedIn(t.(fifo := t.fifo + [offer[j].b])), cfg, offer, cap, n, j + 1)
    ensures t.cfg == cfg && (CountByte(t) == 0 <==> j + 1 == cap)
  {
    assert BytesOf(offer[n..j]) + [offer[j].b] == BytesOf(offer[n..j + 1]);
  }

  lemma ReceivedStep(c: Core, i: Item, closing: bool)
    requires c.aux.auxra & (HR_HLDA | HR_HLDE) == HR_HLDE && !c.holdoff
    ensures var c' := Received(c, i, closing);
            && (c'.holdoff <==> closing || Ends(c, i))
            && (Has(c'.isr1, HR_END) <==> Has(c.isr1, HR_END) || Ends(c, i))
            && c' == c.(isr1 := c'.isr1, holdoff := c'.holdoff, sasr := c'.sasr)
  {
    hide Ends;
    HasItself(c.isr1);
  }

  lemma SameEnds(c: Core, c': Core, i: Item)
    requires SameEnding(c, c')
    ensures Ends(c, i) == Ends(c', i)
  {
    var a, a' := c.aux.auxra, c'.aux.auxra;
    assert Has(a, HR_REOS) == Has(a', HR_REOS) && Has(a, HR_BIN) == Has(a', HR_BIN);
  }

  lemma ReceivingMove(s: State, b: State, cap: nat, n: nat, j: nat, seen: bool) returns (j': nat)
    requires Incoming(b, cap) && Receiving(s, b, cap, n, j, seen)
    ensures j <= j' && Receiving(Move(s), b, cap, n, j', seen)
    ensures Closed(b, cap, j) ==> j' == j
  {
    hide Has, Received, CountedIn, CountByte, Offer, TakeOffer, EosMatch;
    j' := j;
    if MayReceive(s) {
      TakenOffer(b.dev, j);
      j' := j + 1;
      var offer := Offer(b.dev);
      assert Offer(s.dev)[0] == offer[j];
      FlowStep(s.turbo, b.turbo.cfg, offer, cap, n, j);
      SameEnds(s.core, b.core, offer[j]);
      ReceivedStep(s.core, offer[j], j + 1 == cap);
    }
  }

  lemma ReceivingMoves(s: State, b: State, cap: nat, n: nat, j: nat, seen: bool, m: nat) returns (j': nat)
    requires Incoming(b, cap) && Receiving(s, b, cap, n, j, seen)
    ensures j <= j' <= |Offer(b.dev)| && Receiving(Moves(s, m), b, cap, n, j', seen)
    ensures j <= |Offer(b.dev)| && (Closed(b, cap, j) ==> j' == j)
    decreases m
  {
    hide Move, Closed, Ends, Incoming;
    if m == 0 {
      j' := j;
    } else {
      j' := ReceivingMove(s, b, cap, n, j, seen);
      j' := ReceivingMoves(Move(s), b, cap, n, j', seen, m - 1);
    }
  }

  lemma ReceivingRun(s: State, b: State, cap: nat, n: nat, j: nat, seen: bool, m: nat) returns (j': nat)
    requires Incoming(b, cap) && Receiving(s, b, cap, n, j, seen)
    ensures j <= j' <= |Offer(b.dev)| && Receiving(Run(s, m), b, cap, n, j', seen)
    ensures j <= |Offer(b.dev)| && (Closed(b, cap, j) ==> j' == j)
  {
    hide Move, Moves, Closed, Ends, Incoming;
    if s.turbo.go && !s.turbo.halt {
      j' := ReceivingMoves(s, b, cap, n, j, seen, m);
    } else {
      j' := j;
    }
  }

  // ---- The driver ---------------------------------------------------------------------

  function WithMode(auxra: bv8, mode: bv8): bv8 {
    (auxra & !(HR_HLDA | HR_HLDE)) | mode
  }

  lemma WithModeBits(auxra: bv8, mode: bv8)
    requires Selector(auxra) == AUX_AUXRA && mode & !(HR_HLDA | HR_HLDE) == 0
    ensures var v := WithMode(auxra, mode);
            && Selector(v) == AUX_AUXRA
            && v & (HR_HLDA | HR_HLDE) == mode
            && v & (HR_REOS | HR_BIN) == auxra & (HR_REOS | HR_BIN)
            && WithMode(v, HR_HLDE) == WithMode(auxra, HR_HLDE)
  {
  }

  /** A value with the AUXRA selector reaches AUXRA and nothing else. */
  lemma HiddenAuxra(s: State, v: bv8)
    requires Selector(v) == AUX_AUXRA
    ensures Hidden(s, v) == s.(core := s.core.(aux := s.core.aux.(auxra := v)))
  {
  }

  lemma HiddenFinish(s: State)
    ensures Hidden(s, AUX_FH) == s.(core := s.core.(holdoff := false, sasr := 0))
    ensures Hidden(s, AUX_HLDI) == s.(core := s.core.(holdoff := true, sasr := ANHS2))
  {
  }

  /** set_handshake_mode */
  method SetHandshakeMode(c: TntChip, mode: bv8)
    requires c.Valid() && (mode == HR_HLDA || mode == HR_HLDE)
    modifies c`auxra, c.io
    ensures c.Valid() && c.auxra == WithMode(old(c.auxra), mode)
    ensures var s := old(c.Now());
            c.Now() == s.(core := s.core.(aux := s.core.aux.(auxra := c.auxra)))
    ensures c.io.timeUs >= old(c.io.timeUs)
  {
    hide Hidden, WithMode, Moves, Has;
    WithModeBits(c.auxra, mode);
    c.auxra := WithMode(c.auxra, mode);
    HiddenAuxra(c.Now(), c.auxra);
    AuxmrIdle(c, c.auxra);
  }

  method FinishHandshake(c: TntChip)
    requires c.Valid()
    modifies c.io
    ensures c.Valid()
    ensures var s := old(c.Now()); c.Now() == s.(core := s.core.(holdoff := false, sasr := 0))
    ensures c.io.timeUs >= old(c.io.timeUs)
  {
    hide Hidden, Moves, Has;
    HiddenFinish(c.Now());
    AuxmrIdle(c, AUX_FH);
  }

  /** release_holdoff: whichever way the chip was held off, it is released and left to hold off
      on END only. */
  method ReleaseHoldoff(c: TntChip)
    requires c.Valid()
    modifies c`auxra, c.io
    ensures c.Valid() && c.auxra == WithMode(old(c.auxra), HR_HLDE)
    ensures var s := old(c.Now());
            c.Now() == s.(core := s.core.(aux := s.core.aux.(auxra := c.auxra), holdoff := false, sasr := 0))
    ensures c.io.timeUs >= old(c.io.timeUs)
  {
    hide Moves, Value, WithMode, Has;
    var sasr;
    ghost var k;
    sasr, k := c.io.Read8(REG_SASR);
    if Has(sasr, AEHS) {
      SetHandshakeMode(c, HR_HLDE);
      FinishHandshake(c);
    } else if Has(sasr, ANHS1) {
      WithModeBits(c.auxra, HR_HLDA);
      SetHandshakeMode(c, HR_HLDA);
      FinishHandshake(c);
      SetHandshakeMode(c, HR_HLDE);
    } else {
      SetHandshakeMode(c, HR_HLDE);
      FinishHandshake(c);
    }
  }

  // ---- Register accesses while a transfer runs ------------------------------------------

  /** Moving the status bits from the chip to the driver loses none. */
  lemma PolledReceiving(s: State, b: State, cap: nat, n: nat, j: nat, seen: bool)
    requires Receiving(s, b, cap, n, j, seen)
    ensures Receiving(s.(core := s.core.(isr1 := 0)), b, cap, n, j, seen || Has(s.core.isr1, HR_END))
    ensures Receiving(s.(core := s.core.(isr2 := 0)), b, cap, n, j, seen)
    ensures s.core.aux == b.core.aux && j <= |Offer(b.dev)|
    ensures seen || Has(s.core.isr1, HR_END) <==> EndedAt(b, j)
  {
    hide Flow, Taken, Ends;
    assert j <= |Offer(b.dev)| by { FlowBound(s.turbo, b.turbo.cfg, Offer(b.dev), cap, n, j); }
  }

  lemma FlowBound(t: Turbo, cfg: bv8, offer: seq<Item>, cap: nat, n: nat, j: nat)
    requires Flow(t, cfg, offer, cap, n, j)
    ensures n <= j <= |offer| && j <= cap && |t.fifo| == j - n && t.cfg == cfg
    ensures n < j ==> t.fifo[0] == offer[n].b
  {
  }

  /** Clearing status bits does not set a dry engine going. */
  lemma PolledDry(s: State)
    requires Dry(s) && Has(s.turbo.cfg, CFG_IN)
    ensures Dry(s.(core := s.core.(isr1 := 0))) && Dry(s.(core := s.core.(isr2 := 0)))
  {
    hide Received, TakeOffer, Offer, CountByte, Has;
    if s.turbo.go && !s.turbo.halt {
      DryMeansClosed(s);
    }
  }

  lemma DryMeansClosed(s: State)
    requires Dry(s) && Has(s.turbo.cfg, CFG_IN) && s.turbo.go && !s.turbo.halt
    ensures !MayReceive(s)
  {
    MoveInGrows(s);
  }

  /** When a talker that has enough to say has fallen silent, its message has ended. */
  lemma DryReceiving(s: State, b: State, cap: nat, n: nat, j: nat, seen: bool)
    requires Incoming(b, cap) && Receiving(s, b, cap, n, j, seen)
    ensures j <= |Offer(b.dev)|
    ensures Dry(s) && |s.turbo.fifo| == 0 && n < cap && Answers(b.core, b.dev, cap) ==> EndedAt(b, j)
  {
    hide Offer, Ends, Has, TakeOffer;
    if Dry(s) && |s.turbo.fifo| == 0 && n < cap && Answers(b.core, b.dev, cap) {
      DryMeansClosed(s);
      TakenOffer(b.dev, j);
    }
  }

  lemma MoveInGrows(s: State)
    ensures MayReceive(s) ==> |MoveIn(s).turbo.fifo| == |s.turbo.fifo| + 1
  {
    hide Received, TakeOffer, Offer, CountByte, Has;
  }

  /** A status register read while a transfer runs. */
  method ReadReceiving(c: TntChip, ghost b: State, cap: nat, n: nat, ghost j: nat, off: nat)
    returns (v: bv8, ghost j': nat)
    requires off == REG_STS2
    requires Incoming(b, cap) && Receiving(c.Now(), b, cap, n, j, Has(c.isr1, HR_END))
    modifies c.io`core, c.io`turbo, c.io`dev, c.io`lastPop
    ensures c.io.lastPop == old(c.io.lastPop)
    ensures j <= j' <= |Offer(b.dev)| && Receiving(c.Now(), b, cap, n, j', Has(c.isr1, HR_END))
    ensures v == Value(c.Now(), off) && (c.io.eager ==> Dry(c.Now()))
    ensures Closed(b, cap, j) ==> j' == j
  {
    hide Has, Receiving, Incoming, Run, Ends;
    ghost var s0 := c.Now();
    ghost var i;
    v, i := c.io.Read8(off);
    j' := ReceivingRun(s0, b, cap, n, j, Has(c.isr1, HR_END), i);
  }

  lemma PoppedReceiving(s: State, b: State, cap: nat, n: nat, j: nat, seen: bool)
    requires Receiving(s, b, cap, n, j, seen) && n < j
    ensures Receiving(AfterRead(s, REG_FIFOB), b, cap, n + 1, j, seen)
    ensures j <= |Offer(b.dev)| && Value(s, REG_FIFOB) == Offer(b.dev)[n].b && |s.turbo.fifo| > 0
  {
    hide Ends, Taken, Has;
    var offer := Offer(b.dev);
    assert BytesOf(offer[n..j])[1..] == BytesOf(offer[n + 1..j]);
  }

  /** Reading the FIFO when a byte is waiting gives the next byte of the talker. */
  method PopReceiving(c: TntChip, ghost b: State, cap: nat, n: nat, ghost j: nat)
    returns (v: bv8, ghost j': nat)
    requires Incoming(b, cap) && Receiving(c.Now(), b, cap, n, j, Has(c.isr1, HR_END)) && n < j
    modifies c.io`core, c.io`turbo, c.io`dev, c.io`lastPop
    ensures c.io.lastPop == c.io.Ms()
    ensures j <= j' <= |Offer(b.dev)| && Receiving(c.Now(), b, cap, n + 1, j', Has(c.isr1, HR_END))
    ensures v == Offer(b.dev)[n].b
    ensures Closed(b, cap, j) ==> j' == j
  {
    hide Has, Receiving, Incoming, Run, Ends;
    ghost var s0 := c.Now();
    ghost var i;
    v, i := c.io.Read8(REG_FIFOB);
    j' := ReceivingRun(s0, b, cap, n, j, Has(c.isr1, HR_END), i);
    PoppedReceiving(Run(s0, i), b, cap, n, j', Has(c.isr1, HR_END));
  }

  lemma StatusReceiving(s: State, b: State, cap: nat, n: nat, j: nat, seen: bool)
    requires Receiving(s, b, cap, n, j, seen)
    ensures Has(Sts2(s), BEFN) <==> n < j
    ensures n <= j <= cap
    ensures j == n ==> |s.turbo.fifo| == 0
  {
    hide Ends, Taken;
  }

  /** poll_status while a transfer runs: END is seen only if a message has ended, and always if
      it has. */
  method PollReceiving(c: TntChip, ghost b: State, cap: nat, n: nat, ghost j: nat)
    returns (ghost j': nat)
    requires Incoming(b, cap) && Receiving(c.Now(), b, cap, n, j, Has(c.isr1, HR_END))
    requires !Has(b.core.aux.auxri, HR_SISB)
    modifies c`isr1, c`isr2, c.io`core, c.io`turbo, c.io`dev, c.io`lastPop
    ensures c.io.lastPop == old(c.io.lastPop)
    ensures j <= j' <= |Offer(b.dev)| && Receiving(c.Now(), b, cap, n, j', Has(c.isr1, HR_END))
    ensures Has(c.isr1, HR_END) ==> EndedAt(b, j')
    ensures Closed(b, cap, j) ==> j' == j && (EndedAt(b, j) ==> Has(c.isr1, HR_END))
    ensures c.io.eager && old(Dry(c.Now())) ==> Dry(c.Now()) && c.io.turbo == old(c.io.turbo)
  {
    hide Has, Both, Receiving, Incoming, Run, Ends, Dry, EndedAt, Closed, Offer, AfterRead;
    ghost var s0 := c.Now();
    ghost var i, k := PollStatus(c);
    HasBoth(old(c.isr1), Run(s0, i).core.isr1, HR_END);
    j' := PolledStates(s0, b, cap, n, j, old(Has(c.isr1, HR_END)), i, k);
  }

  /** The two register reads of poll_status as state changes. */
  lemma PolledStates(s0: State, b: State, cap: nat, n: nat, j: nat, seen: bool, i: nat, k: nat) returns (j': nat)
    requires Incoming(b, cap) && Receiving(s0, b, cap, n, j, seen)
    requires !Has(b.core.aux.auxri, HR_SISB)
    ensures var s1 := Run(s0, i);
            var s3 := AfterRead(Run(AfterRead(s1, REG_ISR1), k), REG_ISR2);
            var seen1 := seen || Has(s1.core.isr1, HR_END);
            && j <= j' <= |Offer(b.dev)| && Receiving(s3, b, cap, n, j', seen1)
            && (seen1 ==> EndedAt(b, j'))
            && (Closed(b, cap, j) ==> j' == j && (EndedAt(b, j) ==> seen1))
            && (Dry(s0) ==> Dry(s3) && s3.turbo == s0.turbo)
  {
    hide Has, Receiving, Incoming, Run, Ends, Dry, EndedAt, Closed, Offer, AfterRead;
    var s1 := Run(s0, i);
    var j1 := ReceivingRun(s0, b, cap, n, j, seen, i);
    PolledReceiving(s1, b, cap, n, j1, seen);
    ReadsClear(s1);
    var s2, seen1 := AfterRead(s1, REG_ISR1), seen || Has(s1.core.isr1, HR_END);
    j' := ReceivingRun(s2, b, cap, n, j1, seen1, k);
    PolledReceiving(Run(s2, k), b, cap, n, j', seen1);
    ReadsClear(Run(s2, k));
    if Dry(s0) {
      ConfigReceiving(s0, b, cap, n, j, seen);
      PollDry(s0, i, k);
    }
  }

  lemma PollDry(s: State, i: nat, k: nat)
    requires Dry(s) && Has(s.turbo.cfg, CFG_IN)
    ensures var s2 := Run(s, i).(core := Run(s, i).core.(isr1 := 0));
            var s3 := Run(s2, k).(core := Run(s2, k).core.(isr2 := 0));
            && Dry(s3) && s3.turbo == s.turbo
  {
    hide Run, Dry, Has;
    DryStays(s, i);
    PolledDry(s);
    var s2 := s.(core := s.core.(isr1 := 0));
    DryStays(s2, k);
    PolledDry(s2);
  }

  lemma ConfigReceiving(s: State, b: State, cap: nat, n: nat, j: nat, seen: bool)
    requires Incoming(b, cap) && Receiving(s, b, cap, n, j, seen)
    ensures Has(s.turbo.cfg, CFG_IN)
  {
  }

  method YieldReceiving(c: TntChip, ghost b: State, cap: nat, n: nat, ghost j: nat)
    returns (ghost j': nat)
    requires Incoming(b, cap) && Receiving(c.Now(), b, cap, n, j, Has(c.isr1, HR_END))
    modifies c.io`core, c.io`turbo, c.io`dev, c.io`timeUs
    ensures j <= j' <= |Offer(b.dev)| && Receiving(c.Now(), b, cap, n, j', Has(c.isr1, HR_END))
    ensures old(c.io.Ms()) < c.io.Ms() < old(c.io.Ms()) + TWO31
  {
    hide Has, Receiving, Incoming, Run, Ends;
    ghost var s0 := c.Now();
    ghost var i := c.io.Yield();
    j' := ReceivingRun(s0, b, cap, n, j, Has(c.isr1, HR_END), i);
  }

  /** The buffer is as it was from n on. */
  ghost predicate SameFrom(now: seq<bv8>, was: seq<bv8>, n: nat) {
    |now| == |was| && n <= |now| && forall i :: n <= i < |now| ==> now[i] == was[i]
  }

  lemma SameFromTwice(now: seq<bv8>, mid: seq<bv8>, was: seq<bv8>, n: nat, m: nat)
    requires SameFrom(mid, was, n) && SameFrom(now, mid, m) && n <= m
    ensures SameFrom(now, was, m)
  {
  }

  /** drain_fifo: everything that is there, up to cap. */
  method DrainFifo(c: TntChip, ghost b: State, buf: array<bv8>, n0: nat, cap: nat, ghost j0: nat)
    returns (n: nat, ghost j: nat)
    requires Incoming(b, cap) && Receiving(c.Now(), b, cap, n0, j0, Has(c.isr1, HR_END))
    requires n0 <= j0 <= |Offer(b.dev)| && j0 <= cap <= buf.Length
    requires buf[..n0] == BytesOf(Offer(b.dev)[..n0])
    modifies buf, c.io`core, c.io`turbo, c.io`dev, c.io`lastPop
    ensures c.io.lastPop == if n > n0 then c.io.Ms() else old(c.io.lastPop)
    ensures n0 <= n == j <= cap && j0 <= j <= |Offer(b.dev)|
    ensures Receiving(c.Now(), b, cap, n, j, Has(c.isr1, HR_END))
    ensures buf[..n] == BytesOf(Offer(b.dev)[..n]) && SameFrom(buf[..], old(buf[..]), n)
    ensures Closed(b, cap, j0) ==> j == j0
    ensures c.io.eager && n < cap ==> Dry(c.Now()) && |c.io.turbo.fifo| == 0
  {
    hide Has, Receiving, Incoming, Ends, Offer, Dry;
    n, j := n0, j0;
    while n < cap
      invariant c.io.lastPop == if n > n0 then c.io.Ms() else old(c.io.lastPop)
      invariant n0 <= n <= j <= cap && j0 <= j <= |Offer(b.dev)|
      invariant Receiving(c.Now(), b, cap, n, j, Has(c.isr1, HR_END))
      invariant buf[..n] == BytesOf(Offer(b.dev)[..n]) && SameFrom(buf[..], old(buf[..]), n)
      invariant Closed(b, cap, j0) ==> j == j0
    {
      var v;
      v, j := ReadReceiving(c, b, cap, n, j, REG_STS2);
      StatusReceiving(c.Now(), b, cap, n, j, Has(c.isr1, HR_END));
      if !Has(v, BEFN) {
        break;
      }
      v, j := PopReceiving(c, b, cap, n, j);
      buf[n] := v;
      n := n + 1;
      StatusReceiving(c.Now(), b, cap, n, j, Has(c.isr1, HR_END));
      assert BytesOf(Offer(b.dev)[..n]) == BytesOf(Offer(b.dev)[..n - 1]) + [Offer(b.dev)[n - 1].b];
    }
  }

  // ---- tnt_read -----------------------------------------------------------------------

  lemma StartsReceiving(s: State, cap: nat)
    requires 0 < cap <= MAX_TRANSFER && !s.core.holdoff
    requires s.core.aux.auxra & (HR_HLDA | HR_HLDE) == HR_HLDE
    ensures var b := Launched(Configured(s, CFG_IN | CFG_CCEN, cap));
            Incoming(b, cap) && Receiving(b, b, cap, 0, 0, false)
  {
    hide Ends;
    assert Has(CFG_IN | CFG_CCEN, CFG_IN) && Has(CFG_IN | CFG_CCEN, CFG_CCEN);
    assert BytesOf(Offer(s.dev)[0..0]) == [];
  }

  /** Everything up to GO. */
  method Launch(c: TntChip, cap: nat) returns (ghost b: State, ghost j: nat)
    requires c.Valid() && 0 < cap <= MAX_TRANSFER
    modifies c`auxra, c`isr1, c`isr2, c.io
    ensures c.auxra == WithMode(old(c.auxra), HR_HLDE)
    ensures b.dev == old(c.io.dev)
    ensures var was := old(c.io.core);
            b.core == was.(aux := was.aux.(auxra := c.auxra), isr1 := 0, isr2 := 0, holdoff := false, sasr := 0)
    ensures Incoming(b, cap) && Receiving(c.Now(), b, cap, 0, j, Has(c.isr1, HR_END))
    ensures j <= |Offer(b.dev)| && j <= cap
    ensures c.io.timeUs >= old(c.io.timeUs)
  {
    hide Has, Moves, Receiving, Incoming, WithMode, Negative;
    WithModeBits(c.auxra, HR_HLDE);
    ReleaseHoldoff(c);
    ghost var released := c.Now();
    Configure(c, CFG_IN | CFG_CCEN, cap);
    StartsReceiving(released, cap);
    HasItself(c.isr1);
    c.isr1 := c.isr1 & !HR_END;
    b := Launched(c.Now());
    ghost var i, m := Cmdr(c, CMD_GO);
    j := ReceivingRun(b, b, cap, 0, 0, false, m);
    StatusReceiving(c.Now(), b, cap, 0, j, false);
  }

  lemma Bounds(s: State, b: State, cap: nat, n: nat, j: nat, seen: bool)
    requires Receiving(s, b, cap, n, j, seen)
    ensures n <= j <= cap && j <= |Offer(b.dev)|
    ensures s.turbo.go <==> j < cap
    ensures s.core.holdoff <==> Closed(b, cap, j)
    ensures s.dev == Taken(b.dev, j) && |s.turbo.fifo| == j - n
    ensures j > 0 ==> MayTalk(b.core, b.dev)
    ensures forall i :: 0 <= i && i + 1 < j ==> !Ends(b.core, Offer(b.dev)[i])
    ensures s.core == b.core.(isr1 := s.core.isr1, isr2 := s.core.isr2,
                              holdoff := s.core.holdoff, sasr := s.core.sasr)
  {
    hide Ends, Taken, Offer, Has, Closed;
  }

  lemma EndCloses(b: State, cap: nat, j: nat)
    requires j <= |Offer(b.dev)|
    ensures EndedAt(b, j) ==> Closed(b, cap, j)
  {
  }

  /** The polling loop. The deadline counts from the last byte read out of the FIFO. */
  method CollectLoop(c: TntChip, ghost b: State, buf: array<bv8>, cap: nat, ghost j0: nat)
    returns (rc: Status, n: nat, end: bool, ghost j: nat)
    requires Incoming(b, cap) && Receiving(c.Now(), b, cap, 0, j0, Has(c.isr1, HR_END))
    requires j0 <= |Offer(b.dev)| && j0 <= cap <= buf.Length
    requires !Has(b.core.aux.auxri, HR_SISB) && Limited(c, Answers(b.core, b.dev, cap))
    modifies c`isr1, c`isr2, c.io, buf
    ensures c.io.eager && Answers(b.core, b.dev, cap) ==> rc == OK
    ensures n <= j <= cap && j <= |Offer(b.dev)|
    ensures Receiving(c.Now(), b, cap, n, j, Has(c.isr1, HR_END))
    ensures buf[..n] == BytesOf(Offer(b.dev)[..n]) && SameFrom(buf[..], old(buf[..]), n)
    ensures rc == OK || rc == ETIMEOUT
    ensures rc == OK ==> n == j && (if end then EndedAt(b, j) else n == cap)
    ensures rc == ETIMEOUT ==> !end && n < cap
    ensures rc == ETIMEOUT && c.io.eager ==> Dry(c.Now()) && |c.io.turbo.fifo| == 0
    ensures old(c.io.timeUs) <= c.io.timeUs
    ensures n > 0 ==> c.io.lastPop >= old(c.io.Ms())
    ensures rc == ETIMEOUT ==>
              c.timeoutMs > TWO31 || c.io.Ms() - (if n > 0 then c.io.lastPop else old(c.io.Ms())) >= c.timeoutMs
  {
    hide Has, Receiving, Incoming, Ends, Offer, Dry, Wrap, Run, EndedAt, Answers, Watched, BytesOf, SameFrom;
    rc, n, end, j := OK, 0, false, j0;
    NothingRead(Offer(b.dev), buf[..]);
    var d;
    ghost var start: nat;
    d, start := DeadlineStart(c);
    while n < cap
      invariant rc == OK && !end
      invariant n <= j <= cap && j <= |Offer(b.dev)|
      invariant Receiving(c.Now(), b, cap, n, j, Has(c.isr1, HR_END))
      invariant buf[..n] == BytesOf(Offer(b.dev)[..n]) && SameFrom(buf[..], old(buf[..]), n)
      invariant Watched(d, start, c.io.Ms(), c.timeoutMs)
      invariant old(c.io.timeUs) <= c.io.timeUs && old(c.io.Ms()) <= start
      invariant start == if n > 0 then c.io.lastPop else old(c.io.Ms())
      decreases cap - n, start + c.timeoutMs - c.io.Ms()
    {
      var before := n;
      ghost var bytes := buf[..];
      n, j := DrainFifo(c, b, buf, n, cap, j);
      SameFromTwice(buf[..], bytes, old(buf[..]), before, n);
      bytes := buf[..];
      if n != before {
        d, start := DeadlineStart(c);
        continue;
      }
      DryReceiving(c.Now(), b, cap, n, j, Has(c.isr1, HR_END));
      EndCloses(b, cap, j);
      j := PollReceiving(c, b, cap, n, j);
      Bounds(c.Now(), b, cap, n, j, Has(c.isr1, HR_END));
      if Has(c.isr1, HR_END) {
        n, j := DrainFifo(c, b, buf, n, cap, j);
        SameFromTwice(buf[..], bytes, old(buf[..]), before, n);
        end := true;
        break;
      }
      var expired := DeadlineExpired(c, d, start);
      if expired {
        rc := ETIMEOUT;
        break;
      }
      ghost var now := c.io.Ms();
      j := YieldReceiving(c, b, cap, n, j);
      StillWatched(d, start, now, c.io.Ms(), c.timeoutMs);
      Bounds(c.Now(), b, cap, n, j, Has(c.isr1, HR_END));
    }
  }

  lemma NothingRead(offer: seq<Item>, bytes: seq<bv8>)
    ensures bytes[..0] == BytesOf(offer[..0]) && SameFrom(bytes, bytes, 0)
  {
  }

  /** The polling loop, and the last look at END when the buffer is full. */
  method Collect(c: TntChip, ghost b: State, buf: array<bv8>, cap: nat, ghost j0: nat)
    returns (rc: Status, n: nat, end: bool, ghost j: nat)
    requires Incoming(b, cap) && Receiving(c.Now(), b, cap, 0, j0, Has(c.isr1, HR_END))
    requires j0 <= |Offer(b.dev)| && j0 <= cap <= buf.Length
    requires !Has(b.core.aux.auxri, HR_SISB) && Limited(c, Answers(b.core, b.dev, cap))
    modifies c`isr1, c`isr2, c.io, buf
    ensures c.io.eager && Answers(b.core, b.dev, cap) ==> rc == OK
    ensures n <= j <= cap && j <= |Offer(b.dev)|
    ensures Receiving(c.Now(), b, cap, n, j, Has(c.isr1, HR_END))
    ensures buf[..n] == BytesOf(Offer(b.dev)[..n]) && SameFrom(buf[..], old(buf[..]), n)
    ensures rc == OK || rc == ETIMEOUT
    ensures rc == OK ==> n == j && Closed(b, cap, j) && end == EndedAt(b, j)
    ensures rc == ETIMEOUT ==> !end && n < cap
    ensures rc == ETIMEOUT && c.io.eager ==> Dry(c.Now()) && |c.io.turbo.fifo| == 0
    ensures old(c.io.timeUs) <= c.io.timeUs
    ensures n > 0 ==> c.io.lastPop >= old(c.io.Ms())
    ensures rc == ETIMEOUT ==>
              c.timeoutMs > TWO31 || c.io.Ms() - (if n > 0 then c.io.lastPop else old(c.io.Ms())) >= c.timeoutMs
  {
    hide Has, Receiving, Incoming, Ends, Offer, Dry, Run, EndedAt, Answers, BytesOf;
    rc, n, end, j := CollectLoop(c, b, buf, cap, j0);
    EndCloses(b, cap, j);
    if n == cap && !end {
      j := PollReceiving(c, b, cap, n, j);
      end := Has(c.isr1, HR_END);
    }
  }

  /** STOP after the loop. After a message or a full count nothing more has moved; after a
      timeout the talker may have sent on, but not if the engine was dry. */
  method StopReceiving(c: TntChip, ghost b: State, cap: nat, n: nat, ghost j: nat) returns (ghost j': nat)
    requires Incoming(b, cap) && Receiving(c.Now(), b, cap, n, j, Has(c.isr1, HR_END))
    requires j <= |Offer(b.dev)|
    modifies c.io`core, c.io`turbo, c.io`dev, c.io`shelf, c.io`timeUs, c.io`lastPush
    ensures n <= j' <= cap && j' <= |Offer(b.dev)|
    ensures Closed(b, cap, j) ==> j' == j
    ensures old(Dry(c.Now()) && |c.io.turbo.fifo| == 0) ==> j' == n
    ensures c.io.dev == Taken(b.dev, j') && !c.io.turbo.go && (c.io.core.holdoff <==> Closed(b, cap, j'))
    ensures j' > 0 ==> MayTalk(b.core, b.dev)
    ensures c.io.turbo.fifo == BytesOf(Offer(b.dev)[n..j'])
    ensures forall i :: 0 <= i && i + 1 < j' ==> !Ends(b.core, Offer(b.dev)[i])
    ensures c.io.core == b.core.(isr1 := c.io.core.isr1, isr2 := c.io.core.isr2,
                                 holdoff := c.io.core.holdoff, sasr := c.io.core.sasr)
    ensures old(c.io.timeUs) <= c.io.timeUs
  {
    hide Has, Receiving, Incoming, Ends, Offer, Run, Dry;
    ghost var s0 := c.Now();
    ghost var k := Stop(c);
    j' := ReceivingRun(s0, b, cap, n, j, Has(c.isr1, HR_END), k);
    Bounds(Run(s0, k), b, cap, n, j', Has(c.isr1, HR_END));
    Waiting(Run(s0, k), b, cap, n, j', Has(c.isr1, HR_END));
    if Dry(s0) {
      DryStays(s0, k);
    }
  }

  lemma Waiting(s: State, b: State, cap: nat, n: nat, j: nat, seen: bool)
    requires Receiving(s, b, cap, n, j, seen)
    ensures n <= j <= |Offer(b.dev)| && s.turbo.fifo == BytesOf(Offer(b.dev)[n..j])
  {
    hide Ends, Taken, Offer, Has;
  }

  /** What a read of up to cap bytes has done, in terms of the chip and the buffer before it. */
  ghost predicate Delivered(core: Core, dev: Device, dev': Device, bytes: seq<bv8>, lost: nat) {
    var offer, n := Offer(dev), |bytes| + lost;
    && n <= |offer|
    && bytes == BytesOf(offer[..|bytes|])
    && dev' == Taken(dev, n)
    && (n > 0 ==> MayTalk(core, dev))
    && (forall i :: 0 <= i && i + 1 < n ==> !Ends(core, offer[i]))
  }

  /** A read from GO on, in terms of the chip b as it was started. */
  method RunRead(c: TntChip, ghost b: State, buf: array<bv8>, cap: nat, ghost j0: nat)
    returns (rc: Status, got: nat, end: bool, ghost lost: nat)
    requires Incoming(b, cap) && Receiving(c.Now(), b, cap, 0, j0, Has(c.isr1, HR_END))
    requires j0 <= |Offer(b.dev)| && j0 <= cap <= buf.Length && 0 < cap
    requires !Has(b.core.aux.auxri, HR_SISB) && Limited(c, Answers(b.core, b.dev, cap))
    modifies c`isr1, c`isr2, c.io, buf
    ensures c.io.eager && Answers(b.core, b.dev, cap) ==> rc == OK
    ensures !c.io.turbo.go
    ensures var now := c.io.core;
            now == b.core.(isr1 := now.isr1, isr2 := now.isr2, holdoff := now.holdoff, sasr := now.sasr)
    ensures rc == OK || rc == ETIMEOUT
    ensures got + lost <= cap && (forall i :: got <= i < buf.Length ==> buf[i] == old(buf[i]))
    ensures Delivered(b.core, b.dev, c.io.dev, buf[..got], lost)
    ensures got + lost <= |Offer(b.dev)| && c.io.turbo.fifo == BytesOf(Offer(b.dev)[got..got + lost])
    ensures rc == OK ==>
              && lost == 0 && got > 0 && (got == cap || end)
              && end == Ends(b.core, Offer(b.dev)[got - 1])
    ensures rc == ETIMEOUT ==> !end && got < cap && (c.io.eager ==> lost == 0)
    ensures c.io.core.holdoff
    ensures got > 0 ==> c.io.lastPop >= old(c.io.Ms())
    ensures rc == ETIMEOUT ==>
              c.timeoutMs > TWO31 || c.io.Ms() - (if got > 0 then c.io.lastPop else old(c.io.Ms())) >= c.timeoutMs
    ensures old(c.io.timeUs) <= c.io.timeUs
  {
    hide Has, Receiving, Incoming, Offer, Dry, Taken, Ends, Answers;
    ghost var j;
    rc, got, end, j := Collect(c, b, buf, cap, j0);
    j := StopReceiving(c, b, cap, got, j);
    lost := j - got;
    c.isr1 := c.isr1 & !HR_END;
    if rc == ETIMEOUT {
      HoldOff(c);
    }
  }

  lemma SameAnswers(c: Core, c': Core, dev: Device, cap: nat)
    requires SameEnding(c, c') && c.role == c'.role && c.lines == c'.lines
    ensures Answers(c, dev, cap) == Answers(c', dev, cap)
  {
    hide Ends, Offer;
    SameEndsAll(c, c');
  }

  /** tnt_read for a count in range. */
  method ReadCounted(c: TntChip, buf: array<bv8>, cap: nat)
    returns (rc: Status, got: nat, end: bool, ghost lost: nat)
    requires c.Valid() && 0 < cap <= MAX_TRANSFER && cap <= buf.Length
    requires Limited(c, Answers(c.io.core, c.io.dev, cap))
    modifies c`auxra, c`isr1, c`isr2, c.io, buf
    ensures c.io.eager && old(Answers(c.io.core, c.io.dev, cap)) ==> rc == OK
    ensures c.Valid() && c.auxra == WithMode(old(c.auxra), HR_HLDE)
    ensures var was, now := old(c.io.core), c.io.core;
            now == was.(aux := was.aux.(auxra := c.auxra), isr1 := now.isr1, isr2 := now.isr2,
                        holdoff := now.holdoff, sasr := now.sasr)
    ensures rc == OK || rc == ETIMEOUT
    ensures got + lost <= cap && (forall i :: got <= i < buf.Length ==> buf[i] == old(buf[i]))
    ensures Delivered(old(c.io.core), old(c.io.dev), c.io.dev, buf[..got], lost)
    ensures got + lost <= |Offer(old(c.io.dev))|
    ensures c.io.turbo.fifo == BytesOf(Offer(old(c.io.dev))[got..got + lost])
    ensures rc == OK ==>
              && lost == 0 && got > 0 && (got == cap || end)
              && end == Ends(old(c.io.core), Offer(old(c.io.dev))[got - 1])
    ensures rc == ETIMEOUT ==> !end && got < cap && (c.io.eager ==> lost == 0)
    ensures c.io.core.holdoff
    ensures got > 0 ==> c.io.lastPop >= old(c.io.Ms())
    ensures rc == ETIMEOUT ==>
              c.timeoutMs > TWO31 || c.io.Ms() - (if got > 0 then c.io.lastPop else old(c.io.Ms())) >= c.timeoutMs
    ensures old(c.io.timeUs) <= c.io.timeUs
  {
    hide Has, Receiving, Incoming, Offer, Dry, Taken, WithMode, Ends, Answers;
    ghost var core0, dev0 := c.io.core, c.io.dev;
    WithModeBits(c.auxra, HR_HLDE);
    ghost var b, j := Launch(c, cap);
    SameAnswers(core0, b.core, dev0, cap);
    rc, got, end, lost := RunRead(c, b, buf, cap, j);
    SameEndsAll(core0, b.core);
  }

  /** tnt_read. What the caller gets is the next stretch of what the talker offers: up to and
      including the first byte that ends a message, or the whole buffer. A read that times out
      gives a prefix; the `lost` bytes that came in after the last look are those still in the
      FIFO, and there are none if the engine runs dry at every access. There a talker that has
      enough to say makes the read succeed, whatever the timeout. Every read leaves the talker held
      off, so that nothing moves before the next. */
  method TntRead(c: TntChip, buf: array<bv8>, cap: nat)
    returns (rc: Status, got: nat, end: bool, ghost lost: nat)
    requires c.Valid() && Limited(c, Answers(c.io.core, c.io.dev, cap)) && cap <= buf.Length
    modifies c`auxra, c`isr1, c`isr2, c.io, buf
    ensures c.Valid()
    ensures c.io.core.lines == old(c.io.core.lines) && c.io.core.role == old(c.io.core.role)
    ensures c.io.core.adr0 == old(c.io.core.adr0)
    ensures SameEnding(old(c.io.core), c.io.core)
    ensures cap == 0 || cap > MAX_TRANSFER ==>
              rc == (if cap == 0 then OK else EINVAL) && got == 0 && !end && lost == 0 && c.Now() == old(c.Now())
    ensures 0 < cap <= MAX_TRANSFER ==>
              && (rc == OK || rc == ETIMEOUT)
              && got + lost <= |Offer(old(c.io.dev))|
              && c.io.turbo.fifo == BytesOf(Offer(old(c.io.dev))[got..got + lost])
              && (lost == 0 <==> c.io.turbo.fifo == [])
              && (c.io.eager && old(Answers(c.io.core, c.io.dev, cap)) ==> rc == OK)
    ensures got + lost <= cap && (forall i :: got <= i < buf.Length ==> buf[i] == old(buf[i]))
    ensures Delivered(old(c.io.core), old(c.io.dev), c.io.dev, buf[..got], lost)
    ensures rc == OK && cap > 0 ==>
              && lost == 0 && got > 0 && (got == cap || end)
              && end == Ends(old(c.io.core), Offer(old(c.io.dev))[got - 1])
    ensures rc == ETIMEOUT ==> !end && got < cap && (c.io.eager ==> lost == 0)
    ensures 0 < cap <= MAX_TRANSFER ==> c.io.core.holdoff
    ensures got > 0 ==> c.io.lastPop >= old(c.io.Ms())
    ensures rc == ETIMEOUT ==>
              c.timeoutMs > TWO31 || c.io.Ms() - (if got > 0 then c.io.lastPop else old(c.io.Ms())) >= c.timeoutMs
    ensures old(c.io.timeUs) <= c.io.timeUs
  {
    hide Has, Offer, Ends, WithMode, Answers;
    got, end, lost := 0, false, 0;
    assert BytesOf(Offer(c.io.dev)[..0]) == buf[..0];
    if cap == 0 {
      return OK, 0, false, 0;
    }
    if cap > MAX_TRANSFER {
      return EINVAL, 0, false, 0;
    }
    WithModeBits(c.auxra, HR_HLDE);
    rc, got, end, lost := ReadCounted(c, buf, cap);
  }

  /** A timed-out read can lose a byte: a read is waiting, its talker has one byte left, and the
      byte comes in with STOP instead of before. The driver saw an empty FIFO, and now the FIFO
      holds a byte that the talker will not send again. */
  lemma {:induction false} LateByte(s: State, cap: nat, x: Item)
    requires 1 < cap <= MAX_TRANSFER && !s.core.holdoff && s.core.aux.auxra & (HR_HLDA | HR_HLDE) == HR_HLDE
    requires MayTalk(s.core, s.dev) && Offer(s.dev) == [x]
    ensures var b := Launched(Configured(s, CFG_IN | CFG_CCEN, cap));
            && Receiving(b, b, cap, 0, 0, false) && Run(b, 0) == b && b.turbo.fifo == []
            && Run(b, 1).turbo.fifo == [x.b] && Offer(Run(b, 1).dev) == []
  {
    hide Received, Ends, Offer, TakeOffer, Negative, CountByte, Receiving;
    StartsReceiving(s, cap);
    var b := Launched(Configured(s, CFG_IN | CFG_CCEN, cap));
    assert Has(CFG_IN | CFG_CCEN, CFG_IN);
    TakenOffer(s.dev, 1);
    assert Taken(s.dev, 1) == TakeOffer(Taken(s.dev, 0));
    assert Moves(b, 1) == Moves(Move(b), 0);
  }

  lemma {:induction false} TakenTwice(d: Device, a: nat, b: nat)
    ensures Taken(Taken(d, a), b) == Taken(d, a + b)
    decreases b
  {
    hide TakeOffer;
    if b > 0 {
      TakenTwice(d, a, b - 1);
    }
  }

  // ---- Read after read ----------------------------------------------------------------

  /** How many bytes a read returned, and how many it left in the FIFO. */
  datatype Reading = Reading(got: nat, lost: nat)

  function Total(log: seq<Reading>): nat {
    if log == [] then 0 else Total(log[..|log| - 1]) + log[|log| - 1].got + log[|log| - 1].lost
  }

  /** The bytes of a stream that a sequence of reads returns: what one of them leaves in the FIFO
      is dropped, and the next goes on behind it. */
  function Collected(offer: seq<Item>, log: seq<Reading>): seq<bv8>
    requires Total(log) <= |offer|
  {
    if log == [] then []
    else
      var before, r := log[..|log| - 1], log[|log| - 1];
      Collected(offer, before) + BytesOf(offer[Total(before)..Total(before) + r.got])
  }

  /** With nothing lost that is the stream itself, each byte once and in order. */
  lemma {:induction false} NothingLost(offer: seq<Item>, log: seq<Reading>)
    requires Total(log) <= |offer| && forall i :: 0 <= i < |log| ==> log[i].lost == 0
    ensures Collected(offer, log) == BytesOf(offer[..Total(log)])
    decreases |log|
  {
    if log != [] {
      var before, r := log[..|log| - 1], log[|log| - 1];
      NothingLost(offer, before);
      assert r.lost == 0;
      assert BytesOf(offer[..Total(before)]) + BytesOf(offer[Total(before)..Total(before) + r.got])
          == BytesOf(offer[..Total(log)]);
    }
  }

  /** One more read goes on where the reads before it stopped. */
  lemma Continues(core: Core, dev: Device, dev': Device, dev'': Device, log: seq<Reading>, out: seq<bv8>,
                  more: seq<bv8>, lost: nat)
    requires Total(log) <= |Offer(dev)| && out == Collected(Offer(dev), log) && dev' == Taken(dev, Total(log))
    requires Delivered(core, dev', dev'', more, lost)
    ensures var log' := log + [Reading(|more|, lost)];
            && Total(log') <= |Offer(dev)| && out + more == Collected(Offer(dev), log')
            && dev'' == Taken(dev, Total(log'))
  {
    hide Offer, Ends, MayTalk, Taken, Total, Collected, BytesOf;
    TakenOffer(dev, Total(log));
    TakenTwice(dev, Total(log), |more| + lost);
    LogSnoc(Offer(dev), log, Reading(|more|, lost));
  }

  lemma LogSnoc(offer: seq<Item>, log: seq<Reading>, r: Reading)
    ensures Total(log + [r]) == Total(log) + r.got + r.lost
    ensures Total(log + [r]) <= |offer| ==>
              Collected(offer, log + [r]) == Collected(offer, log) + BytesOf(offer[Total(log)..][..r.got])
  {
    hide BytesOf;
    var log' := log + [r];
    assert log'[..|log'| - 1] == log;
    if Total(log') <= |offer| {
      assert offer[Total(log)..][..r.got] == offer[Total(log)..Total(log) + r.got];
    }
  }

  /** Any number of reads, with any buffer sizes, while the talker stays addressed, going on past
      timeouts: every byte that the talker sent was returned, in order and once, or was left in
      the FIFO by a read that timed out. If all succeed, what they return is what was sent. */
  method ReadInTurn(c: TntChip, buf: array<bv8>, caps: seq<nat>)
    returns (rcs: seq<Status>, out: seq<bv8>, ghost log: seq<Reading>)
    requires c.Valid() && c.timeoutMs != 0
    requires forall i :: 0 <= i < |caps| ==> caps[i] <= buf.Length
    modifies c`auxra, c`isr1, c`isr2, c.io, buf
    ensures c.Valid()
    ensures |rcs| == |log| == |caps|
    ensures Total(log) <= |Offer(old(c.io.dev))| && out == Collected(Offer(old(c.io.dev)), log)
    ensures c.io.dev == Taken(old(c.io.dev), Total(log))
    ensures forall i :: 0 <= i < |caps| ==>
              && log[i].got + log[i].lost <= caps[i]
              && (log[i].lost > 0 ==> rcs[i] == ETIMEOUT && !c.io.eager)
    ensures c.io.eager || (forall i :: 0 <= i < |caps| ==> rcs[i] == OK) ==>
              && |out| <= |Offer(old(c.io.dev))| && out == BytesOf(Offer(old(c.io.dev))[..|out|])
              && c.io.dev == Taken(old(c.io.dev), |out|)
  {
    hide Offer, Ends, Has, SameEnding, Delivered, Taken, BytesOf, Total, Collected, Answers;
    ghost var dev0 := c.io.dev;
    rcs, out, log := [], [], [];
    NothingTaken(dev0);
    for i := 0 to |caps|
      invariant c.Valid() && c.timeoutMs != 0
      invariant |rcs| == |log| == i
      invariant Total(log) <= |Offer(dev0)| && out == Collected(Offer(dev0), log)
      invariant c.io.dev == Taken(dev0, Total(log))
      invariant forall k :: 0 <= k < i ==>
                  && log[k].got + log[k].lost <= caps[k]
                  && (log[k].lost > 0 ==> rcs[k] == ETIMEOUT && !c.io.eager)
    {
      ghost var core1, dev1 := c.io.core, c.io.dev;
      var rc, got, end;
      ghost var lost;
      rc, got, end, lost := TntRead(c, buf, caps[i]);
      Continues(core1, dev0, dev1, c.io.dev, log, out, buf[..got], lost);
      rcs, out, log := rcs + [rc], out + buf[..got], log + [Reading(got, lost)];
    }
    if c.io.eager || (forall i :: 0 <= i < |caps| ==> rcs[i] == OK) {
      NothingLost(Offer(dev0), log);
      BytesLength(Offer(dev0)[..Total(log)]);
    }
  }

  lemma BytesLength(items: seq<Item>)
    ensures |BytesOf(items)| == |items|
  {
  }

  lemma NothingTaken(d: Device)
    ensures Total([]) == 0 && Collected(Offer(d), []) == [] && Taken(d, 0) == d
  {
  }

  /** Both cores end messages on the same bytes. */
  ghost predicate SameEnding(c: Core, c': Core) {
    c.aux.auxra & (HR_REOS | HR_BIN) == c'.aux.auxra & (HR_REOS | HR_BIN) && c.eosr == c'.eosr
  }

  /** After a timeout the talker is held off until the next read. */
  method HoldOff(c: TntChip)
    requires !c.io.turbo.go
    modifies c.io`core, c.io`turbo, c.io`dev, c.io`shelf, c.io`timeUs, c.io`lastPush
    ensures var was := old(c.io.core); c.io.core == was.(holdoff := true, sasr := ANHS2)
    ensures c.io.dev == old(c.io.dev) && c.io.turbo == old(c.io.turbo)
    ensures c.io.timeUs >= old(c.io.timeUs)
  {
    hide Hidden, Moves;
    HiddenFinish(c.Now());
    AuxmrIdle(c, AUX_HLDI);
  }

  lemma SameEndsAll(c: Core, c': Core)
    requires SameEnding(c, c')
    ensures forall i :: Ends(c, i) == Ends(c', i)
  {
    forall i ensures Ends(c, i) == Ends(c', i) {
      SameEnds(c, c', i);
    }
  }
}
