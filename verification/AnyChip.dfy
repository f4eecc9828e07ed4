/** The waiting loops of src/gpib/tnt4882.c on a chip that may do anything: every register read
    returns an arbitrary byte. The loops end all the same, give up only after the timeout, and
    stay inside their buffers. */
module AnyChip {
  import opened Words
  import opened TntRegs
  import opened Deadlines
  import opened ChipModel
  import opened Tnt4882

  /** Nothing is known of the chip. Of time it is known that a wait takes at least a millisecond
      and less than 2^31 of them. */
  class AnyIo {
    var timeUs: nat
    ghost var lastPop: nat    // when the FIFO was last read, in ms
    ghost var lastPush: nat   // when it was last written

    constructor ()
      ensures timeUs == 0
    {
      timeUs, lastPop, lastPush := 0, 0, 0;
    }

    ghost function Ms(): nat
      reads this
    {
      timeUs / 1000
    }

    method Read8(off: nat) returns (v: bv8)
      modifies this`lastPop
      ensures lastPop == if off == REG_FIFOB then Ms() else old(lastPop)
    {
      v := *;
      lastPop := if off == REG_FIFOB then Ms() else lastPop;
    }

    method Write8(off: nat, v: bv8)
      modifies this`lastPush
      ensures lastPush == if off == REG_FIFOB then Ms() else old(lastPush)
    {
      lastPush := if off == REG_FIFOB then Ms() else lastPush;
    }

    method DelayUs(us: nat)
      modifies this`timeUs
      ensures timeUs == old(timeUs) + us
    {
      timeUs := timeUs + us;
    }

    method NowMs() returns (ms: u32)
      ensures ms == Wrap(Ms())
    {
      ms := Wrap(timeUs / 1000);
    }

    method Yield()
      modifies this`timeUs
      ensures old(Ms()) < Ms() < old(Ms()) + TWO31
    {
      var ms: nat := *;
      timeUs := timeUs + 1000 * (1 + ms % (TWO31 - 1));
    }
  }

  /** What a wait that gave up took: the timeout, unless that is beyond what the test can tell. */
  predicate TookTimeout(timeoutMs: u32, waited: int) {
    timeoutMs > TWO31 || waited >= timeoutMs
  }

  class AnyDriver {
    const io: AnyIo
    const timeoutMs: u32
    var isr1: bv8
    var isr2: bv8

    constructor (io: AnyIo, timeoutMs: u32)
      ensures this.io == io && this.timeoutMs == timeoutMs && isr1 == 0 && isr2 == 0
    {
      this.io, this.timeoutMs, isr1, isr2 := io, timeoutMs, 0, 0;
    }

    method DeadlineStart() returns (d: Deadline)
      ensures Watched(d, io.Ms(), io.Ms(), timeoutMs)
    {
      var now := io.NowMs();
      d := Deadline(Wrap(now + timeoutMs), timeoutMs != 0);
    }

    method DeadlineExpired(d: Deadline, ghost start: nat) returns (expired: bool)
      requires timeoutMs != 0 && Watched(d, start, io.Ms(), timeoutMs)
      ensures expired <==> TookTimeout(timeoutMs, io.Ms() - start)
    {
      hide Expired, Wrap;
      CheckArmed(d, start, io.Ms(), timeoutMs);
      var now := io.NowMs();
      expired := Expired(now, d);
    }

    method PollStatus()
      modifies this`isr1, this`isr2, io`lastPop
      ensures io.lastPop == old(io.lastPop)
    {
      var v := io.Read8(REG_ISR1);
      isr1 := Both(isr1, v);
      v := io.Read8(REG_ISR2);
      isr2 := Both(isr2, v);
    }

    /** wait_atn */
    method WaitAtn(asserted: bool) returns (rc: Status)
      requires timeoutMs != 0
      modifies io
      ensures rc == OK || rc == ETIMEOUT
      ensures rc == ETIMEOUT ==> TookTimeout(timeoutMs, io.Ms() - old(io.Ms()))
    {
      hide Start, Wrap;
      for spin := 0 to TCA_SPIN_US
        invariant io.timeUs >= old(io.timeUs)
      {
        var v := io.Read8(REG_ADSR);
        if Has(v, HR_NATN) == !asserted {
          return OK;
        }
        io.DelayUs(1);
      }
      ghost var start: nat := io.Ms();
      var d := DeadlineStart();
      while true
        invariant Watched(d, start, io.Ms(), timeoutMs) && old(io.Ms()) <= start
        decreases start + timeoutMs - io.Ms()
      {
        var v := io.Read8(REG_ADSR);
        if Has(v, HR_NATN) == !asserted {
          return OK;
        }
        var expired := DeadlineExpired(d, start);
        if expired {
          return ETIMEOUT;
        }
        io.Yield();
      }
    }

    /** The loop of tnt_transfer_out that fills the FIFO. */
    method Fill(buf: seq<bv8>) returns (rc: Status, queued: nat, d: Deadline, ghost start: nat)
      requires timeoutMs != 0
      modifies this`isr1, this`isr2, io
      ensures queued <= |buf| && start == if queued > 0 then io.lastPush else old(io.Ms())
      ensures old(io.Ms()) <= start
      ensures rc == OK || rc == ETIMEOUT || rc == ENOLISTENER
      ensures rc == OK ==> queued == |buf| && Watched(d, start, io.Ms(), timeoutMs)
      ensures rc == ETIMEOUT ==> TookTimeout(timeoutMs, io.Ms() - start)
      ensures rc == ENOLISTENER ==> Has(isr1, HR_ERR)
    {
      hide Start, Wrap, Has;
      rc, queued, start := OK, 0, io.Ms();
      d := DeadlineStart();
      while queued < |buf|
        invariant queued <= |buf| && rc == OK && start == if queued > 0 then io.lastPush else old(io.Ms())
        invariant Watched(d, start, io.Ms(), timeoutMs) && old(io.Ms()) <= start
        decreases |buf| - queued, start + timeoutMs - io.Ms()
      {
        var v := io.Read8(REG_STS2);
        if Has(v, BFFN) {
          io.Write8(REG_FIFOB, buf[queued]);
          queued, start := queued + 1, io.Ms();
          d := DeadlineStart();
          continue;
        }
        PollStatus();
        if Has(isr1, HR_ERR) {
          rc := ENOLISTENER;
          break;
        }
        var expired := DeadlineExpired(d, start);
        if expired {
          rc := ETIMEOUT;
          break;
        }
        io.Yield();
      }
    }

    /** The loop of tnt_transfer_out that waits for DONE, on the deadline of the last byte. */
    method AwaitDone(d: Deadline, ghost start: nat) returns (rc: Status)
      requires timeoutMs != 0 && Watched(d, start, io.Ms(), timeoutMs)
      modifies this`isr1, this`isr2, io`lastPop, io`timeUs
      ensures rc == OK || rc == ETIMEOUT || rc == ENOLISTENER
      ensures rc == ETIMEOUT ==> TookTimeout(timeoutMs, io.Ms() - start)
      ensures rc == ENOLISTENER ==> Has(isr1, HR_ERR)
    {
      hide Start, Wrap, Has;
      while true
        invariant Watched(d, start, io.Ms(), timeoutMs)
        decreases start + timeoutMs - io.Ms()
      {
        var v := io.Read8(REG_STS1);
        if Has(v, S_DONE) {
          return OK;
        }
        PollStatus();
        if Has(isr1, HR_ERR) {
          return ENOLISTENER;
        }
        var expired := DeadlineExpired(d, start);
        if expired {
          return ETIMEOUT;
        }
        io.Yield();
      }
    }

    /** remaining_count */
    method RemainingCount() returns (left: u32)
      modifies io`lastPop
    {
      var b0 := io.Read8(REG_CNT0);
      var b1 := io.Read8(REG_CNT1);
      var b2 := io.Read8(REG_CNT2);
      var b3 := io.Read8(REG_CNT3);
      left := Negative(FromBytes(b3 as int, b2 as int, b1 as int, b0 as int));
    }

    /** tnt_transfer_out behind its set-up. Whatever the chip says of its counter, no more is
        reported as sent than there was, and here the fallback to the bytes queued is live. */
    method TransferOut(buf: seq<bv8>) returns (rc: Status, sent: nat, ghost pushed: nat)
      requires timeoutMs != 0
      modifies this`isr1, this`isr2, io
      ensures sent <= |buf|
      ensures rc == OK || rc == ETIMEOUT || rc == ENOLISTENER
      ensures pushed > 0 ==> io.lastPush >= old(io.Ms())
      ensures rc == ETIMEOUT ==>
                TookTimeout(timeoutMs, io.Ms() - (if pushed > 0 then io.lastPush else old(io.Ms())))
    {
      hide Start, Wrap, Has;
      var queued, d;
      ghost var start;
      rc, queued, d, start := Fill(buf);
      pushed := queued;
      if rc == OK {
        rc := AwaitDone(d, start);
      }
      io.Write8(REG_CMDR, CMD_STOP);
      var left := RemainingCount();
      sent := if left <= |buf| then |buf| - left else queued;
      isr1 := isr1 & !HR_ERR;
    }

    /** drain_fifo */
    method DrainFifo(buf: array<bv8>, n0: nat, cap: nat) returns (n: nat)
      requires n0 <= cap <= buf.Length
      modifies buf, io`lastPop
      ensures n0 <= n <= cap && io.lastPop == if n > n0 then io.Ms() else old(io.lastPop)
      ensures forall i :: 0 <= i < buf.Length && !(n0 <= i < n) ==> buf[i] == old(buf[i])
    {
      n := n0;
      while n < cap
        invariant n0 <= n <= cap && io.lastPop == if n > n0 then io.Ms() else old(io.lastPop)
        invariant forall i :: 0 <= i < buf.Length && !(n0 <= i < n) ==> buf[i] == old(buf[i])
      {
        var v := io.Read8(REG_STS2);
        if !Has(v, BEFN) {
          break;
        }
        buf[n] := io.Read8(REG_FIFOB);
        n := n + 1;
      }
    }

    /** The polling loop of tnt_read, with its last look at END. */
    method Collect(buf: array<bv8>, cap: nat) returns (rc: Status, n: nat, end: bool)
      requires timeoutMs != 0 && cap <= buf.Length
      modifies this`isr1, this`isr2, io, buf
      ensures n <= cap && (forall i :: n <= i < buf.Length ==> buf[i] == old(buf[i]))
      ensures rc == OK || rc == ETIMEOUT
      ensures rc == OK ==> n == cap || end
      ensures n > 0 ==> io.lastPop >= old(io.Ms())
      ensures rc == ETIMEOUT ==>
                && n < cap && !end
                && TookTimeout(timeoutMs, io.Ms() - (if n > 0 then io.lastPop else old(io.Ms())))
    {
      hide Start, Wrap, Has;
      rc, n, end := OK, 0, false;
      ghost var start: nat := io.Ms();
      var d := DeadlineStart();
      while n < cap
        invariant n <= cap && rc == OK && !end && start == if n > 0 then io.lastPop else old(io.Ms())
        invariant forall i :: n <= i < buf.Length ==> buf[i] == old(buf[i])
        invariant Watched(d, start, io.Ms(), timeoutMs) && old(io.Ms()) <= start
        decreases cap - n, start + timeoutMs - io.Ms()
      {
        var before := n;
        n := DrainFifo(buf, n, cap);
        if n != before {
          start := io.Ms();
          d := DeadlineStart();
          continue;
        }
        PollStatus();
        if Has(isr1, HR_END) {
          n := DrainFifo(buf, n, cap);
          end := true;
          break;
        }
        var expired := DeadlineExpired(d, start);
        if expired {
          rc := ETIMEOUT;
          break;
        }
        io.Yield();
      }
      if n == cap && !end {
        PollStatus();
        end := Has(isr1, HR_END);
      }
    }
  }
}
