/** The deadline test of src/gpib/tnt4882.c: a signed difference of 32-bit millisecond ticks,
    against elapsed time that never wraps. */
module Deadlines {
  import opened Words

  datatype Deadline = Deadline(at: u32, enabled: bool)

  /** deadline_start, at real time `start` (in ms) with the timeout in force. */
  function Start(start: nat, timeout: u32): Deadline {
    Deadline(Wrap(Wrap(start) + timeout), timeout != 0)
  }

  /** deadline_expired, given the tick counter. */
  predicate Expired(ticks: u32, d: Deadline) {
    d.enabled && Signed(Wrap(ticks - d.at)) >= 0
  }

  /** The test as it comes out when `elapsed` ms have passed since the deadline was set. */
  predicate ExpiredAfter(start: nat, elapsed: nat, timeout: u32) {
    Expired(Wrap(start + elapsed), Start(start, timeout))
  }

  /** The tick difference depends on elapsed time only, wherever the counter wraps. */
  lemma TicksElapsed(start: nat, elapsed: nat, timeout: u32)
    ensures Wrap(Wrap(start + elapsed) - Start(start, timeout).at) == Wrap(elapsed - timeout)
  {
    var a, b := (start + elapsed) / TWO32, start / TWO32;
    var c := (Wrap(start) + timeout) / TWO32;
    assert Wrap(start + elapsed) - Start(start, timeout).at == elapsed - timeout + (b + c - a) * TWO32;
    WrapShift(elapsed - timeout, b + c - a);
  }

  /** The test fires exactly from the timeout on, for half the range of the counter. */
  lemma {:induction false} ExpiresExactly(start: nat, elapsed: nat, timeout: u32)
    requires 0 < timeout <= TWO31 && elapsed < timeout + TWO31
    ensures ExpiredAfter(start, elapsed, timeout) <==> elapsed >= timeout
  {
    TicksElapsed(start, elapsed, timeout);
  }

  /** A deadline set at `start` and checked in time: the check before the last wait had not
      fired, or no time has passed at all. */
  ghost predicate Armed(d: Deadline, start: nat, now: nat, timeout: u32) {
    && timeout != 0 && d == Start(start, timeout) && start <= now
    && (if timeout <= TWO31 then now - start < timeout + TWO31 else now == start)
  }

  /** The same, unless waiting is not limited at all. */
  ghost predicate Watched(d: Deadline, start: nat, now: nat, timeout: u32) {
    d == Start(start, timeout) && (timeout != 0 ==> Armed(d, start, now, timeout))
  }

  /** A wait after a check that did not fire leaves the deadline watched. */
  lemma StillWatched(d: Deadline, start: nat, now: nat, later: nat, timeout: u32)
    requires Watched(d, start, now, timeout) && now < later < now + TWO31
    requires timeout != 0 ==> timeout <= TWO31 && now - start < timeout
    ensures Watched(d, start, later, timeout)
  {
    hide Start;
  }

  lemma {:induction false} CheckArmed(d: Deadline, start: nat, now: nat, timeout: u32)
    requires Armed(d, start, now, timeout)
    ensures Expired(Wrap(now), d) <==> (timeout > TWO31 || now - start >= timeout)
  {
    if timeout <= TWO31 {
      ExpiresExactly(start, now - start, timeout);
    } else {
      NeverEarly(start, timeout);
    }
  }

  /** It never fires early exactly for timeouts up to 2^31 ms. A longer timeout has expired
      when it is set. */
  lemma {:induction false} NeverEarly(start: nat, timeout: u32)
    requires timeout != 0
    ensures (forall e: nat :: e < timeout ==> !ExpiredAfter(start, e, timeout))
       <==> timeout <= TWO31
    ensures timeout > TWO31 ==> ExpiredAfter(start, 0, timeout)
  {
    if timeout <= TWO31 {
      forall e: nat | e < timeout ensures !ExpiredAfter(start, e, timeout) {
        ExpiresExactly(start, e, timeout);
      }
    } else {
      TicksElapsed(start, 0, timeout);
      var none: nat := 0;
      assert ExpiredAfter(start, none, timeout);
    }
  }
}
