/** The operator device's wake polling: WAKE is sent until the reader reports a tag. */
module Operator {
  import opened Wrappers
  import opened Replies

  const WAKE_POLL_INTERVAL_MS := 300
  const WAKE_WAIT_TIMEOUT_MS := 15000

  /** Reply `n` ends the poll with success: it is accepted, and every earlier one was a NO_TAG seen in time. */
  ghost predicate SucceedsAt(reply: nat -> string, clock: nat -> int, start: int, timeout: int, n: nat) {
    && Accepted(reply(n))
    && forall i: nat :: i < n ==> NoTag(reply(i)) && clock(i) < start + timeout
  }

  /** Smallest number of polling intervals that covers the timeout. */
  function Intervals(timeout: int): (n: nat)
    ensures timeout <= n * WAKE_POLL_INTERVAL_MS
    ensures n > 0 ==> (n - 1) * WAKE_POLL_INTERVAL_MS < timeout
  {
    if timeout <= 0 then 0 else (timeout + WAKE_POLL_INTERVAL_MS - 1) / WAKE_POLL_INTERVAL_MS
  }

  class OperatorDevice {
    var lastAddr: Option<string>

    constructor ()
      ensures lastAddr == None
    {
      lastAddr := None;
    }

    /**
     `reply(i)` is the answer to send number `i` - the empty string when the
     transport raised - and `clock(i)` the time, in ms, read after it.
     */
    method WakeWristbandWait(
      reply: nat -> string, clock: nat -> int, start: int, timeout: int := WAKE_WAIT_TIMEOUT_MS)
      returns (ok: bool, sends: nat)
      requires clock(0) >= start
      requires forall i: nat :: clock(i + 1) >= clock(i) + WAKE_POLL_INTERVAL_MS
      modifies this
      ensures 1 <= sends <= Intervals(timeout) + 1
      ensures ok <==> exists n: nat :: SucceedsAt(reply, clock, start, timeout, n)
      ensures ok ==> SucceedsAt(reply, clock, start, timeout, sends - 1)
      ensures lastAddr == if ok then ParseAddress(reply(sends - 1)) else None
    {
      hide Accepted, NoTag, ParseAddress;
      var deadline := start + timeout;
      lastAddr := None;
      sends := 0;
      while true
        invariant lastAddr == None
        invariant clock(sends) >= start + sends * WAKE_POLL_INTERVAL_MS
        invariant sends <= Intervals(timeout)
        invariant forall i: nat :: i < sends ==> NoTag(reply(i)) && clock(i) < deadline
        decreases deadline - clock(sends)
      {
        var resp := reply(sends);
        var now := clock(sends);
        sends := sends + 1;
        if Accepted(resp) {
          lastAddr := ParseAddress(resp);
          assert SucceedsAt(reply, clock, start, timeout, sends - 1);
          return true, sends;
        }
        if !NoTag(resp) {
          FirstNonTagDecides(reply, clock, start, timeout, sends - 1);
          return false, sends;
        }
        if now >= deadline {
          FirstNonTagDecides(reply, clock, start, timeout, sends - 1);
          return false, sends;
        }
      }
    }
  }

  /** A reply that is neither accepted nor a NO_TAG seen in time rules every success out. */
  lemma FirstNonTagDecides(reply: nat -> string, clock: nat -> int, start: int, timeout: int, k: nat)
    requires forall i: nat :: i < k ==> NoTag(reply(i))
    requires !Accepted(reply(k)) && (!NoTag(reply(k)) || clock(k) >= start + timeout)
    ensures forall n: nat :: !SucceedsAt(reply, clock, start, timeout, n)
  {
    forall n: nat ensures !SucceedsAt(reply, clock, start, timeout, n) {
      if n < k {
        assert NoTag(reply(n));
      }
    }
  }

  /** At most one reply can end the poll with success. */
  lemma SuccessIsUnique(reply: nat -> string, clock: nat -> int, start: int, timeout: int, m: nat, n: nat)
    requires SucceedsAt(reply, clock, start, timeout, m) && SucceedsAt(reply, clock, start, timeout, n)
    ensures m == n
  {
    assert m < n ==> NoTag(reply(m));
    assert n < m ==> NoTag(reply(n));
  }
}
