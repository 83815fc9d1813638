/** The waiting time that is left to a thread that was woken and finds that it has to wait again. */
module WaitTime {
  import opened Words

  /** A `rt_int32_t` from the bits of a word. */
  function Int32(w: word): int {
    if w < 0x8000_0000 then w else w - MODULUS
  }

  /** The waiting time that is left after a wake-up: `timeout -= rt_tick_get() - start`, at least 0; a time that is
      not positive stays as it is. */
  function Remaining(timeout: int, since: word, now: word): int {
    if timeout <= 0 then timeout
    else
      var left := Int32(Wrap(timeout - Wrap(now - since)));
      if left < 0 then 0 else left
  }

  /** The recomputed waiting time is what is left of the old one if and only if less than half the tick range has
      passed beyond it. */
  lemma RemainingExact(timeout: int, since: word, elapsed: nat)
    requires 0 < timeout < 0x8000_0000 && elapsed < MODULUS
    ensures Remaining(timeout, since, Wrap(since + elapsed)) == (if elapsed < timeout then timeout - elapsed else 0)
      <==> elapsed <= timeout + 0x8000_0000
  {
    assert Wrap(Wrap(since + elapsed) - since) == elapsed;
  }

  /** A thread that runs again 2^31 + 1 ticks after its 10 ticks have passed would wait for 2^31 - 1 more. */
  lemma RemainingWraps()
    ensures Remaining(10, 0, 0x8000_000B) == 0x7FFF_FFFF
  {
    assert Wrap(0x8000_000B - 0) == 0x8000_000B;
    assert Wrap(10 - 0x8000_000B) == 0x7FFF_FFFF;
  }

  /** What a time-out comes to after `n` ticks; one that is not positive stays as it is. */
  function WhatIsLeft(timeout: int, n: nat): int {
    if timeout <= 0 then timeout else if n < timeout then timeout - n else 0
  }

  /** It is tick `now`, `n` ticks into a call with time-out `timeout` that began to wait, or waited again, at tick
      `since` with `left` ticks left. */
  predicate Clocked(left: int, since: word, now: word, timeout: int, n: nat) {
    if timeout <= 0 then left == timeout
    else 0 < left <= timeout && timeout - left <= n && now == Wrap(since + n - (timeout - left))
  }

  /** Then a recomputation comes to what is left of the call's time-out. */
  lemma LeftAfter(left: int, since: word, now: word, timeout: int, n: nat)
    requires Clocked(left, since, now, timeout, n) && timeout < 0x8000_0000
    requires timeout > 0 ==> n <= timeout + 0x8000_0000
    ensures Remaining(left, since, now) == WhatIsLeft(timeout, n)
  {
    if timeout > 0 { RemainingExact(left, since, n - (timeout - left)); }
  }

  lemma NextTick(left: int, since: word, now: word, timeout: int, n: nat)
    requires Clocked(left, since, now, timeout, n)
    ensures Clocked(left, since, Wrap(now + 1), timeout, n + 1)
  {
  }
}
