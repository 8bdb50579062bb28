/** The remaining timeout of a blocked call, recomputed after every wake-up in 32-bit arithmetic. */
module WaitTime {
  const TWO31 := 0x8000_0000
  const TWO32 := 0x1_0000_0000

  /** A 32-bit pattern read as rt_int32_t. */
  function ToInt32(u: int): int
    requires 0 <= u < TWO32
  {
    if u < TWO31 then u else u - TWO32
  }

  /** The tick counter `elapsed` ticks after it showed `start`. */
  function TickAfter(start: int, elapsed: nat): int { (start + elapsed) % TWO32 }

  /** timeout -= rt_tick_get() - start, cut off at 0, done only for a running timer. */
  function Remaining(timeout: int, start: int, now: int): int {
    if timeout > 0 then
      var delta := (now - start) % TWO32;
      var t := ToInt32((timeout - delta) % TWO32);
      if t < 0 then 0 else t
    else timeout
  }

  function Max0(n: int): int { if n < 0 then 0 else n }

  /** The subtraction is right exactly when it does not overshoot by more than half the tick range,
      whether or not the tick counter wraps in between. */
  lemma RemainingExactly(timeout: int, start: int, elapsed: nat)
    requires 0 < timeout < TWO31 && 0 <= start < TWO32 && elapsed < TWO32
    ensures Remaining(timeout, start, TickAfter(start, elapsed)) == Max0(timeout - elapsed)
       <==> elapsed - timeout <= TWO31
  {
    assert (TickAfter(start, elapsed) - start) % TWO32 == elapsed by {
      if start + elapsed < TWO32 {
        assert TickAfter(start, elapsed) == start + elapsed;
      } else {
        assert TickAfter(start, elapsed) == start + elapsed - TWO32;
      }
    }
    if timeout < elapsed {
      assert (timeout - elapsed) % TWO32 == timeout - elapsed + TWO32;
    }
  }

  /** One suspension: the tick when the timer was started and how long the thread slept. */
  datatype Sleep = Sleep(start: int, elapsed: nat)

  /** The timeout left after a series of suspensions. */
  function After(timeout: int, sleeps: seq<Sleep>): int
    decreases |sleeps|
  {
    if sleeps == [] then timeout
    else After(Remaining(timeout, sleeps[0].start, TickAfter(sleeps[0].start, sleeps[0].elapsed)), sleeps[1..])
  }

  function Total(sleeps: seq<Sleep>): nat {
    if sleeps == [] then 0 else sleeps[0].elapsed + Total(sleeps[1..])
  }

  /** After any number of wake-ups a blocked call has max(0, T - time slept) ticks left; waiting forever
      stays waiting forever. */
  lemma {:induction false} RemainingAfter(timeout: int, sleeps: seq<Sleep>)
    requires timeout < TWO31
    requires forall i | 0 <= i < |sleeps| :: 0 <= sleeps[i].start < TWO32 && sleeps[i].elapsed < TWO31
    ensures After(timeout, sleeps) == if timeout > 0 then Max0(timeout - Total(sleeps)) else timeout
  {
    if sleeps != [] {
      var s := sleeps[0];
      if timeout > 0 {
        RemainingExactly(timeout, s.start, s.elapsed);
      }
      RemainingAfter(Remaining(timeout, s.start, TickAfter(s.start, s.elapsed)), sleeps[1..]);
    }
  }

  // ---- Whole runs of calls ---------------------------------------------------------------------

  /** The timeout a call was given, the ticks it has slept so far, and when it last went to sleep; here
      ticks are counted without wrap-around. */
  datatype Clock = Clock(asked: int, slept: nat, since: nat)

  function Left(c: Clock): int {
    if c.asked > 0 then Max0(c.asked - c.slept) else c.asked
  }

  /** The call runs again. */
  function Slept(c: Clock, time: nat): Clock {
    Clock(c.asked, c.slept + Max0(time - c.since), time)
  }

  /** The local variables of a blocked call: the rest of its timeout is what it was given minus what it
      has slept, and tick_delta is when it last went to sleep. */
  ghost predicate Shows(c: Clock, time: nat, timeout: int, start: int) {
    && c.since <= time && c.asked < TWO31
    && timeout == Left(c) && timeout != 0
    && (timeout > 0 ==> start == c.since % TWO32)
  }

  /** A call with a timeout runs again at most half the tick range after its timer was due; nothing is
      asked of a call that waits forever. */
  predicate Prompt(c: Clock, time: nat, timeout: int) {
    timeout > 0 ==> time - c.since <= timeout + TWO31
  }

  lemma TickOn(since: nat, elapsed: nat)
    ensures TickAfter(since % TWO32, elapsed) == (since + elapsed) % TWO32
  {
  }

  lemma RemainingForever(timeout: int, start: int, now: int)
    requires timeout <= 0
    ensures Remaining(timeout, start, now) == timeout
  {
  }

  /** The code's subtraction gives what is left of the timeout for exactly the prompt calls. */
  lemma LeftExactly(c: Clock, time: nat, timeout: int, start: int)
    requires Shows(c, time, timeout, start) && time - c.since < TWO32
    ensures Remaining(timeout, start, time % TWO32) == Left(Slept(c, time)) <==> Prompt(c, time, timeout)
  {
    hide Remaining;
    if timeout > 0 {
      RemainingExactly(timeout, start, time - c.since);
      TickOn(c.since, time - c.since);
    } else {
      RemainingForever(timeout, start, time % TWO32);
    }
  }

  lemma LeftRight(c: Clock, time: nat, timeout: int, start: int)
    requires Shows(c, time, timeout, start) && Prompt(c, time, timeout)
    ensures Remaining(timeout, start, time % TWO32) == Left(Slept(c, time))
  {
    if timeout > 0 {
      LeftExactly(c, time, timeout, start);
    } else {
      RemainingForever(timeout, start, time % TWO32);
    }
    hide Remaining;
  }
}
