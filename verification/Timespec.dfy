/**
 Deadlines for timed waits. The system clock counts 100-nanosecond ticks in 64 unsigned bits; a deadline
 is kept as seconds and nanoseconds, and turned into a 32-bit number of milliseconds to wait.
 */
module Timespec {
  import opened Base

  const TICKS_PER_SEC: nat := 10_000_000
  const NSEC_PER_SEC: nat := 1_000_000_000
  const NSEC_PER_MSEC: nat := 1_000_000
  const TICKS_PER_MSEC: nat := 10_000

  datatype Time = Time(sec: nat, nsec: nat)

  predicate Normal(t: Time) {
    t.nsec < NSEC_PER_SEC
  }

  function Ns(t: Time): nat {
    t.sec * NSEC_PER_SEC + t.nsec
  }

  /** The deadline `nsec` from the clock reading, as it is computed. */
  function Deadline(clock: nat, nsec: nat): Time {
    var now := (clock + nsec / 100) % U64;
    Time(now / TICKS_PER_SEC, now % TICKS_PER_SEC * 100 + nsec % 100)
  }

  /** The deadline is always normal, and it is the right instant exactly when the tick counter holds it;
      otherwise it is early by one turn of the counter. */
  lemma DeadlineIsExact(clock: nat, nsec: nat)
    requires clock < U64 && nsec < U64
    ensures Normal(Deadline(clock, nsec))
    ensures Ns(Deadline(clock, nsec)) == clock * 100 + nsec <==> clock + nsec / 100 < U64
    ensures clock + nsec / 100 >= U64 ==> Ns(Deadline(clock, nsec)) == clock * 100 + nsec - U64 * 100
  {
    var ticks := clock + nsec / 100;
    assert ticks % U64 == if ticks < U64 then ticks else ticks - U64;
  }

  /** The deadline `sec` seconds ahead goes through nanoseconds, cut to 64 bits. */
  function DeadlineSec(clock: nat, sec: nat): Time {
    Deadline(clock, sec * NSEC_PER_SEC % U64)
  }

  lemma DeadlineSecIsExact(clock: nat, sec: nat)
    requires clock < U64 && sec < U64
    ensures Ns(DeadlineSec(clock, sec)) == clock * 100 + sec * NSEC_PER_SEC
       <==> sec * NSEC_PER_SEC < U64 && clock + sec * TICKS_PER_SEC < U64
  {
    var nsec := sec * NSEC_PER_SEC;
    DeadlineIsExact(clock, nsec % U64);
    if nsec < U64 {
      assert nsec % U64 == nsec && nsec / 100 == sec * TICKS_PER_SEC;
    } else {
      assert nsec % U64 < U64 <= nsec;
      DeadlineIsNeverLate(clock, nsec % U64);
    }
  }

  lemma DeadlineIsNeverLate(clock: nat, nsec: nat)
    requires clock < U64 && nsec < U64
    ensures Ns(Deadline(clock, nsec)) <= clock * 100 + nsec
  {
    var ticks := clock + nsec / 100;
    assert ticks % U64 == if ticks < U64 then ticks else ticks - U64;
  }

  /** Milliseconds left at a clock reading, before they are cut to 32 bits. */
  function Millis(t: Time, clock: nat): nat {
    var future := (t.sec * 1000 + t.nsec / NSEC_PER_MSEC) % U64;
    var now := clock / TICKS_PER_MSEC;
    if future < now then 0 else future - now
  }

  function GetMilliseconds(t: Time, clock: nat): nat {
    Millis(t, clock) % U32
  }

  predicate InRange(t: Time) {
    Normal(t) && t.sec <= U64 / TICKS_PER_SEC
  }

  lemma FutureIsWholeMillis(t: Time)
    requires InRange(t)
    ensures (t.sec * 1000 + t.nsec / NSEC_PER_MSEC) % U64 == Ns(t) / NSEC_PER_MSEC
  {
    assert Ns(t) == (t.sec * 1000) * NSEC_PER_MSEC + t.nsec;
  }

  /** The whole milliseconds from a clock reading to a deadline, none if it has passed. */
  function MillisLeft(t: Time, clock: nat): nat {
    var left := Ns(t) / NSEC_PER_MSEC - clock / TICKS_PER_MSEC;
    if left < 0 then 0 else left
  }

  /** At any clock reading, what is returned are the whole milliseconds left exactly if 32 bits hold them;
      and then it is within a millisecond of the time left, and nothing once the deadline has passed. */
  lemma WaitIsWithinAMillisecond(t: Time, clock: nat)
    requires InRange(t) && clock < U64
    ensures GetMilliseconds(t, clock) == MillisLeft(t, clock)
       <==> Ns(t) / NSEC_PER_MSEC - clock / TICKS_PER_MSEC < U32
    ensures Ns(t) / NSEC_PER_MSEC - clock / TICKS_PER_MSEC < U32 ==>
      var left := Ns(t) - clock * 100;
      var wait := GetMilliseconds(t, clock) * NSEC_PER_MSEC;
      && (left >= 0 ==> left - NSEC_PER_MSEC < wait < left + NSEC_PER_MSEC)
      && (left < 0 ==> wait == 0)
  {
    FutureIsWholeMillis(t);
    assert Millis(t, clock) == MillisLeft(t, clock);
  }

  /** A deadline whose milliseconds do not fit 64 bits counts as one that is a turn of them earlier. */
  lemma FarDeadlineWraps(t: Time, clock: nat)
    requires Normal(t) && U64 <= Ns(t) / NSEC_PER_MSEC < 2 * U64
    ensures var left := Ns(t) / NSEC_PER_MSEC - U64 - clock / TICKS_PER_MSEC;
      GetMilliseconds(t, clock) == if left < 0 then 0 else left % U32
  {
    assert Ns(t) == (t.sec * 1000) * NSEC_PER_MSEC + t.nsec;
    assert Ns(t) / NSEC_PER_MSEC == t.sec * 1000 + t.nsec / NSEC_PER_MSEC;
  }

  /** The requested time in whole milliseconds, and one more exactly when the parts of the clock reading
      and of the request below a millisecond add up to another one. */
  function Requested(clock: nat, nsec: nat): nat {
    nsec / NSEC_PER_MSEC +
    if clock % TICKS_PER_MSEC * 100 + nsec % NSEC_PER_MSEC >= NSEC_PER_MSEC then 1 else 0
  }

  /** At the reading the deadline was made from, what is returned is the requested time, exactly if 32
      bits hold it; a longer request waits for its remainder only. */
  lemma WaitKeepsItsLength(clock: nat, nsec: nat)
    requires clock < U64 && nsec < U64 && clock + nsec / 100 < U64
    ensures GetMilliseconds(Deadline(clock, nsec), clock) == Requested(clock, nsec)
       <==> Requested(clock, nsec) < U32
    ensures GetMilliseconds(Deadline(clock, nsec), clock) == Requested(clock, nsec) % U32
  {
    DeadlineInMillis(clock, nsec);
    FutureIsWholeMillis(Deadline(clock, nsec));
    assert Millis(Deadline(clock, nsec), clock) == Requested(clock, nsec);
  }

  lemma DeadlineInMillis(clock: nat, nsec: nat)
    requires clock < U64 && nsec < U64 && clock + nsec / 100 < U64
    ensures InRange(Deadline(clock, nsec))
    ensures Ns(Deadline(clock, nsec)) / NSEC_PER_MSEC == clock / TICKS_PER_MSEC + Requested(clock, nsec)
  {
    DeadlineIsExact(clock, nsec);
    var q, r := clock / TICKS_PER_MSEC, clock % TICKS_PER_MSEC;
    var m, l := nsec / NSEC_PER_MSEC, nsec % NSEC_PER_MSEC;
    assert Ns(Deadline(clock, nsec)) == (q + m) * NSEC_PER_MSEC + (r * 100 + l);
  }

  function CmpTimespec(a: Time, b: Time): int {
    if a.sec > b.sec || (a.sec == b.sec && a.nsec > b.nsec) then 1
    else if a.sec < b.sec || (a.sec == b.sec && a.nsec < b.nsec) then -1
    else 0
  }

  /** On normal times the comparison has the sign of the true difference. */
  lemma CmpIsSignOfDifference(a: Time, b: Time)
    requires Normal(a) && Normal(b)
    ensures CmpTimespec(a, b) == 1 <==> Ns(a) > Ns(b)
    ensures CmpTimespec(a, b) == 0 <==> Ns(a) == Ns(b)
    ensures CmpTimespec(a, b) == -1 <==> Ns(a) < Ns(b)
  {
    if a.sec > b.sec {
      assert a.sec >= b.sec + 1;
    }
  }

  /** Every operation of the difference wraps at 64 bits. */
  function DiffTimespec(a: Time, b: Time): nat {
    ((((a.sec - b.sec) % U64) * NSEC_PER_SEC % U64 + a.nsec) % U64 - b.nsec) % U64
  }

  lemma ModOfProduct(x: int, y: nat)
    ensures (x % U64) * y % U64 == x * y % U64
  {
    var k := x / U64;
    assert x * y == (x % U64) * y + (k * y) * U64;
    ModOfMultiple((x % U64) * y, k * y);
  }

  lemma ModOfMultiple(x: int, k: int)
    ensures (x + k * U64) % U64 == x % U64
  {
  }

  lemma ModOfSum(x: int, y: int)
    ensures (x % U64 + y) % U64 == (x + y) % U64
  {
    ModOfMultiple(x % U64 + y, x / U64);
  }

  /** The wraps cancel: the difference is right exactly when it is not negative and 64 bits hold it. */
  lemma DiffIsExact(a: Time, b: Time)
    ensures DiffTimespec(a, b) == (Ns(a) - Ns(b)) % U64
    ensures DiffTimespec(a, b) == Ns(a) - Ns(b) <==> 0 <= Ns(a) - Ns(b) < U64
  {
    var d := (a.sec - b.sec) * NSEC_PER_SEC;
    ModOfProduct(a.sec - b.sec, NSEC_PER_SEC);
    ModOfSum(d, a.nsec);
    ModOfSum(d + a.nsec, 0 - b.nsec);
    assert d + a.nsec - b.nsec == Ns(a) - Ns(b);
  }

  /** The structure that the C functions write through a pointer. */
  class TimespecCell {
    var tvSec: nat
    var tvNsec: nat

    function Abs(): Time
      reads this
    {
      Time(tvSec, tvNsec)
    }

    /** Leaves a normal time, the requested instant exactly if the tick counter holds it. */
    method SetTimespecNsec(clock: nat, nsec: nat)
      requires clock < U64 && nsec < U64
      modifies this
      ensures Normal(Abs()) && Abs() == Deadline(clock, nsec)
      ensures Ns(Abs()) == clock * 100 + nsec <==> clock + nsec / 100 < U64
    {
      DeadlineIsExact(clock, nsec);
      var now := (clock + nsec / 100) % U64;
      tvSec := now / TICKS_PER_SEC;
      tvNsec := now % TICKS_PER_SEC * 100 + nsec % 100;
    }

    /** The same for whole seconds, which must fit 64 bits as nanoseconds too. */
    method SetTimespec(clock: nat, sec: nat)
      requires clock < U64 && sec < U64
      modifies this
      ensures Normal(Abs()) && Abs() == DeadlineSec(clock, sec)
      ensures Ns(Abs()) == clock * 100 + sec * NSEC_PER_SEC
         <==> sec * NSEC_PER_SEC < U64 && clock + sec * TICKS_PER_SEC < U64
    {
      DeadlineSecIsExact(clock, sec);
      SetTimespecNsec(clock, sec * NSEC_PER_SEC % U64);
    }
  }
}
