/** The free-running 64-bit counter read as two 32-bit words, and the millisecond timeouts built on it. */
module Timer {
  import opened Arith

  const WORD: nat := 0x1_0000_0000
  const DWORD: nat := WORD * WORD

  /** One tick is 40 ns. */
  const PERIOD_NS: nat := 40
  const MS_NS: nat := 1_000_000

  /** The counter at each register read of one call, in the order of the reads. */
  type Clock = nat -> nat

  /** Time does not run backwards, and the counter does not wrap (it would take over 23000 years). */
  ghost predicate Rises(clock: Clock) {
    && (forall i: nat, j: nat :: i <= j ==> clock(i) <= clock(j))
    && (forall i: nat :: clock(i) < DWORD)
  }

  function HighWord(c: nat): nat {
    c / WORD
  }

  function LowWord(c: nat): nat {
    c % WORD
  }

  lemma Words(c: nat)
    ensures c == LowWord(c) + HighWord(c) * WORD && LowWord(c) < WORD
  {
  }

  /** bmdev_timer_get_cycle: high, low, high again, and as long as the high words differ another high and low.
      It always ends, with a value between the counter at entry and at exit; if fewer than 2^32 ticks pass
      there is at most one extra round, and the value is the counter at one of the reads. */
  method GetCycle(clock: Clock) returns (cycle: nat, taken: nat)
    requires Rises(clock)
    ensures taken >= 3 && clock(0) <= cycle <= clock(taken - 1)
    ensures clock(4) - clock(0) < WORD ==> taken <= 5 && exists i: nat :: i < taken && cycle == clock(i)
  {
    var high := HighWord(clock(0));
    var low := LowWord(clock(1));
    var newHigh := HighWord(clock(2));
    taken := 3;
    while newHigh != high
      invariant taken >= 3
      invariant high <= newHigh == HighWord(clock(if taken == 3 then 2 else taken - 2))
      invariant low == LowWord(clock(if taken == 3 then 1 else taken - 1))
      invariant taken == 3 ==> high == HighWord(clock(0))
      invariant taken > 3 ==> HighWord(clock(0)) < high
      invariant clock(4) - clock(0) < WORD ==> taken == 3 || (taken == 5 && newHigh == high == HighWord(clock(4)))
      decreases WORD - high
    {
      Advance(clock, taken);
      high := newHigh;
      newHigh := HighWord(clock(taken));
      low := LowWord(clock(taken + 1));
      taken := taken + 2;
    }
    cycle := low + high * WORD;
    Settled(clock, taken, high, low);
  }

  lemma HighMonotone(a: nat, b: nat)
    requires a <= b
    ensures HighWord(a) <= HighWord(b)
    ensures b - a < WORD ==> HighWord(b) <= HighWord(a) + 1
  {
  }

  /** A round entered because the high word moved cannot see it move again within 2^32 ticks. */
  lemma Advance(clock: Clock, taken: nat)
    requires Rises(clock) && taken >= 3
    ensures HighWord(clock(0)) <= HighWord(clock(2)) <= HighWord(clock(3)) <= HighWord(clock(4))
    ensures HighWord(clock(taken - 2)) <= HighWord(clock(taken)) < WORD
    ensures taken == 3 ==> HighWord(clock(2)) <= HighWord(clock(taken))
    ensures clock(4) - clock(0) < WORD ==> HighWord(clock(4)) <= HighWord(clock(0)) + 1
  {
    HighMonotone(clock(0), clock(2));
    HighMonotone(clock(2), clock(3));
    HighMonotone(clock(3), clock(4));
    HighMonotone(clock(0), clock(4));
    HighMonotone(clock(taken - 2), clock(taken));
    Words(clock(taken));
  }

  lemma Settled(clock: Clock, taken: nat, high: nat, low: nat)
    requires Rises(clock) && taken >= 3
    requires high == HighWord(clock(if taken == 3 then 2 else taken - 2))
    requires low == LowWord(clock(if taken == 3 then 1 else taken - 1))
    requires taken == 3 ==> high == HighWord(clock(0))
    requires taken > 3 ==> HighWord(clock(0)) < high
    requires clock(4) - clock(0) < WORD ==> taken == 3 || (taken == 5 && high == HighWord(clock(4)))
    ensures clock(0) <= low + high * WORD <= clock(taken - 1)
    ensures clock(4) - clock(0) < WORD ==> taken <= 5 && exists i: nat :: i < taken && low + high * WORD == clock(i)
  {
    if taken == 3 {
      HighMonotone(clock(0), clock(1));
      HighMonotone(clock(1), clock(2));
      Words(clock(1));
      assert low + high * WORD == clock(1);
    } else {
      Words(clock(0));
      Words(clock(taken - 1));
      HighMonotone(clock(taken - 2), clock(taken - 1));
      MulMono(HighWord(clock(0)) + 1, high, WORD);
      MulMono(high, HighWord(clock(taken - 1)), WORD);
      if clock(4) - clock(0) < WORD {
        assert low + high * WORD == clock(4);
      }
    }
  }

  /** bmdev_timer_get_time_ms: the product is a 64-bit one. */
  function TimeMs(cycle: nat): nat {
    cycle * PERIOD_NS % DWORD / MS_NS
  }

  /** What a (64-bit unsigned) result becomes as an int. */
  function ToInt(x: nat): (r: int)
    ensures -0x8000_0000 <= r < 0x8000_0000 && (x - r) % WORD == 0
  {
    var w := x % WORD;
    if w < 0x8000_0000 then w else w - WORD
  }

  class Context {
    var timestamp: nat
    var timeout: nat
    ghost var began: nat   // the counter when the timer was started

    constructor ()
    {
      timestamp, timeout, began := 0, 0, 0;
    }

    /** The timer was started at counter value `began`. */
    ghost predicate Running()
      reads this
    {
      began * PERIOD_NS < DWORD && timestamp == TimeMs(began) && timeout < DWORD
    }

    /** bmdrv_timer_start. */
    method Start(clock: Clock, limit: int)
      requires Rises(clock) && -0x8000_0000 <= limit < 0x8000_0000
      requires forall i: nat :: clock(i) * PERIOD_NS < DWORD
      modifies this
      ensures Running() && timeout == limit % DWORD && clock(0) <= began
    {
      var cycle, taken := GetCycle(clock);
      began := cycle;
      timestamp := TimeMs(cycle);
      timeout := limit % DWORD;
      MulMono(cycle, clock(taken - 1), PERIOD_NS);
    }

    /** bmdrv_timer_remain.  For a timeout of at least 0: 0 only when strictly more than the timeout has
        really passed between the start and the return, and always once a further millisecond had passed
        before the call.  A negative timeout was stored as a huge number, which no time exceeds; what comes
        back is its distance to the elapsed time, cut down to an int. */
    method Remain(clock: Clock) returns (left: int, taken: nat, ghost cycle: nat)
      requires Running() && Rises(clock) && began <= clock(0)
      requires forall i: nat :: clock(i) * PERIOD_NS < DWORD
      ensures taken >= 3 && (clock(4) - clock(0) < WORD ==> taken <= 5)
      ensures clock(0) <= cycle <= clock(taken - 1)
      ensures timeout < 0x8000_0000 ==> 0 <= left <= Max(timeout, 1)
      ensures var elapsed := TimeMs(cycle) - TimeMs(began);
              timeout < 0x8000_0000 ==>
                && (elapsed < timeout <==> left == timeout - elapsed) && (elapsed == timeout ==> left == 1) && (elapsed > timeout ==> left == 0)
      ensures timeout < 0x8000_0000 && TimeMs(cycle) - TimeMs(began) < timeout ==>
                (left - 1) * MS_NS < timeout * MS_NS - (cycle - began) * PERIOD_NS < (left + 1) * MS_NS
      ensures timeout < 0x8000_0000 && left == 0 ==> (clock(taken - 1) - began) * PERIOD_NS > timeout * MS_NS
      ensures timeout < 0x8000_0000 && (clock(0) - began) * PERIOD_NS >= (timeout + 1) * MS_NS ==> left == 0
      ensures timeout >= DWORD - 0x8000_0000 ==>
                -0x8000_0000 <= left < 0x8000_0000 && (timeout - (TimeMs(cycle) - TimeMs(began)) - left) % WORD == 0
    {
      var now;
      now, taken := GetCycle(clock);
      cycle := now;
      var elapsed := (TimeMs(now) - timestamp) % DWORD;
      ghost var last := clock(taken - 1);
      ElapsedMs(began, now, last, timeout);
      if elapsed == timeout {
        left := 1;
      } else if elapsed > timeout {
        left := 0;
      } else {
        left := ToInt(timeout - elapsed);
      }
    }
  }

  /** Both timestamps are rounded down, yet a difference above `t` means more than `t` milliseconds, and
      `t + 1` milliseconds always show as a difference above `t`. */
  lemma ElapsedMs(began: nat, now: nat, last: nat, t: nat)
    requires began <= now <= last && now * PERIOD_NS <= last * PERIOD_NS < DWORD
    ensures 0 <= TimeMs(now) - TimeMs(began) == (TimeMs(now) - TimeMs(began)) % DWORD
    ensures TimeMs(now) - TimeMs(began) > t ==> (last - began) * PERIOD_NS >= (now - began) * PERIOD_NS > t * MS_NS
    ensures (now - began) * PERIOD_NS >= (t + 1) * MS_NS ==> TimeMs(now) - TimeMs(began) > t
    ensures var d := TimeMs(now) - TimeMs(began); (d - 1) * MS_NS < (now - began) * PERIOD_NS < (d + 1) * MS_NS
  {
  }
}
