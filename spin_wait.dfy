// Model of `SpinWait` (benches/mutex/util/spin_wait.rs): a bounded counter
// that the spin lock uses between retries. Each successful `yield_now`
// bumps the counter and either busy-waits with `1 << counter` processor
// hints (while the counter is at most 3) or yields the thread to the
// operating system; once the counter is above 10 it reports exhaustion.
module Backoff {
  import opened Common

  /** `yield_now` gives up once the counter is above this value. */
  const Limit: nat := 10

  /** The counter value from which busy-waiting gives way to OS yields. */
  const SpinLimit: nat := 3

  /** What one successful `yield_now` does to the processor: a burst of
      `spin_loop_hint`s, or one `thread::yield_now` (`Sleep(0)` on Windows). */
  datatype Pause = Hints(count: nat) | OsYield

  /** One `yield_now` call: its return value, the counter afterwards, and the
      pause it performed (none when it returned false). */
  datatype Step = Step(ok: bool, counter: nat, pause: Option<Pause>)

  /** The pause a successful call performs once the counter has been
      incremented to `counter`. */
  function PauseAt(counter: nat): (p: Pause)
    requires counter >= 1
    ensures p.Hints? <==> counter <= SpinLimit
    ensures p.Hints? ==> p.count >= 2 && p.count == Pow2(counter)
  {
    if counter <= SpinLimit then Hints(Pow2(counter)) else OsYield
  }

  /** `yield_now` as a function of the counter. */
  function YieldStep(counter: nat): (s: Step)
    ensures s.ok <==> counter <= Limit
    ensures s.ok ==> s.counter == counter + 1 && s.pause == Some(PauseAt(s.counter))
    ensures !s.ok ==> s.counter == counter && s.pause == None
    ensures counter <= Limit + 1 ==> s.counter <= Limit + 1
  {
    if counter > Limit then Step(false, counter, None)
    else Step(true, counter + 1, Some(PauseAt(counter + 1)))
  }

  /** The return values of `n` consecutive `yield_now` calls from `counter`. */
  function Results(counter: nat, n: nat): seq<bool>
    decreases n
  {
    if n == 0 then []
    else
      var s := YieldStep(counter);
      [s.ok] + Results(s.counter, n - 1)
  }

  /** The counter after `n` consecutive `yield_now` calls from `counter`. */
  function CounterAfter(counter: nat, n: nat): nat
    decreases n
  {
    if n == 0 then counter else CounterAfter(YieldStep(counter).counter, n - 1)
  }

  /** However many times `yield_now` is called, a counter that starts at most
      11 stays at most 11. */
  lemma {:induction false} CounterStaysBounded(counter: nat, n: nat)
    requires counter <= Limit + 1
    ensures CounterAfter(counter, n) <= Limit + 1
    decreases n
  {
    if n > 0 {
      CounterStaysBounded(YieldStep(counter).counter, n - 1);
    }
  }

  /** From counter `c` (at most 11), exactly `11 - c` calls return true and
      the next one returns false. */
  lemma {:induction false} ExhaustedAfter(counter: nat)
    requires counter <= Limit + 1
    ensures Results(counter, Limit + 2 - counter) == Repeat(true, Limit + 1 - counter) + [false]
    decreases Limit + 1 - counter
  {
    if counter <= Limit {
      ExhaustedAfter(counter + 1);
      assert Results(counter, Limit + 2 - counter)
          == [true] + Results(counter + 1, Limit + 1 - counter);
    }
  }

  /** After `new` or `reset`, exactly eleven calls return true before one
      returns false. */
  lemma ElevenYieldsFromReset()
    ensures Results(0, 12) == Repeat(true, 11) + [false]
  {
    ExhaustedAfter(0);
  }

  /** Once exhausted, `yield_now` keeps returning false without changing the
      counter. */
  lemma {:induction false} ExhaustionIsStable(counter: nat, n: nat)
    requires counter > Limit
    ensures Results(counter, n) == Repeat(false, n)
    ensures CounterAfter(counter, n) == counter
  {
    if n > 0 {
      ExhaustionIsStable(counter, n - 1);
    }
  }

  /** `pub struct SpinWait(usize)`: the counter is updated in place. */
  class SpinWait {
    var counter: nat

    /** `SpinWait::new` */
    constructor ()
      ensures counter == 0
    {
      counter := 0;
    }

    /** `reset` */
    method Reset()
      modifies this
      ensures counter == 0
    {
      counter := 0;
    }

    /** `yield_now`: returns whether it paused; `pause` is the processor
        effect it had (the hints or the OS yield). */
    method YieldNow() returns (ok: bool, pause: Option<Pause>)
      modifies this
      ensures Step(ok, counter, pause) == YieldStep(old(counter))
      ensures ok <==> old(counter) <= Limit
      ensures counter == if ok then old(counter) + 1 else old(counter)
    {
      if counter > Limit {
        return false, None;
      }
      counter := counter + 1;
      if counter <= SpinLimit {
        pause := Some(Hints(Pow2(counter)));
      } else {
        pause := Some(OsYield);
      }
      ok := true;
    }
  }
}
