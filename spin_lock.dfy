// Model of the test-and-test-and-set spin lock (benches/mutex/spin_lock.rs).
// The lock is one boolean flag. `acquire` swaps `true` into it whenever it
// last saw the flag clear, backs off with a `SpinWait` after every attempt
// that did not acquire, and re-reads the flag before trying again.
//
// Other threads are represented by `env`: `env[k]` is the value they have
// left in the flag just before this thread's k-th atomic access (a swap or a
// load). An acquisition whose `env` runs out while it is still retrying
// reports that it did not (yet) acquire.
module SpinLock {
  import opened Common
  import opened Backoff

  /** One step of `acquire` as seen from outside: an atomic access with the
      value it observed, or a backoff pause. */
  datatype Access = Swap(saw: bool) | Load(saw: bool) | Pause(pause: Pause)

  /** How a run of `acquire` ended, and the accesses and pauses it made. */
  datatype Outcome = Outcome(acquired: bool, trace: seq<Access>)

  /** The backoff between attempts (spin_lock.rs lines 44-47): `yield_now`,
      and when the counter is exhausted, `reset` and `yield_now` once more.
      It always pauses, and keeps a counter of at most 11 within 1..11. */
  function BackoffStep(counter: nat): (s: Step)
    ensures s.ok && s.pause.Some?
    ensures counter <= Limit + 1 ==> 1 <= s.counter <= Limit + 1
    ensures counter <= Limit ==> s == YieldStep(counter)
    ensures counter > Limit ==> s == YieldStep(0)
  {
    var first := YieldStep(counter);
    if first.ok then first else YieldStep(0)
  }

  /** The loop of `acquire` (lines 39-50), one iteration per call, from the
      top of an iteration in which the last observed flag value is `locked`,
      the backoff counter is `counter`, the next access observes `env[k]`,
      and `acc` holds what has been done so far. */
  function Spin(env: seq<bool>, k: nat, locked: bool, counter: nat, acc: seq<Access>): (r: Outcome)
    requires k <= |env|
    ensures |acc| <= |r.trace|
    ensures r.acquired ==> |r.trace| > |acc| && r.trace[|r.trace| - 1] == Swap(false)
    decreases |env| - k
  {
    if !locked && k == |env| then Outcome(false, acc)
    else if !locked && !env[k] then Outcome(true, acc + [Swap(false)])
    else
      var k1 := if locked then k else k + 1;
      var acc1 := if locked then acc else acc + [Swap(true)];
      var b := BackoffStep(counter);
      var acc2 := acc1 + [Pause(b.pause.value)];
      if k1 == |env| then Outcome(false, acc2)
      else Spin(env, k1 + 1, env[k1], b.counter, acc2 + [Load(env[k1])])
  }

  /** A whole run of `acquire`: the flag is first assumed clear and the
      `SpinWait` starts at zero (lines 36-37). */
  function Acquisition(env: seq<bool>): Outcome
  {
    Spin(env, 0, false, 0, [])
  }

  /** `acquire` returned: its last access was a swap that found the flag clear. */
  predicate Acquired(t: seq<Access>)
  {
    |t| > 0 && t[|t| - 1] == Swap(false)
  }

  /** What an access observed of the flag (nothing for a pause). */
  function Seen(a: Access): seq<bool>
  {
    if a.Pause? then [] else [a.saw]
  }

  /** The values observed by the atomic accesses of a trace, in order. */
  function Observed(t: seq<Access>): seq<bool>
  {
    if t == [] then [] else Observed(t[..|t| - 1]) + Seen(t[|t| - 1])
  }

  /** Every busy-wait of a trace is a burst of at most 8 hints. */
  predicate ShortSpins(t: seq<Access>)
  {
    forall i | 0 <= i < |t| && t[i].Pause? && t[i].pause.Hints? :: t[i].pause.count <= 8
  }

  /** `e` may come right after `t` under the test-and-test-and-set discipline. */
  predicate Follows(t: seq<Access>, e: Access)
  {
    && (t == [] ==> !e.Load?)
    && (t != [] ==> t[|t| - 1] != Swap(false))
    && (t != [] && e.Swap? ==> t[|t| - 1] == Load(false))
    && (t != [] && e.Load? ==> t[|t| - 1].Pause?)
  }

  /** Test-and-test-and-set discipline (lines 36, 40, 49): the first access
      is not a load; every swap is the first access, made under the
      assumption that the flag is clear, or comes right after a load that saw
      the flag clear; every load comes right after a backoff pause; and a swap
      that found the flag clear is the last access. */
  ghost predicate Disciplined(t: seq<Access>)
  {
    && (|t| > 0 ==> !t[0].Load?)
    && forall j {:trigger Adjacent(t, j)} | 0 < j < |t| :: Adjacent(t, j)
  }

  /** The access at `j` may follow the one at `j - 1`. */
  predicate Adjacent(t: seq<Access>, j: nat)
    requires 0 < j < |t|
  {
    && (t[j].Swap? ==> t[j - 1] == Load(false))
    && (t[j].Load? ==> t[j - 1].Pause?)
    && t[j - 1] != Swap(false)
  }

  lemma DisciplinedSnoc(t: seq<Access>, e: Access)
    requires Disciplined(t) && Follows(t, e)
    ensures Disciplined(t + [e])
  {
    var t' := t + [e];
    assert t'[0] == if t == [] then e else t[0];
    forall j | 0 < j < |t'|
      ensures Adjacent(t', j)
    {
      assert t'[j - 1] == t[j - 1];
      if j < |t| {
        assert t'[j] == t[j] && Adjacent(t, j);
      } else {
        assert t'[j] == e && j - 1 == |t| - 1;
      }
    }
  }

  lemma ObservedSnoc(t: seq<Access>, e: Access)
    ensures Observed(t + [e]) == Observed(t) + Seen(e)
  {
    assert (t + [e])[..|t|] == t;
  }

  lemma ShortSpinsSnoc(t: seq<Access>, e: Access)
    requires ShortSpins(t)
    requires e.Pause? && e.pause.Hints? ==> e.pause.count <= 8
    ensures ShortSpins(t + [e])
  {
    var t' := t + [e];
    forall i | 0 <= i < |t'| && t'[i].Pause? && t'[i].pause.Hints?
      ensures t'[i].pause.count <= 8
    {
      if i < |t| {
        assert t'[i] == t[i];
      }
    }
  }

  /** The backoff's busy-waits are short: `PauseAt` hints are at most 8. */
  lemma BackoffPauseShort(counter: nat)
    ensures var p := BackoffStep(counter).pause.value;
      p.Hints? ==> p.count <= 8
  {
    var c := BackoffStep(counter).counter;
    if BackoffStep(counter).pause.value.Hints? {
      assert c <= 3;
      assert Pow2(c) <= 8 by {
        if c == 3 {
          assert Pow2(3) == 8;
        } else if c == 2 {
          assert Pow2(2) == 4;
        } else if c == 1 {
          assert Pow2(1) == 2;
        }
      }
    }
  }

  /** What holds of the work done before the top of an iteration. */
  ghost predicate Before(env: seq<bool>, k: nat, locked: bool, counter: nat, acc: seq<Access>)
  {
    && k <= |env|
    && counter <= Limit + 1
    && Disciplined(acc)
    && ShortSpins(acc)
    && Observed(acc) == env[..k]
    && (acc == [] ==> k == 0 && !locked)
    && (acc != [] ==> acc[|acc| - 1] == Load(locked))
  }

  /** What `acquire` promises of a finished run against `env`. */
  ghost predicate Promised(env: seq<bool>, r: Outcome)
  {
    && Disciplined(r.trace)
    && ShortSpins(r.trace)
    && (r.acquired <==> Acquired(r.trace))
    && Observed(r.trace) <= env
    && (!r.acquired ==> Observed(r.trace) == env)
  }

  /** The swap and backoff of an iteration that did not acquire, given as the
      trace and flag position after them. */
  function AfterBackoff(env: seq<bool>, k: nat, locked: bool, counter: nat, acc: seq<Access>): (nat, seq<Access>)
    requires k <= |env|
    requires locked || k < |env|
  {
    var k1 := if locked then k else k + 1;
    var acc1 := if locked then acc else acc + [Swap(true)];
    (k1, acc1 + [Pause(BackoffStep(counter).pause.value)])
  }

  /** A swap that finds the flag set keeps the discipline and observes one
      more value. */
  lemma SwapSetKeeps(env: seq<bool>, k: nat, counter: nat, acc: seq<Access>)
    requires Before(env, k, false, counter, acc) && k < |env| && env[k]
    ensures var t := acc + [Swap(true)];
      Disciplined(t) && ShortSpins(t) && Observed(t) == env[..k + 1]
  {
    DisciplinedSnoc(acc, Swap(true));
    ShortSpinsSnoc(acc, Swap(true));
    ObservedSnoc(acc, Swap(true));
    assert env[..k + 1] == env[..k] + [true];
  }

  /** A backoff pause after anything but an acquiring swap keeps the
      discipline and observes nothing. */
  lemma PauseKeeps(t: seq<Access>, counter: nat)
    requires Disciplined(t) && ShortSpins(t) && (t != [] ==> t[|t| - 1] != Swap(false))
    ensures var p := Pause(BackoffStep(counter).pause.value);
      Disciplined(t + [p]) && ShortSpins(t + [p]) && Observed(t + [p]) == Observed(t)
  {
    var p := Pause(BackoffStep(counter).pause.value);
    BackoffPauseShort(counter);
    DisciplinedSnoc(t, p);
    ShortSpinsSnoc(t, p);
    ObservedSnoc(t, p);
    assert Observed(t) + Seen(p) == Observed(t);
  }

  /** An attempt that did not acquire, followed by a backoff, keeps the
      promises and observes one more value when it swapped. */
  lemma BackoffKeeps(env: seq<bool>, k: nat, locked: bool, counter: nat, acc: seq<Access>)
    requires Before(env, k, locked, counter, acc)
    requires locked || (k < |env| && env[k])
    ensures var after := AfterBackoff(env, k, locked, counter, acc);
      && after.0 <= |env| && Disciplined(after.1) && ShortSpins(after.1)
      && Observed(after.1) == env[..after.0] && after.1 != [] && after.1[|after.1| - 1].Pause?
  {
    var acc1 := if locked then acc else acc + [Swap(true)];
    if !locked {
      SwapSetKeeps(env, k, counter, acc);
    }
    PauseKeeps(acc1, counter);
  }

  /** The load that ends an iteration leads to the top of the next one. */
  lemma LoadKeeps(env: seq<bool>, k1: nat, acc2: seq<Access>, counter: nat)
    requires k1 < |env| && counter <= Limit + 1
    requires Disciplined(acc2) && ShortSpins(acc2) && Observed(acc2) == env[..k1]
    requires acc2 != [] && acc2[|acc2| - 1].Pause?
    ensures Before(env, k1 + 1, env[k1], counter, acc2 + [Load(env[k1])])
  {
    var l := Load(env[k1]);
    DisciplinedSnoc(acc2, l);
    ShortSpinsSnoc(acc2, l);
    ObservedSnoc(acc2, l);
    assert env[..k1 + 1] == env[..k1] + [env[k1]];
  }

  /** A swap that finds the flag clear ends the run with every promise kept. */
  lemma SwapClearKeeps(env: seq<bool>, k: nat, counter: nat, acc: seq<Access>)
    requires Before(env, k, false, counter, acc)
    requires k < |env| && !env[k]
    ensures Promised(env, Outcome(true, acc + [Swap(false)]))
  {
    DisciplinedSnoc(acc, Swap(false));
    ShortSpinsSnoc(acc, Swap(false));
    ObservedSnoc(acc, Swap(false));
    assert env[..k + 1] == env[..k] + [false];
  }

  /** An iteration that did not acquire ends after its backoff when `env`
      is used up, and otherwise continues with a load. */
  lemma SpinStep(env: seq<bool>, k: nat, locked: bool, counter: nat, acc: seq<Access>)
    requires k <= |env| && (locked || (k < |env| && env[k]))
    ensures var after := AfterBackoff(env, k, locked, counter, acc);
      Spin(env, k, locked, counter, acc)
        == if after.0 == |env| then Outcome(false, after.1)
           else Spin(env, after.0 + 1, env[after.0], BackoffStep(counter).counter, after.1 + [Load(env[after.0])])
  {
  }

  /** The loop only ever adds to what was done: the trace of a run from any
      iteration begins with everything done before it. */
  lemma {:induction false} SpinExtends(env: seq<bool>, k: nat, locked: bool, counter: nat, acc: seq<Access>)
    requires k <= |env|
    ensures acc <= Spin(env, k, locked, counter, acc).trace
    decreases |env| - k
  {
    if !locked && k == |env| {
    } else if !locked && !env[k] {
    } else {
      var after := AfterBackoff(env, k, locked, counter, acc);
      SpinStep(env, k, locked, counter, acc);
      if after.0 < |env| {
        var next := after.1 + [Load(env[after.0])];
        SpinExtends(env, after.0 + 1, env[after.0], BackoffStep(counter).counter, next);
        assert acc <= next;
      }
    }
  }

  /** Running the loop from any reachable iteration keeps every promise. */
  lemma {:induction false} SpinKeepsPromises(env: seq<bool>, k: nat, locked: bool, counter: nat, acc: seq<Access>)
    requires Before(env, k, locked, counter, acc)
    ensures Promised(env, Spin(env, k, locked, counter, acc))
    decreases |env| - k
  {
    if !locked && k == |env| {
      assert env[..k] == env;
    } else if !locked && !env[k] {
      SwapClearKeeps(env, k, counter, acc);
    } else {
      var after := AfterBackoff(env, k, locked, counter, acc);
      BackoffKeeps(env, k, locked, counter, acc);
      SpinStep(env, k, locked, counter, acc);
      if after.0 == |env| {
        assert env[..after.0] == env;
      } else {
        var c := BackoffStep(counter).counter;
        LoadKeeps(env, after.0, after.1, c);
        SpinKeepsPromises(env, after.0 + 1, env[after.0], c, after.1 + [Load(env[after.0])]);
      }
    }
  }

  /** Every run of `acquire` keeps the test-and-test-and-set discipline,
      busy-waits at most 8 hints at a time, observes `env` in order, reports
      acquisition exactly when its last swap found the flag clear, and
      observes all of `env` when it did not acquire. */
  lemma AcquisitionKeepsPromises(env: seq<bool>)
    ensures Promised(env, Acquisition(env))
  {
    assert env[..0] == [];
    SpinKeepsPromises(env, 0, false, 0, []);
  }

  /** Mutual exclusion from this thread's side: `acquire` only succeeds
      through an access that observed the flag clear, so a flag that other
      threads keep set is never acquired. */
  lemma AcquiredOnlyOnClearFlag(env: seq<bool>)
    ensures var r := Acquisition(env);
      r.acquired ==> 0 < |Observed(r.trace)| <= |env| && !env[|Observed(r.trace)| - 1]
  {
    var t := Acquisition(env).trace;
    AcquisitionKeepsPromises(env);
    if |t| > 0 {
      var n := |t| - 1;
      assert t[..n] + [t[n]] == t;
      ObservedSnoc(t[..n], t[n]);
    }
  }

  /** An uncontended `acquire` takes the lock with its first swap and does
      nothing else. */
  lemma UncontendedAcquiresAtOnce(env: seq<bool>)
    requires env != [] && !env[0]
    ensures Acquisition(env) == Outcome(true, [Swap(false)])
  {
  }

  /** Progress: if the flag is clear when observed by two consecutive
      accesses from the `k`-th on, `acquire` takes it. */
  lemma {:induction false} TwoClearObservationsAcquire(env: seq<bool>, k: nat, locked: bool, counter: nat, acc: seq<Access>, i: nat)
    requires k <= i + 1 && i + 1 < |env|
    requires !env[i] && !env[i + 1]
    requires k == i + 1 ==> !locked
    ensures Spin(env, k, locked, counter, acc).acquired
    decreases |env| - k
  {
    if !locked && !env[k] {
    } else {
      var k1 := if locked then k else k + 1;
      var b := BackoffStep(counter);
      var acc2 := (if locked then acc else acc + [Swap(true)]) + [Pause(b.pause.value)];
      TwoClearObservationsAcquire(env, k1 + 1, env[k1], b.counter, acc2 + [Load(env[k1])], i);
    }
  }

  /** From the start: two consecutive clear observations anywhere in `env`
      guarantee acquisition. */
  lemma ClearWindowAcquires(env: seq<bool>, i: nat)
    requires i + 1 < |env| && !env[i] && !env[i + 1]
    ensures Acquisition(env).acquired
  {
    TwoClearObservationsAcquire(env, 0, false, 0, [], i);
  }

  /** `pub struct Lock(AtomicBool)` */
  class Lock {
    /** The flag: true while some thread holds the lock. */
    var held: bool
    /** The critical sections run under this lock, in order; stands for the
        effect of each `f` on the data the lock protects. */
    ghost var runs: seq<ActionId>

    /** `Lock::new`: an unlocked flag. */
    constructor ()
      ensures !held && runs == []
    {
      held := false;
      runs := [];
    }

    /** `acquire` (lines 35-51). */
    method Acquire(env: seq<bool>) returns (acquired: bool, trace: seq<Access>)
      modifies this
      ensures Outcome(acquired, trace) == Acquisition(env)
      ensures acquired ==> held
      ensures !acquired && env != [] ==> held == env[|env| - 1]
      ensures !acquired && env == [] ==> held == old(held)
      ensures runs == old(runs)
    {
      var locked := false;
      var spin := new SpinWait();
      var k := 0;
      trace := [];
      while true
        invariant k <= |env|
        invariant Spin(env, k, locked, spin.counter, trace) == Acquisition(env)
        invariant k == 0 ==> held == old(held)
        invariant k > 0 ==> held == env[k - 1]
        invariant runs == old(runs)
        decreases |env| - k
      {
        if !locked {
          if k == |env| {
            return false, trace;
          }
          var prev := SwapIn(env[k]);
          k := k + 1;
          trace := trace + [Swap(prev)];
          if !prev {
            return true, trace;
          }
        }
        var pause := BackOff(spin);
        trace := trace + [Pause(pause)];
        if k == |env| {
          return false, trace;
        }
        locked := LoadFlag(env[k]);
        k := k + 1;
        trace := trace + [Load(locked)];
      }
    }

    /** `self.0.swap(true)` when the other threads have left `others` in the
        flag: returns what it found and leaves the flag set. */
    method SwapIn(others: bool) returns (prev: bool)
      modifies this
      ensures prev == others && held && runs == old(runs)
    {
      held := others;
      prev := held;
      held := true;
    }

    /** `self.0.load()` when the other threads have left `others` in the flag. */
    method LoadFlag(others: bool) returns (v: bool)
      modifies this
      ensures v == others && held == others && runs == old(runs)
    {
      held := others;
      v := held;
    }

    /** The backoff between attempts (lines 44-47) on the thread's own
        `SpinWait`; returns the pause it performed. */
    static method BackOff(spin: SpinWait) returns (pause: Pause)
      modifies spin
      ensures BackoffStep(old(spin.counter)) == Step(true, spin.counter, Some(pause))
    {
      var ok, p := spin.YieldNow();
      if !ok {
        spin.Reset();
        ok, p := spin.YieldNow();
      }
      pause := p.value;
    }

    /** `release`: stores false. */
    method Release()
      modifies this
      ensures !held && runs == old(runs)
    {
      held := false;
    }

    /** `with`: acquire, run `f` once, release. Callable when the other
        threads eventually leave the flag clear at one of this thread's swaps. */
    method With(f: ActionId, env: seq<bool>)
      requires Acquisition(env).acquired
      modifies this
      ensures runs == old(runs) + [f]
      ensures !held
    {
      var acquired, _ := Acquire(env);
      runs := runs + [f];
      Release();
    }
  }
}
