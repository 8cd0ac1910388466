// Model of the lock from the `flume` channel crate (benches/mutex/flume_lock.rs).
// The lock is one boolean flag. `acquire` makes rounds of up to 10 swap
// attempts, yielding the thread after each failed one, and sleeps between
// rounds for 2^i nanoseconds, with i starting at 4 and growing by one per
// round.
//
// Other threads are represented by `env`: `env[k]` is the value they have
// left in the flag just before this thread's k-th swap. An acquisition whose
// `env` runs out reports that it did not (yet) acquire.
module FlumeLock {
  import opened Common

  /** The exponent of the first sleep (line 39). */
  const FirstExponent: nat := 4

  /** Swap attempts per round (line 41). */
  const RoundLength: nat := 10

  /** One step of `acquire` as seen from outside: a swap with the value it
      found, a `thread::yield_now`, or a `thread::sleep` of `nanos`. */
  datatype Access = Swap(saw: bool) | Yield | Sleep(nanos: nat)

  /** How a run of `acquire` ended, and what it did. */
  datatype Outcome = Outcome(acquired: bool, trace: seq<Access>)

  /** The loops of `acquire` (lines 40-49), one attempt per call: `tries`
      attempts of the current round are done (10 means the round is over and
      the sleep is due), the exponent is `exp`, the next swap observes
      `env[k]`, and `acc` holds what has been done so far. */
  function Rounds(env: seq<bool>, k: nat, tries: nat, exp: nat, acc: seq<Access>): (r: Outcome)
    requires k <= |env| && tries <= RoundLength
    ensures |acc| <= |r.trace|
    ensures r.acquired ==> |r.trace| > |acc| && r.trace[|r.trace| - 1] == Swap(false)
    decreases |env| - k, if tries == RoundLength then 1 else 0
  {
    if tries == RoundLength then Rounds(env, k, 0, exp + 1, acc + [Sleep(Pow2(exp))])
    else if k == |env| then Outcome(false, acc)
    else if !env[k] then Outcome(true, acc + [Swap(false)])
    else Rounds(env, k + 1, tries + 1, exp, acc + [Swap(true), Yield])
  }

  /** A whole run of `acquire`. */
  function Acquisition(env: seq<bool>): Outcome
  {
    Rounds(env, 0, 0, FirstExponent, [])
  }

  /** Reference definition: what the `j`-th failed swap (counting from 0)
      leads to — a yield, and when it ends a round, that round's sleep. */
  function Attempt(j: nat): seq<Access>
  {
    [Swap(true), Yield]
      + (if j % RoundLength == RoundLength - 1 then [Sleep(Pow2(FirstExponent + j / RoundLength))] else [])
  }

  /** Reference definition: the first `n` failed swaps and what follows them. */
  function Failed(n: nat): seq<Access>
  {
    if n == 0 then [] else Failed(n - 1) + Attempt(n - 1)
  }

  /** The index of the first clear observation, or |env| when there is none. */
  function FirstClear(env: seq<bool>): (m: nat)
    ensures m <= |env|
    ensures forall i | 0 <= i < m :: env[i]
    ensures m < |env| ==> !env[m]
  {
    if env == [] || !env[0] then 0 else 1 + FirstClear(env[1..])
  }

  /** Reference definition of a whole run: every swap up to the first clear
      observation fails, and that one acquires. */
  function Expected(env: seq<bool>): Outcome
  {
    var m := FirstClear(env);
    if m < |env| then Outcome(true, Failed(m) + [Swap(false)]) else Outcome(false, Failed(m))
  }

  /** Position `t` of round `r` is attempt `RoundLength * r + t`. */
  lemma RoundPosition(r: nat, t: nat)
    requires t < RoundLength
    ensures (RoundLength * r + t) % RoundLength == t
    ensures (RoundLength * r + t) / RoundLength == r
  {
  }

  /** Attempt `j`, at position `t` of round `r`. */
  lemma AttemptAt(j: nat, r: nat, t: nat)
    requires t < RoundLength && j == RoundLength * r + t
    ensures Attempt(j) == [Swap(true), Yield] + (if t == RoundLength - 1 then [Sleep(Pow2(FirstExponent + r))] else [])
  {
    RoundPosition(r, t);
  }

  /** The reference run one failed swap further. */
  lemma FailedStep(k: nat, r: nat, t: nat)
    requires t < RoundLength && k == RoundLength * r + t
    ensures Failed(k + 1)
         == if t == RoundLength - 1
            then Failed(k) + [Swap(true), Yield] + [Sleep(Pow2(FirstExponent + r))]
            else Failed(k) + [Swap(true), Yield]
  {
    AttemptAt(k, r, t);
    if t == RoundLength - 1 {
      assert Failed(k) + ([Swap(true), Yield] + [Sleep(Pow2(FirstExponent + r))])
          == Failed(k) + [Swap(true), Yield] + [Sleep(Pow2(FirstExponent + r))];
    } else {
      assert [Swap(true), Yield] + [] == [Swap(true), Yield];
    }
  }

  /** A swap that finds the flag set continues the loop, after a sleep when
      it ends a round. */
  lemma RoundsStep(env: seq<bool>, k: nat, t: nat, e: nat, acc: seq<Access>)
    requires k < |env| && env[k] && t < RoundLength
    ensures Rounds(env, k, t, e, acc)
         == if t + 1 == RoundLength
            then Rounds(env, k + 1, 0, e + 1, acc + [Swap(true), Yield] + [Sleep(Pow2(e))])
            else Rounds(env, k + 1, t + 1, e, acc + [Swap(true), Yield])
  {
  }

  /** The loops only ever add to what was done: the trace of a run from any
      attempt begins with everything done before it. */
  lemma {:induction false} RoundsExtend(env: seq<bool>, k: nat, tries: nat, exp: nat, acc: seq<Access>)
    requires k <= |env| && tries <= RoundLength
    ensures acc <= Rounds(env, k, tries, exp, acc).trace
    decreases |env| - k, if tries == RoundLength then 1 else 0
  {
    if tries == RoundLength {
      RoundsExtend(env, k, 0, exp + 1, acc + [Sleep(Pow2(exp))]);
    } else if k < |env| && env[k] {
      RoundsExtend(env, k + 1, tries + 1, exp, acc + [Swap(true), Yield]);
    }
  }

  /** The loop ends where the reference run ends. */
  lemma RoundsAtFirstClear(env: seq<bool>, k: nat, t: nat, e: nat)
    requires t < RoundLength && k == FirstClear(env)
    ensures Rounds(env, k, t, e, Failed(k)) == Expected(env)
  {
  }

  lemma {:induction false} RoundsMatchExpected(env: seq<bool>, k: nat, r: nat, t: nat)
    requires t < RoundLength && k == RoundLength * r + t && k <= FirstClear(env)
    ensures Rounds(env, k, t, FirstExponent + r, Failed(k)) == Expected(env)
    decreases FirstClear(env) - k
  {
    if k < FirstClear(env) {
      var e := FirstExponent + r;
      RoundsStep(env, k, t, e, Failed(k));
      FailedStep(k, r, t);
      if t + 1 == RoundLength {
        RoundsMatchExpected(env, k + 1, r + 1, 0);
      } else {
        RoundsMatchExpected(env, k + 1, r, t + 1);
      }
    } else {
      RoundsAtFirstClear(env, k, t, FirstExponent + r);
    }
  }

  /** `acquire` is the reference run: it fails exactly the swaps that found
      the flag set, in rounds of 10 each followed by a sleep of
      2^(4 + round) nanoseconds, and acquires with the first swap that finds
      the flag clear. */
  lemma AcquisitionIsExpected(env: seq<bool>)
    ensures Acquisition(env) == Expected(env)
  {
    RoundsMatchExpected(env, 0, 0, 0);
  }

  /** `acquire` takes the lock exactly when some swap finds the flag clear. */
  lemma AcquiredIffClearObserved(env: seq<bool>)
    ensures Acquisition(env).acquired <==> exists i | 0 <= i < |env| :: !env[i]
  {
    AcquisitionIsExpected(env);
  }

  /** The sleeps of a trace, in nanoseconds, in order. */
  function Sleeps(t: seq<Access>): seq<nat>
  {
    if t == [] then []
    else Sleeps(t[..|t| - 1]) + (if t[|t| - 1].Sleep? then [t[|t| - 1].nanos] else [])
  }

  /** The sleeps after `rounds` failed rounds: 2^4, 2^5, ... nanoseconds. */
  function Schedule(rounds: nat): seq<nat>
  {
    if rounds == 0 then [] else Schedule(rounds - 1) + [Pow2(FirstExponent + rounds - 1)]
  }

  lemma {:induction false} SleepsAppend(a: seq<Access>, b: seq<Access>)
    ensures Sleeps(a + b) == Sleeps(a) + Sleeps(b)
    decreases |b|
  {
    if b != [] {
      var n := |b| - 1;
      assert (a + b)[..|a + b| - 1] == a + b[..n];
      SleepsAppend(a, b[..n]);
    } else {
      assert a + b == a;
    }
  }

  /** The sleeps of one attempt. */
  lemma AttemptSleeps(j: nat)
    ensures Sleeps(Attempt(j)) == if j % RoundLength == RoundLength - 1 then [Pow2(FirstExponent + j / RoundLength)] else []
  {
    var a := Attempt(j);
    assert [Swap(true), Yield][..1] == [Swap(true)];
    assert Sleeps([Swap(true), Yield]) == [];
    if j % RoundLength == RoundLength - 1 {
      assert a[..2] == [Swap(true), Yield];
    } else {
      assert a == [Swap(true), Yield];
    }
  }

  /** The sleeps of attempt `j`, at position `t` of round `r`. */
  lemma AttemptAtSleeps(j: nat, r: nat, t: nat)
    requires t < RoundLength && j == RoundLength * r + t
    ensures Sleeps(Attempt(j)) == if t == RoundLength - 1 then [Pow2(FirstExponent + r)] else []
  {
    RoundPosition(r, t);
    AttemptSleeps(j);
  }

  /** One failed swap more adds the sleeps of its attempt. */
  lemma FailedSleepsStep(j: nat)
    ensures Sleeps(Failed(j + 1)) == Sleeps(Failed(j)) + Sleeps(Attempt(j))
  {
    SleepsAppend(Failed(j), Attempt(j));
  }

  lemma {:induction false} FailedSleepsAt(n: nat, r: nat, t: nat)
    requires t < RoundLength && n == RoundLength * r + t
    ensures Sleeps(Failed(n)) == Schedule(r)
    decreases n
  {
    if n > 0 {
      var j := n - 1;
      var r', t' := if t > 0 then r else r - 1, if t > 0 then t - 1 else RoundLength - 1;
      FailedSleepsAt(j, r', t');
      FailedSleepsStep(j);
      AttemptAtSleeps(j, r', t');
      if t > 0 {
        assert Schedule(r) + [] == Schedule(r);
      }
    }
  }

  /** After `n` failed swaps, one sleep per completed round has been made,
      the k-th of them (from 0) lasting 2^(4+k) nanoseconds. */
  lemma FailedSleeps(n: nat)
    ensures Sleeps(Failed(n)) == Schedule(n / RoundLength)
  {
    FailedSleepsAt(n, n / RoundLength, n % RoundLength);
    assert n == RoundLength * (n / RoundLength) + n % RoundLength;
  }

  /** `pub struct Lock { locked: AtomicBool }` */
  class Lock {
    /** The flag: true while some thread holds the lock. */
    var locked: bool
    /** The critical sections run under this lock, in order. */
    ghost var runs: seq<ActionId>

    /** `Lock::new`: an unlocked flag. */
    constructor ()
      ensures !locked && runs == []
    {
      locked := false;
      runs := [];
    }

    /** `acquire` (lines 38-50). */
    method Acquire(env: seq<bool>) returns (acquired: bool, trace: seq<Access>)
      modifies this
      ensures Outcome(acquired, trace) == Acquisition(env)
      ensures acquired ==> locked
      ensures !acquired && env != [] ==> locked == env[|env| - 1]
      ensures !acquired && env == [] ==> locked == old(locked)
      ensures runs == old(runs)
    {
      var i := FirstExponent;
      var k := 0;
      trace := [];
      while true
        invariant k <= |env|
        invariant Rounds(env, k, 0, i, trace) == Acquisition(env)
        invariant k == 0 ==> locked == old(locked)
        invariant k > 0 ==> locked == env[k - 1]
        invariant runs == old(runs)
        decreases |env| - k
      {
        ghost var start := k;
        for tries := 0 to RoundLength
          invariant k == start + tries <= |env|
          invariant Rounds(env, k, tries, i, trace) == Acquisition(env)
          invariant k == 0 ==> locked == old(locked)
          invariant k > 0 ==> locked == env[k - 1]
          invariant runs == old(runs)
        {
          if k == |env| {
            return false, trace;
          }
          var prev := SwapIn(env[k]);
          k := k + 1;
          if !prev {
            return true, trace + [Swap(false)];
          }
          trace := trace + [Swap(true), Yield];
        }
        trace := trace + [Sleep(Pow2(i))];
        i := i + 1;
      }
    }

    /** `self.locked.swap(true)` when the other threads have left `others`
        in the flag: returns what it found and leaves the flag set. */
    method SwapIn(others: bool) returns (prev: bool)
      modifies this
      ensures prev == others && locked && runs == old(runs)
    {
      locked := others;
      prev := locked;
      locked := true;
    }

    /** `release`: stores false. */
    method Release()
      modifies this
      ensures !locked && runs == old(runs)
    {
      locked := false;
    }

    /** `with`: acquire, run `f` once, release. Callable when some swap of
        this thread eventually finds the flag clear. */
    method With(f: ActionId, env: seq<bool>)
      requires Acquisition(env).acquired
      modifies this
      ensures runs == old(runs) + [f]
      ensures !locked
    {
      var acquired, _ := Acquire(env);
      runs := runs + [f];
      Release();
    }
  }
}
