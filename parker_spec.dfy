// Value-level part of the parking mutex (benches/mutex/safe_parker.rs): the
// two-bit state word, the fairness policy of `unlock_slow`, the retry loop of
// `try_lock`, and the rules that every run of `lock_slow` follows.
module ParkerSpec {
  import opened Common

  /** The `AtomicU8` state word. */
  type Word = bv8

  /** The state constants (lines 56-58): two independent bits. */
  const UNLOCKED: Word := 0
  const LOCKED: Word := 1
  const PARKED: Word := 2

  /** The budget of busy-wait rounds in `lock_slow` (line 147). */
  const MaxSpin: nat := 5

  /** One millisecond in nanoseconds: the first fairness window (line 211). */
  const Millisecond: nat := 1_000_000

  predicate IsLocked(w: Word)
  {
    w & LOCKED != 0
  }

  predicate IsParked(w: Word)
  {
    w & PARKED != 0
  }

  /** The word holds only the two state bits. */
  predicate WellFormed(w: Word)
  {
    w & !(LOCKED | PARKED) == 0
  }

  /** The words made of the two bits are exactly 0..3, and setting either bit
      keeps a word well formed; every value the mutex stores is one of the
      constants or an observed word with a bit set, so the state never leaves
      {0, 1, 2, 3}. */
  lemma WellFormedWords(w: Word)
    ensures WellFormed(w) <==> w < 4
    ensures WellFormed(w) ==> WellFormed(w | LOCKED) && WellFormed(w | PARKED)
    ensures WellFormed(UNLOCKED) && WellFormed(LOCKED) && WellFormed(PARKED)
  {
  }

  /** Setting LOCKED leaves the PARKED bit as it was, and the result is
      locked. */
  lemma LockingKeepsParked(w: Word)
    ensures IsLocked(w | LOCKED)
    ensures IsParked(w | LOCKED) <==> IsParked(w)
  {
  }

  // ---------------------------------------------------------------------
  // Fairness (lines 209-227)

  /** The fairness part of the queue: the end of the current fairness window
      (`times_out`, in nanoseconds) and the xorshift generator's state. */
  datatype Fairness = Fairness(timesOut: Option<nat>, xorshift: bv32)

  /** The decision of one contended release: whether it hands the lock off,
      and the fairness state afterwards. */
  datatype Decision = Decision(fair: bool, next: Fairness)

  /** One step of the 32-bit xorshift generator (lines 219-221). A zero seed
      is a fixed point; any other seed never reaches zero, since each of the
      three shift-xor steps is invertible. */
  function XorShift(x: bv32): (r: bv32)
    ensures r == 0 <==> x == 0
  {
    var a := x ^ (x << 13);
    var b := a ^ (a >> 17);
    b ^ (b << 5)
  }

  /** The jitter of a renewed window (line 222): below one millisecond. */
  function Jitter(x: bv32): (n: nat)
    ensures n < Millisecond
  {
    x as nat % Millisecond
  }

  /** `(self as *const _ as usize) as u32`: the generator is seeded with the
      low 32 bits of the mutex's address. */
  function Seed(address: nat): bv32
  {
    (address % 0x1_0000_0000) as bv32
  }

  /** The fairness decision of a release at time `now` that found a waiter. */
  function Decide(f: Fairness, now: nat, address: nat): (d: Decision)
    ensures f.timesOut.None? ==> !d.fair && d.next == Fairness(Some(now + Millisecond), Seed(address))
    ensures f.timesOut.Some? ==> (d.fair <==> now > f.timesOut.value)
    ensures f.timesOut.Some? && !d.fair ==> d.next == f
    ensures d.fair ==> d.next.xorshift == XorShift(f.xorshift)
    ensures d.fair ==> d.next.timesOut.Some? && now <= d.next.timesOut.value < now + Millisecond
  {
    match f.timesOut
    case None => Decision(false, Fairness(Some(now + Millisecond), Seed(address)))
    case Some(t) =>
      if now > t then
        var x := XorShift(f.xorshift);
        Decision(true, Fairness(Some(now + Jitter(x)), x))
      else Decision(false, f)
  }

  /** The fairness decisions of consecutive contended releases at `times`. */
  function Decisions(f: Fairness, times: seq<nat>, address: nat): (fair: seq<bool>)
    ensures |fair| == |times|
    decreases |times|
  {
    if times == [] then []
    else
      var d := Decide(f, times[0], address);
      [d.fair] + Decisions(d.next, times[1..], address)
  }

  /** Bounded barging: once a window is open, a streak of releases none of
      which hands off happens entirely before the window ends. */
  lemma {:induction false} BargingEndsWithWindow(f: Fairness, times: seq<nat>, address: nat)
    requires f.timesOut.Some?
    requires forall i | 0 <= i < |times| :: !Decisions(f, times, address)[i]
    ensures forall i | 0 <= i < |times| :: times[i] <= f.timesOut.value
  {
    if times != [] {
      var d := Decide(f, times[0], address);
      assert !Decisions(f, times, address)[0];
      assert d.next == f;
      forall i | 0 <= i < |times| - 1
        ensures !Decisions(f, times[1..], address)[i]
      {
        assert Decisions(f, times, address)[i + 1] == Decisions(f, times[1..], address)[i];
      }
      BargingEndsWithWindow(f, times[1..], address);
      forall i | 0 <= i < |times|
        ensures times[i] <= f.timesOut.value
      {
        if i > 0 {
          assert times[i] == times[1..][i - 1];
        }
      }
    }
  }

  /** From a fresh queue, the first contended release never hands off, and
      barging lasts at most one millisecond after it: any later release
      more than a millisecond after the first one hands off unless an
      earlier one already did. */
  lemma FirstWindowIsOneMillisecond(x: bv32, times: seq<nat>, address: nat)
    requires |times| >= 1
    requires forall i | 1 <= i < |times| :: !Decisions(Fairness(None, x), times, address)[i]
    ensures !Decisions(Fairness(None, x), times, address)[0]
    ensures forall i | 1 <= i < |times| :: times[i] <= times[0] + Millisecond
  {
    var f := Fairness(None, x);
    var d := Decide(f, times[0], address);
    forall i | 0 <= i < |times| - 1
      ensures !Decisions(d.next, times[1..], address)[i]
    {
      assert Decisions(f, times, address)[i + 1] == Decisions(d.next, times[1..], address)[i];
    }
    BargingEndsWithWindow(d.next, times[1..], address);
    forall i | 1 <= i < |times|
      ensures times[i] <= times[0] + Millisecond
    {
      assert times[i] == times[1..][i - 1];
    }
  }

  // ---------------------------------------------------------------------
  // Releases (lines 116-124, 203-246)

  /** The state word stored by a contended release that popped a waiter, with
      `remaining` waiters left behind (lines 229-234). */
  function Released(w: Word, fair: bool, remaining: nat): (r: Word)
    ensures IsLocked(r) <==> fair && (remaining == 0 || IsLocked(w))
    ensures IsParked(r) <==> !fair || (remaining > 0 && IsParked(w))
  {
    if fair && remaining == 0 then LOCKED
    else if !fair then PARKED
    else w
  }

  /** What `unlock_slow` does to the state word and the fairness state when
      the word was `w`, `queued` waiters were queued, and the clock read
      `now`; `fair` is what the popped waiter is told. */
  datatype Handoff = Handoff(state: Word, fairness: Fairness, fair: bool)

  function SlowRelease(w: Word, f: Fairness, queued: nat, now: nat, address: nat): (h: Handoff)
    ensures h.fair ==> queued > 0
    ensures queued == 0 ==> h.state == UNLOCKED && h.fairness == f
    ensures queued > 0 ==> (IsLocked(h.state) <==> h.fair && (queued == 1 || IsLocked(w)))
  {
    if queued == 0 then Handoff(UNLOCKED, f, false)
    else
      var d := Decide(f, now, address);
      Handoff(Released(w, d.fair, queued - 1), d.next, d.fair)
  }

  /** The outcomes of a contended release:
      - with nobody queued the lock becomes free;
      - a hand-off keeps the lock held (by the woken waiter), with PARKED set
        exactly while waiters remain, when it was set before;
      - a release that does not hand off frees the lock for barging threads
        and leaves PARKED set, so the next release takes the slow path. */
  lemma ReleaseOutcomes(w: Word, f: Fairness, queued: nat, now: nat, address: nat)
    requires IsLocked(w) && IsParked(w) && WellFormed(w)
    ensures var h := SlowRelease(w, f, queued, now, address);
      && WellFormed(h.state)
      && (queued == 0 ==> h.state == UNLOCKED && !h.fair)
      && (queued > 0 && h.fair ==> IsLocked(h.state) && (IsParked(h.state) <==> queued > 1))
      && (queued > 0 && !h.fair ==> !IsLocked(h.state) && IsParked(h.state))
  {
  }

  // ---------------------------------------------------------------------
  // try_lock (lines 85-101)

  /** How `try_lock` ended: it set LOCKED in the word `prev`, or gave up on
      seeing the locked word `seen`. */
  datatype Attempt = Took(prev: Word) | Refused(seen: Word)

  /** The loop of `try_lock`: `expected` is its current guess of the word and
      `words[k]` what the next compare-and-swap finds. */
  function TryLockRun(words: seq<Word>, k: nat, expected: Word): (r: Progress<Attempt>)
    requires k <= |words|
    ensures r.Finished? && r.result.Took? ==> !IsLocked(r.result.prev)
    ensures r.Finished? && r.result.Refused? ==> IsLocked(r.result.seen)
    decreases |words| - k
  {
    if IsLocked(expected) then Finished(Refused(expected))
    else if k == |words| then Stalled
    else if words[k] == expected then Finished(Took(expected))
    else TryLockRun(words, k + 1, words[k])
  }

  /** `try_lock` fails exactly on a word with LOCKED set and succeeds only on
      a word without it, and either word is one it observed. */
  lemma {:induction false} TryLockDecidesOnLockedBit(words: seq<Word>, k: nat, expected: Word)
    requires k <= |words|
    requires expected == UNLOCKED || (k > 0 && expected == words[k - 1])
    ensures match TryLockRun(words, k, expected)
      case Finished(Took(p)) => !IsLocked(p) && (p == UNLOCKED || p in words)
      case Finished(Refused(s)) => IsLocked(s) && s in words
      case Stalled => true
    decreases |words| - k
  {
    if !IsLocked(expected) && k < |words| && words[k] != expected {
      TryLockDecidesOnLockedBit(words, k + 1, words[k]);
    }
  }

  /** `try_lock` on an unlocked mutex takes it at once, and on a locked one
      gives up after one attempt. */
  lemma TryLockFirstAttempt(words: seq<Word>)
    requires words != []
    ensures words[0] == UNLOCKED ==> TryLockRun(words, 0, UNLOCKED) == Finished(Took(UNLOCKED))
    ensures IsLocked(words[0]) ==> TryLockRun(words, 0, UNLOCKED) == Finished(Refused(words[0]))
  {
    if IsLocked(words[0]) {
      assert words[0] != UNLOCKED;
    }
  }

  // ---------------------------------------------------------------------
  // lock_slow (lines 127-200)

  /** The busy-wait of spin round `spin` (lines 149-153): `1 << spin`
      processor hints for the first three rounds, then a sleep of
      `1 << spin` nanoseconds. */
  datatype Delay = Hints(count: nat) | Sleep(nanos: nat)

  function SpinDelay(spin: nat): Delay
  {
    if spin <= 3 then Hints(Pow2(spin)) else Sleep(Pow2(spin))
  }

  /** One step of `lock_slow` as seen from outside. Atomic accesses carry the
      word they found: a compare-and-swap from `expected` setting LOCKED
      (line 134) or PARKED (line 158), a plain load (lines 130, 154, 198), or
      the load under the queue guard (line 170). The others are a busy-wait,
      pushing the thread's waiter (lines 184-185), and waking up from the
      park loop with the waiter's `acquired` flag (lines 188-192). */
  datatype Event =
    | CasLocked(expected: Word, saw: Word)
    | CasParked(expected: Word, saw: Word)
    | Load(saw: Word)
    | Recheck(saw: Word)
    | Backoff(delay: Delay)
    | Enqueue
    | Woken(acquired: bool)

  /** Where `lock_slow` stands after a sequence of events. */
  datatype Phase =
    | Start               // before the first load
    | Top(state: Word)    // at the top of the loop with `state` observed
    | Spun                // after a busy-wait, before the reload
    | Parking             // PARKED was set, about to take the queue guard
    | Rechecked(saw: Word)  // the word was re-read under the queue guard
    | Parked              // the waiter is queued
    | Reset               // about to reset `spin` and reload
    | Done                // the lock is held

  function Last(t: seq<Event>): Event
    requires t != []
  {
    t[|t| - 1]
  }

  function PhaseOf(t: seq<Event>): Phase
  {
    if t == [] then Start
    else match Last(t)
      case Load(v) => Top(v)
      case CasLocked(e, v) => if v == e then Done else Top(v)
      case CasParked(e, v) => if v == e then Parking else Top(v)
      case Backoff(_) => Spun
      case Recheck(v) => Rechecked(v)
      case Enqueue => Parked
      case Woken(a) => if a then Done else Reset
  }

  /** The value of `spin`: busy-waits since the last re-read under the queue
      guard, after which every path resets it (line 197). */
  function Spins(t: seq<Event>): nat
  {
    if t == [] then 0
    else match Last(t)
      case Recheck(_) => 0
      case Backoff(_) => Spins(t[..|t| - 1]) + 1
      case _ => Spins(t[..|t| - 1])
  }

  /** The event `e` may come next after `t`: the branches of the loop. */
  predicate Follows(t: seq<Event>, e: Event)
  {
    match PhaseOf(t)
    case Start => e.Load?
    case Top(v) =>
      if !IsLocked(v) then e.CasLocked? && e.expected == v
      else if !IsParked(v) && Spins(t) < MaxSpin then e == Backoff(SpinDelay(Spins(t) + 1))
      else if !IsParked(v) then e.CasParked? && e.expected == v
      else e.Recheck?
    case Spun => e.Load?
    case Parking => e.Recheck?
    case Rechecked(v) => if v == LOCKED | PARKED then e == Enqueue else e.Load?
    case Parked => e.Woken?
    case Reset => e.Load?
    case Done => false
  }

  /** Every event of `t` follows the ones before it. */
  predicate Lawful(t: seq<Event>)
  {
    t == [] || (Lawful(t[..|t| - 1]) && Follows(t[..|t| - 1], Last(t)))
  }

  /** The `i`-th event of a lawful run follows the ones before it. */
  lemma {:induction false} LawfulAt(t: seq<Event>, i: nat)
    requires Lawful(t) && i < |t|
    ensures Lawful(t[..i]) && Follows(t[..i], t[i])
    decreases |t|
  {
    var n := |t| - 1;
    if i < n {
      LawfulAt(t[..n], i);
      assert t[..n][..i] == t[..i];
    }
  }

  /** `lock_slow` has returned holding the lock. */
  predicate Acquired(t: seq<Event>)
  {
    PhaseOf(t) == Done
  }

  /** What the atomic accesses of `t` observed, in order. */
  function Seen(e: Event): seq<Word>
  {
    match e
    case CasLocked(_, v) => [v]
    case CasParked(_, v) => [v]
    case Load(v) => [v]
    case Recheck(v) => [v]
    case _ => []
  }

  function Observed(t: seq<Event>): seq<Word>
  {
    if t == [] then [] else Observed(t[..|t| - 1]) + Seen(Last(t))
  }

  lemma LawfulSnoc(t: seq<Event>, e: Event)
    requires Lawful(t) && Follows(t, e)
    ensures Lawful(t + [e])
  {
    assert (t + [e])[..|t|] == t;
  }

  lemma ObservedSnoc(t: seq<Event>, e: Event)
    ensures Observed(t + [e]) == Observed(t) + Seen(e)
  {
    assert (t + [e])[..|t|] == t;
  }

  /** Appending an event that may follow keeps a run lawful, and it observes
      the next word when it is an atomic access. */
  lemma Extend(t: seq<Event>, e: Event, words: seq<Word>, k: nat)
    requires Lawful(t) && Follows(t, e) && k <= |words| && Observed(t) == words[..k]
    requires Seen(e) == [] || (k < |words| && Seen(e) == [words[k]])
    ensures Lawful(t + [e]) && Observed(t + [e]) == words[..k + |Seen(e)|]
    ensures Spins(t + [e]) == if e.Recheck? then 0 else if e.Backoff? then Spins(t) + 1 else Spins(t)
  {
    LawfulSnoc(t, e);
    ObservedSnoc(t, e);
    assert (t + [e])[..|t|] == t;
    if Seen(e) != [] {
      assert words[..k + 1] == words[..k] + [words[k]];
    }
  }

  /** A run of `lock_slow` that has made `t` while observing `words[..k]`. */
  ghost predicate Run(words: seq<Word>, k: nat, t: seq<Event>)
  {
    k <= |words| && Lawful(t) && Observed(t) == words[..k]
  }

  /** At the top of the loop with `state` observed and `spin` busy-waits
      done since the last reset. */
  ghost predicate AtTop(words: seq<Word>, k: nat, t: seq<Event>, state: Word, spin: nat)
  {
    Run(words, k, t) && PhaseOf(t) == Top(state) && Spins(t) == spin
  }

  /** About to take the queue guard and re-read the word (line 169). */
  ghost predicate AtGuard(words: seq<Word>, k: nat, t: seq<Event>)
  {
    && Run(words, k, t)
    && (PhaseOf(t) == Parking
        || (PhaseOf(t).Top? && IsLocked(PhaseOf(t).state) && IsParked(PhaseOf(t).state)))
  }

  // The transitions of the loop of `lock_slow`, one lemma each.

  lemma StartRun(words: seq<Word>)
    requires words != []
    ensures AtTop(words, 1, [Load(words[0])], words[0], 0)
  {
    Extend([], Load(words[0]), words, 0);
  }

  lemma StepCasLocked(words: seq<Word>, k: nat, t: seq<Event>, state: Word, spin: nat)
    requires AtTop(words, k, t, state, spin) && k < |words| && !IsLocked(state)
    ensures var t' := t + [CasLocked(state, words[k])];
      && Run(words, k + 1, t')
      && (words[k] == state ==> Acquired(t'))
      && (words[k] != state ==> AtTop(words, k + 1, t', words[k], spin))
  {
    Extend(t, CasLocked(state, words[k]), words, k);
  }

  lemma StepSpin(words: seq<Word>, k: nat, t: seq<Event>, state: Word, spin: nat)
    requires AtTop(words, k, t, state, spin) && k < |words|
    requires IsLocked(state) && !IsParked(state) && spin < MaxSpin
    ensures AtTop(words, k + 1, t + [Backoff(SpinDelay(spin + 1))] + [Load(words[k])], words[k], spin + 1)
  {
    var b := Backoff(SpinDelay(spin + 1));
    Extend(t, b, words, k);
    Extend(t + [b], Load(words[k]), words, k);
  }

  lemma StepCasParked(words: seq<Word>, k: nat, t: seq<Event>, state: Word, spin: nat)
    requires AtTop(words, k, t, state, spin) && k < |words|
    requires IsLocked(state) && !IsParked(state) && spin >= MaxSpin
    ensures var t' := t + [CasParked(state, words[k])];
      && (words[k] == state ==> AtGuard(words, k + 1, t'))
      && (words[k] != state ==> AtTop(words, k + 1, t', words[k], spin))
  {
    Extend(t, CasParked(state, words[k]), words, k);
  }

  lemma StepToGuard(words: seq<Word>, k: nat, t: seq<Event>, state: Word, spin: nat)
    requires AtTop(words, k, t, state, spin) && IsLocked(state) && IsParked(state)
    ensures AtGuard(words, k, t)
  {
  }

  lemma StepRecheck(words: seq<Word>, k: nat, t: seq<Event>)
    requires AtGuard(words, k, t) && k < |words|
    ensures var t' := t + [Recheck(words[k])];
      Run(words, k + 1, t') && PhaseOf(t') == Rechecked(words[k]) && Spins(t') == 0
  {
    Extend(t, Recheck(words[k]), words, k);
  }

  lemma StepEnqueue(words: seq<Word>, k: nat, t: seq<Event>)
    requires Run(words, k, t) && PhaseOf(t) == Rechecked(LOCKED | PARKED) && Spins(t) == 0
    ensures Run(words, k, t + [Enqueue]) && PhaseOf(t + [Enqueue]) == Parked && Spins(t + [Enqueue]) == 0
  {
    Extend(t, Enqueue, words, k);
  }

  lemma StepWoken(words: seq<Word>, k: nat, t: seq<Event>, handedOff: bool)
    requires Run(words, k, t) && PhaseOf(t) == Parked && Spins(t) == 0
    ensures var t' := t + [Woken(handedOff)];
      && Run(words, k, t')
      && (handedOff ==> Acquired(t'))
      && (!handedOff ==> PhaseOf(t') == Reset && Spins(t') == 0)
  {
    Extend(t, Woken(handedOff), words, k);
  }

  lemma StepReload(words: seq<Word>, k: nat, t: seq<Event>)
    requires Run(words, k, t) && k < |words| && Spins(t) == 0
    requires PhaseOf(t) == Reset || (PhaseOf(t).Rechecked? && PhaseOf(t).saw != LOCKED | PARKED)
    ensures AtTop(words, k + 1, t + [Load(words[k])], words[k], 0)
  {
    Extend(t, Load(words[k]), words, k);
  }

  lemma RunObservesPrefix(words: seq<Word>, k: nat, t: seq<Event>)
    requires Run(words, k, t)
    ensures Observed(t) <= words
  {
  }

  /** `spin` never exceeds its budget of 5. */
  lemma {:induction false} SpinsBounded(t: seq<Event>)
    requires Lawful(t)
    ensures Spins(t) <= MaxSpin
    decreases |t|
  {
    if t != [] {
      SpinsBounded(t[..|t| - 1]);
    }
  }

  /** The busy-waits grow with the spin count: the `s`-th since the last
      reset is `SpinDelay(s)`, at most 8 hints or a sleep of at most 32 ns. */
  lemma BackoffIsBounded(t: seq<Event>, i: nat)
    requires Lawful(t) && i < |t| && t[i].Backoff?
    ensures 1 <= Spins(t[..i]) + 1 <= MaxSpin
    ensures t[i].delay == SpinDelay(Spins(t[..i]) + 1)
    ensures t[i].delay.Hints? ==> t[i].delay.count <= 8
    ensures t[i].delay.Sleep? ==> t[i].delay.nanos <= 32
  {
    LawfulAt(t, i);
    var s := Spins(t[..i]) + 1;
    assert Pow2(1) == 2 && Pow2(2) == 4 && Pow2(3) == 8 && Pow2(4) == 16 && Pow2(5) == 32;
    assert s <= 5;
  }

  /** PARKED is only requested once the spin budget is used up, on a word
      that is locked without PARKED. */
  lemma ParkedOnlyAfterSpinning(t: seq<Event>, i: nat)
    requires Lawful(t) && i < |t| && t[i].CasParked?
    ensures Spins(t[..i]) == MaxSpin
    ensures IsLocked(t[i].expected) && !IsParked(t[i].expected)
  {
    LawfulAt(t, i);
    SpinsBounded(t[..i]);
  }

  /** The waiter is queued exactly when the re-read under the queue guard
      found LOCKED | PARKED. */
  lemma EnqueueIffParkedRecheck(t: seq<Event>, i: nat)
    requires Lawful(t) && i < |t|
    ensures t[i] == Enqueue ==> i > 0 && t[i - 1] == Recheck(LOCKED | PARKED)
    ensures t[i] == Recheck(LOCKED | PARKED) && i + 1 < |t| ==> t[i + 1] == Enqueue
  {
    LawfulAt(t, i);
    if i > 0 {
      assert Last(t[..i]) == t[i - 1];
    }
    if i + 1 < |t| {
      LawfulAt(t, i + 1);
      assert Last(t[..i + 1]) == t[i];
    }
  }

  /** A park cycle that did not hand the lock over starts the spinning
      again from zero. */
  lemma SpinRestartsAfterPark(t: seq<Event>, i: nat)
    requires Lawful(t) && i < |t| && t[i] == Woken(false)
    ensures Spins(t[..i + 1]) == 0
  {
    LawfulAt(t, i);
    assert i >= 1 && Last(t[..i]) == t[i - 1] == Enqueue;
    LawfulAt(t, i - 1);
    assert i >= 2 && Last(t[..i - 1]) == t[i - 2];
    assert t[..i + 1][..i] == t[..i];
    assert t[..i][..i - 1] == t[..i - 1];
  }

  /** `lock_slow` holds the lock only by a compare-and-swap that set LOCKED
      in an unlocked word it had observed, or by a hand-off from a release
      that popped its waiter; nothing follows either. */
  lemma AcquiredOnlyByCasOrHandoff(t: seq<Event>)
    requires Lawful(t) && Acquired(t)
    ensures match Last(t)
      case CasLocked(e, v) => v == e && !IsLocked(e)
      case Woken(a) => a && |t| >= 2 && t[|t| - 2] == Enqueue
      case _ => false
  {
    var n := |t| - 1;
    if t[n].Woken? && n > 0 {
      assert Last(t[..n]) == t[n - 1];
    }
  }
}
