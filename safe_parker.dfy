// Model of the parking mutex (benches/mutex/safe_parker.rs): a two-bit state
// word over a FIFO queue of parked waiters, with a time-sliced fairness
// policy. The value-level rules live in `ParkerSpec`; this module holds the
// objects the source mutates in place.
//
// Other threads appear as oracles. `words[k]` is the value they have left in
// the state word just before this thread's k-th atomic access. While this
// thread is parked, `releases` lists the releases of the lock holder: the
// word the holder's compare-and-swap finds and the clock reading of its
// `unlock_slow`. A run whose oracle runs out reports that it has not (yet)
// acquired.
module SafeParker {
  import opened Common
  import opened ParkerSpec

  /** How an attempt at the top of the loop of `lock_slow` ends: the loop
      returns, starts over, or goes on to the queue guard. */
  datatype Next = Stop(acquired: bool) | Again | Guard

  /** One release by the lock holder while this thread is parked. */
  datatype Release = Release(word: Word, now: nat)

  /** `struct Waiter`: shared between the parked thread and the releaser. */
  class Waiter {
    var acquired: bool
    var notified: bool
    const thread: ThreadId

    constructor (thread: ThreadId)
      ensures !acquired && !notified && this.thread == thread
    {
      acquired := false;
      notified := false;
      this.thread := thread;
    }
  }

  /** `Mutex<T>` with its `Queue`; the protected value is represented by the
      critical sections run under it. */
  class Mutex {
    var state: Word
    /** `queue.waiters`, front first. */
    var waiters: seq<Waiter>
    /** `queue.times_out`, in nanoseconds. */
    var timesOut: Option<nat>
    /** `queue.xorshift` */
    var xorshift: bv32
    /** The address of the mutex, which seeds the generator. */
    const address: nat
    /** The critical sections run under this mutex, in order. */
    ghost var runs: seq<ActionId>

    /** The state word holds only the two state bits and no waiter is
        queued twice. */
    ghost predicate Valid()
      reads this
    {
      && WellFormed(state)
      && forall i, j | 0 <= i < j < |waiters| :: waiters[i] != waiters[j]
    }

    /** `Mutex::new` (lines 67-73): unlocked, with an empty default queue. */
    constructor (address: nat)
      ensures Valid()
      ensures state == UNLOCKED && waiters == [] && timesOut == None && xorshift == 0
      ensures this.address == address && runs == []
    {
      state := UNLOCKED;
      waiters := [];
      timesOut := None;
      xorshift := 0;
      this.address := address;
      runs := [];
    }

    /** An atomic load or read-modify-write begins: the other threads have
        left `others` in the word. */
    method Observe(others: Word) returns (v: Word)
      modifies this
      ensures v == others && state == others
      ensures waiters == old(waiters) && timesOut == old(timesOut) && xorshift == old(xorshift)
      ensures runs == old(runs)
    {
      state := others;
      v := state;
    }

    /** `compare_exchange(expected, desired)` finding `others`. */
    method CompareExchange(others: Word, expected: Word, desired: Word) returns (ok: bool, seen: Word)
      modifies this
      ensures seen == others && (ok <==> others == expected)
      ensures state == if ok then desired else others
      ensures waiters == old(waiters) && timesOut == old(timesOut) && xorshift == old(xorshift)
      ensures runs == old(runs)
    {
      seen := Observe(others);
      ok := seen == expected;
      if ok {
        state := desired;
      }
    }

    function Fair(): Fairness
      reads this
    {
      Fairness(timesOut, xorshift)
    }

    /** `try_lock` (lines 85-101). */
    method TryLock(words: seq<Word>) returns (r: Progress<Attempt>)
      requires Valid() && forall i | 0 <= i < |words| :: WellFormed(words[i])
      modifies this
      ensures Valid()
      ensures r == TryLockRun(words, 0, UNLOCKED)
      ensures r.Finished? && r.result.Took? ==> state == r.result.prev | LOCKED
      ensures r.Finished? && r.result.Refused? ==> IsLocked(r.result.seen) && state == r.result.seen
      ensures waiters == old(waiters) && Fair() == old(Fair()) && runs == old(runs)
    {
      var expected := UNLOCKED;
      var k := 0;
      while true
        invariant k <= |words| && Valid()
        invariant TryLockRun(words, k, expected) == TryLockRun(words, 0, UNLOCKED)
        invariant k > 0 ==> expected == words[k - 1] == state
        invariant k == 0 ==> expected == UNLOCKED
        invariant waiters == old(waiters) && Fair() == old(Fair()) && runs == old(runs)
        decreases |words| - k
      {
        if IsLocked(expected) {
          return Finished(Refused(expected));
        }
        if k == |words| {
          return Stalled;
        }
        WellFormedWords(expected);
        var ok, seen := CompareExchange(words[k], expected, expected | LOCKED);
        k := k + 1;
        if ok {
          return Finished(Took(expected));
        }
        expected := seen;
      }
    }

    /** The `be_fair` computation of `unlock_slow` (lines 209-227): opens the
        first window, or hands off once the window has ended and renews it. */
    method DecideFairness(now: nat) returns (fair: bool)
      modifies this
      ensures Decision(fair, Fair()) == Decide(old(Fair()), now, address)
      ensures state == old(state) && waiters == old(waiters) && runs == old(runs)
    {
      fair := false;
      match timesOut {
        case None =>
          timesOut := Some(now + Millisecond);
          xorshift := Seed(address);
        case Some(t) =>
          if now > t {
            xorshift := XorShift(xorshift);
            timesOut := Some(now + Jitter(xorshift));
            fair := true;
          }
      }
    }

    /** `unlock_slow` (lines 203-246) at clock reading `now`: pops the front
        waiter, decides fairness, stores the new word, and tells the popped
        waiter whether it now owns the lock. */
    method UnlockSlow(now: nat) returns (woken: Option<Waiter>)
      requires Valid()
      modifies this, set x | x in waiters
      ensures Valid()
      ensures var h := SlowRelease(old(state), old(Fair()), |old(waiters)|, now, address);
        state == h.state && Fair() == h.fairness
        && (woken.Some? ==> woken.value.acquired == h.fair && woken.value.notified)
      ensures old(waiters) == [] ==> woken == None && waiters == []
      ensures old(waiters) != [] ==> woken == Some(old(waiters)[0]) && waiters == old(waiters)[1..]
      ensures forall x | x in waiters :: x.notified == old(x.notified) && x.acquired == old(x.acquired)
      ensures runs == old(runs)
    {
      if waiters == [] {
        woken := None;
        state := UNLOCKED;
        return;
      }
      var w := waiters[0];
      waiters := waiters[1..];
      var fair := DecideFairness(now);
      w.acquired := fair;
      if fair && |waiters| == 0 {
        state := LOCKED;
      } else if !fair {
        state := PARKED;
      }
      w.notified := true;
      woken := Some(w);
    }

    /** `unlock` (lines 116-124): a compare-and-swap from LOCKED to UNLOCKED
        that finds `word`, and `unlock_slow` when it fails. */
    method Unlock(word: Word, now: nat)
      requires Valid() && WellFormed(word)
      modifies this, set x | x in waiters
      ensures Valid()
      ensures word == LOCKED ==> state == UNLOCKED && waiters == old(waiters) && Fair() == old(Fair())
      ensures word != LOCKED ==>
        var h := SlowRelease(word, old(Fair()), |old(waiters)|, now, address);
        && state == h.state && Fair() == h.fairness
        && waiters == old(waiters)[if old(waiters) == [] then 0 else 1..]
        && (old(waiters) != [] ==> old(waiters)[0].notified && old(waiters)[0].acquired == h.fair)
      ensures forall x | x in waiters :: x.notified == old(x.notified) && x.acquired == old(x.acquired)
      ensures runs == old(runs)
    {
      var ok, _ := CompareExchange(word, LOCKED, UNLOCKED);
      if !ok {
        var _ := UnlockSlow(now);
      }
    }

    /** `while !notified { park() }` (lines 188-190): the thread sleeps while
        the lock holder releases; each release pops the queue front when it
        takes the slow path. Returns whether `w` was notified before the
        releases ran out, and how many were used. Only the holder releases,
        so every release finds LOCKED set; a woken waiter is then told it
        owns the lock exactly when the word is left locked. */
    method Park(w: Waiter, releases: seq<Release>, r0: nat) returns (r: nat, woke: bool)
      requires Valid() && r0 <= |releases| && w in waiters && !w.notified
      requires forall i | 0 <= i < |releases| :: WellFormed(releases[i].word) && IsLocked(releases[i].word)
      modifies this, set x | x in waiters
      ensures Valid() && r0 <= r <= |releases|
      ensures woke <==> w.notified
      ensures woke ==> (w.acquired <==> IsLocked(state))
      ensures woke ==> w !in waiters
      ensures !woke ==> r == |releases|
      ensures forall x | x in waiters :: x in old(waiters)
      ensures runs == old(runs)
    {
      r := r0;
      while !w.notified
        invariant Valid() && r0 <= r <= |releases|
        invariant w.notified <==> w !in waiters
        invariant w.notified ==> (w.acquired <==> IsLocked(state))
        invariant forall x | x in waiters :: x in old(waiters)
        invariant runs == old(runs)
        decreases |releases| - r
      {
        if r == |releases| {
          return r, false;
        }
        Unlock(releases[r].word, releases[r].now);
        r := r + 1;
      }
      woke := true;
    }
  
    /** Lines 173-185 of `lock_slow`: create the thread's waiter on the first
        park cycle and reuse it afterwards, clear its `notified` flag, and
        push it at the back of the queue. */
    method PushWaiter(waiter: Option<Waiter>, thread: ThreadId) returns (w: Waiter)
      requires Valid() && (waiter.Some? ==> waiter.value !in waiters)
      modifies this, if waiter.Some? then {waiter.value} else {}
      ensures Valid() && waiters == old(waiters) + [w] && !w.notified
      ensures waiter.Some? ==> w == waiter.value
      ensures waiter.None? ==> fresh(w)
      ensures state == old(state) && Fair() == old(Fair()) && runs == old(runs)
    {
      if waiter.None? {
        w := new Waiter(thread);
      } else {
        w := waiter.value;
      }
      w.notified := false;
      waiters := waiters + [w];
    }

    /** The queue-guard section of `lock_slow` (lines 169-195): re-read the
        word; when it is exactly LOCKED | PARKED, queue the thread's waiter
        and park until a release pops it. Returns `Some(acquired)` when
        `lock_slow` returns or runs out of releases, and `None` when the
        loop goes on. */
    method QueueGuard(words: seq<Word>, k: nat, trace: seq<Event>, waiter: Option<Waiter>,
                      releases: seq<Release>, r: nat, thread: ThreadId)
      returns (k': nat, r': nat, trace': seq<Event>, waiter': Option<Waiter>, stop: Option<bool>)
      requires Valid() && AtGuard(words, k, trace) && k < |words| && r <= |releases|
      requires waiter.Some? ==> waiter.value !in waiters
      requires forall i | 0 <= i < |words| :: WellFormed(words[i])
      requires forall i | 0 <= i < |releases| :: WellFormed(releases[i].word) && IsLocked(releases[i].word)
      modifies this, set x | x in waiters, if waiter.Some? then {waiter.value} else {}
      ensures Valid() && Run(words, k', trace') && k' == k + 1 && r <= r' <= |releases|
      ensures stop.Some? ==> (stop.value <==> Acquired(trace'))
      ensures stop.None? ==> Spins(trace') == 0
      ensures stop.None? ==> PhaseOf(trace') == Reset || (PhaseOf(trace').Rechecked? && PhaseOf(trace').saw != LOCKED | PARKED)
      ensures waiter'.Some? ==> waiter' == waiter || fresh(waiter'.value)
      ensures stop.None? && waiter'.Some? ==> waiter'.value !in waiters
      ensures waiter.Some? ==> waiter' == waiter
      ensures forall x | x in waiters :: x in old(waiters) || fresh(x) || waiter == Some(x)
      ensures stop == Some(true) ==> Last(trace') == Woken(true) && IsLocked(state)
      ensures runs == old(runs)
    {
      waiter' := waiter;
      r' := r;
      StepRecheck(words, k, trace);
      var v := Observe(words[k]);
      trace' := trace + [Recheck(v)];
      k' := k + 1;
      stop := None;
      if v == LOCKED | PARKED {
        StepEnqueue(words, k', trace');
        var w := PushWaiter(waiter, thread);
        waiter' := Some(w);
        trace' := trace' + [Enqueue];
        var woke;
        r', woke := Park(w, releases, r);
        if !woke {
          return k', r', trace', waiter', Some(false);
        }
        var handedOff := w.acquired;
        StepWoken(words, k', trace', handedOff);
        trace' := trace' + [Woken(handedOff)];
        if handedOff {
          stop := Some(true);
        }
      }
    }

    /** Lines 135-145: the word is unlocked, so try to set LOCKED; on
        failure the next iteration starts from the word that was found. */
    method TakeUnlocked(words: seq<Word>, k: nat, trace: seq<Event>, st: Word, spin: nat)
      returns (trace': seq<Event>, seen: Word, acquired: bool)
      requires Valid() && AtTop(words, k, trace, st, spin) && WellFormed(st)
      requires forall i | 0 <= i < |words| :: WellFormed(words[i])
      requires k < |words| && st & LOCKED == 0
      modifies this
      ensures Valid() && WellFormed(seen)
      ensures acquired ==> Run(words, k + 1, trace') && Acquired(trace')
      ensures acquired ==> Last(trace').CasLocked? && state == Last(trace').expected | LOCKED && IsLocked(state)
      ensures !acquired ==> AtTop(words, k + 1, trace', seen, spin)
      ensures waiters == old(waiters) && runs == old(runs)
    {
      WellFormedWords(st);
      StepCasLocked(words, k, trace, st, spin);
      var ok;
      ok, seen := CompareExchange(words[k], st, st | LOCKED);
      trace' := trace + [CasLocked(st, seen)];
      acquired := ok;
      LockingKeepsParked(st);
    }

    /** Lines 147-167: the word is locked without PARKED, so spin while the
        budget lasts and then try to set PARKED. */
    method SetParked(words: seq<Word>, k: nat, trace: seq<Event>, st: Word, spin: nat)
      returns (k': nat, trace': seq<Event>, st': Word, spin': nat, next: Next)
      requires Valid() && AtTop(words, k, trace, st, spin) && WellFormed(st)
      requires forall i | 0 <= i < |words| :: WellFormed(words[i])
      requires k < |words| && st & LOCKED != 0 && st & PARKED == 0
      modifies this
      ensures Valid() && k < k' <= |words| && WellFormed(st')
      ensures next.Stop? ==> !next.acquired && Run(words, k', trace') && !Acquired(trace')
      ensures next.Again? ==> AtTop(words, k', trace', st', spin')
      ensures next.Guard? ==> k' < |words| && AtGuard(words, k', trace')
      ensures waiters == old(waiters) && runs == old(runs)
    {
      if spin < MaxSpin {
        StepSpin(words, k, trace, st, spin);
        spin' := spin + 1;
        var d := SpinDelay(spin');
        st' := Observe(words[k]);
        trace' := trace + [Backoff(d)] + [Load(st')];
        return k + 1, trace', st', spin', Again;
      }
      WellFormedWords(st);
      StepCasParked(words, k, trace, st, spin);
      var ok, seen := CompareExchange(words[k], st, st | PARKED);
      trace' := trace + [CasParked(st, seen)];
      k', st', spin' := k + 1, st, spin;
      if !ok {
        return k', trace', seen, spin', Again;
      }
      if k' == |words| {
        return k', trace', st', spin', Stop(false);
      }
      return k', trace', st', spin', Guard;
    }

    /** The part of an iteration of `lock_slow` before the queue guard
        (lines 133-167): take an unlocked word, spin, or set PARKED. */
    method Attempt(words: seq<Word>, k: nat, trace: seq<Event>, st: Word, spin: nat)
      returns (k': nat, trace': seq<Event>, st': Word, spin': nat, next: Next)
      requires Valid() && AtTop(words, k, trace, st, spin) && WellFormed(st)
      requires forall i | 0 <= i < |words| :: WellFormed(words[i])
      modifies this
      ensures Valid() && k <= k' <= |words| && WellFormed(st')
      ensures next.Stop? ==> Run(words, k', trace') && (next.acquired <==> Acquired(trace'))
      ensures next.Stop? && next.acquired ==> Last(trace').CasLocked? && state == Last(trace').expected | LOCKED
      ensures next.Stop? && next.acquired ==> IsLocked(state)
      ensures next.Again? ==> k < k' && AtTop(words, k', trace', st', spin')
      ensures next.Guard? ==> k' < |words| && AtGuard(words, k', trace')
      ensures waiters == old(waiters) && runs == old(runs)
    {
      k', trace', st', spin' := k, trace, st, spin;
      if k == |words| {
        return k', trace', st', spin', Stop(false);
      }
      if st & LOCKED == 0 {
        var seen, acquired;
        trace', seen, acquired := TakeUnlocked(words, k, trace, st, spin);
        if acquired {
          return k + 1, trace', st', spin', Stop(true);
        }
        return k + 1, trace', seen, spin', Again;
      }
      if st & PARKED == 0 {
        k', trace', st', spin', next := SetParked(words, k, trace, st, spin);
        return;
      }
      StepToGuard(words, k, trace, st, spin);
      next := Guard;
    }

    /** One iteration of the loop of `lock_slow` (lines 133-199): an
        attempt, then the queue guard when the attempt gets there, then the
        reload. Returns `Some(acquired)` when `lock_slow` returns. */
    method Iterate(words: seq<Word>, releases: seq<Release>, thread: ThreadId, k: nat, r: nat,
                   trace: seq<Event>, st: Word, spin: nat, waiter: Option<Waiter>)
      returns (k': nat, r': nat, trace': seq<Event>, st': Word, spin': nat, waiter': Option<Waiter>, stop: Option<bool>)
      requires Valid() && AtTop(words, k, trace, st, spin) && WellFormed(st) && r <= |releases|
      requires waiter.Some? ==> waiter.value !in waiters
      requires forall i | 0 <= i < |words| :: WellFormed(words[i])
      requires forall i | 0 <= i < |releases| :: WellFormed(releases[i].word) && IsLocked(releases[i].word)
      modifies this, set x | x in waiters, if waiter.Some? then {waiter.value} else {}
      ensures Valid() && r' <= |releases|
      ensures stop.Some? ==> Run(words, k', trace') && (stop.value <==> Acquired(trace'))
      ensures stop == Some(true) ==> IsLocked(state)
      ensures stop == Some(true) && Last(trace').CasLocked? ==> state == Last(trace').expected | LOCKED
      ensures stop.None? ==> k < k' && AtTop(words, k', trace', st', spin') && WellFormed(st')
      ensures stop.None? && waiter'.Some? ==> waiter'.value !in waiters
      ensures waiter'.Some? ==> waiter' == waiter || fresh(waiter'.value)
      ensures forall x | x in waiters :: x in old(waiters) || fresh(x) || waiter == Some(x)
      ensures runs == old(runs)
    {
      r', waiter' := r, waiter;
      var next;
      k', trace', st', spin', next := Attempt(words, k, trace, st, spin);
      if next.Stop? {
        return k', r', trace', st', spin', waiter', Some(next.acquired);
      } else if next.Again? {
        return k', r', trace', st', spin', waiter', None;
      }
      k', r', trace', waiter', stop := QueueGuard(words, k', trace', waiter, releases, r, thread);
      if stop.Some? {
        return;
      }
      var out;
      k', trace', st', out := Reload(words, k', trace');
      spin' := 0;
      if out {
        stop := Some(false);
      }
    }

    /** `lock_slow` (lines 127-200) for the thread `thread`. */
    method LockSlow(words: seq<Word>, releases: seq<Release>, thread: ThreadId) returns (acquired: bool, trace: seq<Event>)
      requires Valid()
      requires forall i | 0 <= i < |words| :: WellFormed(words[i])
      requires forall i | 0 <= i < |releases| :: WellFormed(releases[i].word) && IsLocked(releases[i].word)
      modifies this, set x | x in waiters
      ensures Valid()
      ensures Lawful(trace)
      ensures acquired <==> Acquired(trace)
      ensures Observed(trace) <= words
      ensures acquired && Last(trace).CasLocked? ==> state == Last(trace).expected | LOCKED
      ensures acquired ==> IsLocked(state)
      ensures forall x | x in waiters :: x in old(waiters) || fresh(x)
      ensures runs == old(runs)
    {
      var spin: nat := 0;
      var waiter: Option<Waiter> := None;
      var k := 0;
      var r: nat := 0;
      trace := [];
      if words == [] {
        return false, trace;
      }
      var st := Observe(words[0]);
      StartRun(words);
      trace := [Load(st)];
      k := 1;
      while true
        invariant 1 <= k <= |words| && r <= |releases| && Valid()
        invariant AtTop(words, k, trace, st, spin)
        invariant WellFormed(st)
        invariant waiter.Some? ==> fresh(waiter.value) && waiter.value !in waiters
        invariant forall x | x in waiters :: x in old(waiters) || fresh(x)
        invariant runs == old(runs)
        decreases |words| - k
      {
        var stop;
        k, r, trace, st, spin, waiter, stop := Iterate(words, releases, thread, k, r, trace, st, spin, waiter);
        if stop.Some? {
          RunObservesPrefix(words, k, trace);
          return stop.value, trace;
        }
      }
    }

    /** The end of an iteration that did not return (lines 196-199): with
        the spin count reset, load the word again for the next iteration,
        or stop when the run has no word left. */
    method Reload(words: seq<Word>, k: nat, trace: seq<Event>) returns (k': nat, trace': seq<Event>, st: Word, out: bool)
      requires Valid() && Run(words, k, trace) && Spins(trace) == 0
      requires PhaseOf(trace) == Reset || (PhaseOf(trace).Rechecked? && PhaseOf(trace).saw != LOCKED | PARKED)
      requires forall i | 0 <= i < |words| :: WellFormed(words[i])
      modifies this
      ensures Valid() && waiters == old(waiters) && runs == old(runs)
      ensures out ==> Run(words, k', trace') && !Acquired(trace') && Observed(trace') <= words
      ensures !out ==> k < k' && AtTop(words, k', trace', st, 0) && WellFormed(st)
    {
      if k == |words| {
        RunObservesPrefix(words, k, trace);
        return k, trace, UNLOCKED, true;
      }
      StepReload(words, k, trace);
      st := Observe(words[k]);
      trace' := trace + [Load(st)];
      k' := k + 1;
      out := false;
    }

    /** `lock` (lines 104-113): a weak compare-and-swap from UNLOCKED to
        LOCKED that finds `words[0]`, and `lock_slow` on the rest when it
        fails. `spurious` says whether the weak compare-and-swap fails
        although it found UNLOCKED, which sends the thread into `lock_slow`
        too. */
    method Lock(words: seq<Word>, releases: seq<Release>, thread: ThreadId, spurious: bool) returns (acquired: bool, slow: seq<Event>)
      requires Valid()
      requires forall i | 0 <= i < |words| :: WellFormed(words[i])
      requires forall i | 0 <= i < |releases| :: WellFormed(releases[i].word) && IsLocked(releases[i].word)
      modifies this, set x | x in waiters
      ensures Valid()
      ensures words == [] ==> !acquired && slow == []
      ensures words != [] && words[0] == UNLOCKED && !spurious ==> acquired && slow == [] && state == LOCKED
      ensures words != [] && (words[0] != UNLOCKED || spurious) ==>
        Lawful(slow) && (acquired <==> Acquired(slow)) && Observed(slow) <= words[1..]
      ensures acquired ==> IsLocked(state)
      ensures forall x | x in waiters :: x in old(waiters) || fresh(x)
      ensures runs == old(runs)
    {
      if words == [] {
        return false, [];
      }
      var ok := false;
      if spurious {
        var _ := Observe(words[0]);
      } else {
        var seen;
        ok, seen := CompareExchange(words[0], UNLOCKED, LOCKED);
      }
      if ok {
        return true, [];
      }
      acquired, slow := LockSlow(words[1..], releases, thread);
    }

    /** `Lock::with` (lines 24-28): lock, run `f` once, and drop the guard,
        which unlocks (lines 254-258) with a compare-and-swap that finds
        `word` at clock reading `now`; `spurious` is passed on to `Lock`.
        `slow` is what `lock_slow` did; `queued` and `fairness` are the
        queue and the fairness state while `f` ran, just before the
        unlock. */
    method With(f: ActionId, words: seq<Word>, releases: seq<Release>, thread: ThreadId, spurious: bool, word: Word, now: nat)
      returns (ran: bool, slow: seq<Event>, ghost queued: seq<Waiter>, ghost fairness: Fairness)
      requires Valid() && WellFormed(word)
      requires forall i | 0 <= i < |words| :: WellFormed(words[i])
      requires forall i | 0 <= i < |releases| :: WellFormed(releases[i].word) && IsLocked(releases[i].word)
      modifies this, set x | x in waiters
      ensures Valid()
      ensures ran <==> words != [] && ((words[0] == UNLOCKED && !spurious) || Acquired(slow))
      ensures words != [] && (words[0] != UNLOCKED || spurious) ==> Lawful(slow) && Observed(slow) <= words[1..]
      ensures ran ==> runs == old(runs) + [f]
      ensures !ran ==> runs == old(runs) && waiters == queued && Fair() == fairness
      ensures ran && word == LOCKED ==> state == UNLOCKED && waiters == queued && Fair() == fairness
      ensures ran && word != LOCKED ==>
        var h := SlowRelease(word, fairness, |queued|, now, address);
        && state == h.state && Fair() == h.fairness
        && waiters == queued[if queued == [] then 0 else 1..]
        && (queued != [] ==> queued[0].notified && queued[0].acquired == h.fair)
    {
      ran, slow := Lock(words, releases, thread, spurious);
      queued, fairness := waiters, Fair();
      if ran {
        runs := runs + [f];
        Unlock(word, now);
      }
    }
  }
}
