# Adaptive-lock benchmark locks in Dafny

This project models the lock algorithms of the `zig-adaptive-lock` benchmark
suite (its Rust mutex benchmarks) and proves what each lock promises. It
covers four locks and two helpers:

- **`spin_lock`**: a test-and-test-and-set spin lock on one boolean flag,
  with a `SpinWait` backoff between attempts.
- **`flume_lock`**: the lock of the `flume` channel crate. It makes rounds
  of ten swap attempts, yields after each failed one, and sleeps
  2^4, 2^5, … nanoseconds between rounds.
- **`safe_parker`**: a parking mutex. A two-bit state word (LOCKED, PARKED)
  sits over a FIFO queue of parked waiters. Releases follow a time-sliced
  fairness policy: barging is allowed until a window ends, then the lock is
  handed to the woken waiter. A xorshift generator jitters the window.
- **`worker_lock`**: a delegation (combining) lock. Blocked threads push a
  waiter holding their closure onto a stack whose head is the state word.
  The thread that took the lock (the *executor*) runs those closures for
  them, batch by batch, and then releases the lock.
- **`SpinWait`**: the bounded backoff counter of the spin lock.
- **`CachePadded<T>`**: a transparent, cache-line-aligned wrapper.

Other threads are modelled as oracles. `env` or `words` gives the value the
other threads leave in the lock word just before each atomic access of the
modelled thread. `releases` lists the lock holder's releases while a thread
is parked. `batches` lists the waiters other threads publish while the
executor holds the lock. A run whose oracle runs out reports that it has
not (yet) acquired, so every loop terminates.

Each lock's loop is specified by a function over its oracle: `Spin`,
`Rounds`, `TryLockRun`, `ContendFrom` and `DrainFrom`. Each imperative
method is proved equal to that function. The lock's guarantees are then
proved of the function, or of the trace it produces, as lemmas:

- mutual exclusion from the thread's side;
- the backoff discipline;
- progress when the lock is seen free;
- bounded barging;
- every delegated closure is run exactly once.

Files:

- `common.dfy`: shared types.
- `cache_padded.dfy`
- `spin_wait.dfy`
- `spin_lock.dfy`
- `flume_lock.dfy`
- `parker_spec.dfy` and `safe_parker.dfy`: value-level rules, then the
  mutable objects.
- `worker_spec.dfy` and `worker_lock.dfy`: value-level rules, then the
  mutable object.

## Model

| member | source | states |
|---|---|---|
| CachePadding.New | src/utils/cache_padded.rs:74-76 | wrapping a value and unwrapping gives that value back |
| CachePadding.From | src/utils/cache_padded.rs:54-58 | the `From` conversion is `new` and unwraps to the value |
| CachePadding.AsRef | src/utils/cache_padded.rs:60-64 | `as_ref` yields the wrapped value |
| CachePadding.IntoInner | src/utils/cache_padded.rs:79-81 | the value handed back is the only thing the wrapper holds; `NewIntoInnerInverse` proves it inverse to `new` |
| CachePadding.Deref | src/utils/cache_padded.rs:84-90 | `deref` goes through `as_ref` and yields the wrapped value |
| CachePadding.AsMut | src/utils/cache_padded.rs:66-70 | a write through `as_mut` changes the wrapped value by exactly that write |
| CachePadding.DerefMut | src/utils/cache_padded.rs:92-96 | `deref_mut` goes through `as_mut`; a write through it changes the wrapped value by exactly that write |
| CachePadding.NewIntoInnerInverse | src/utils/cache_padded.rs:72-82 | `new` and `into_inner` are inverse in both directions |
| CachePadding.WriteThenUnwrap | src/utils/cache_padded.rs:66-82 | unwrapping after a write returns what was written; writing back the old value changes nothing |
| CachePadding.CompareWrapped | src/utils/cache_padded.rs:48-49 | two wrappers are equal exactly when their wrapped values are, and wrapping two values keeps their order under the derived ordering |
| Backoff.PauseAt | benches/mutex/util/spin_wait.rs:31-39 | a step busy-waits with 2^counter hints (at least 2) exactly while the counter is at most 3, otherwise yields to the OS |
| Backoff.YieldStep | benches/mutex/util/spin_wait.rs:26-42 | `yield_now` succeeds iff the counter is at most 10; success bumps the counter and pauses, failure changes nothing; a counter at most 11 stays at most 11 |
| Backoff.CounterStaysBounded | benches/mutex/util/spin_wait.rs:26-31 | any number of calls keeps a counter that starts at most 11 at most 11 |
| Backoff.ExhaustedAfter | benches/mutex/util/spin_wait.rs:26-42 | from counter c (at most 11), exactly 11 - c calls return true and the next returns false |
| Backoff.ElevenYieldsFromReset | benches/mutex/util/spin_wait.rs:18-42 | after `new` or `reset`, eleven calls succeed and the twelfth fails |
| Backoff.ExhaustionIsStable | benches/mutex/util/spin_wait.rs:26-29 | once exhausted, every call returns false and leaves the counter unchanged |
| Backoff.SpinWait.constructor | benches/mutex/util/spin_wait.rs:18-20 | the counter starts at 0 |
| Backoff.SpinWait.Reset | benches/mutex/util/spin_wait.rs:22-24 | the counter is 0 afterwards |
| Backoff.SpinWait.YieldNow | benches/mutex/util/spin_wait.rs:26-42 | the in-place update agrees with `YieldStep`: returns true iff the counter was at most 10, bumping it only then |
| SpinLock.BackoffStep | benches/mutex/spin_lock.rs:44-47 | the backoff always pauses; on exhaustion it resets and yields once more; the counter stays within 1..11 |
| SpinLock.BackoffPauseShort | benches/mutex/spin_lock.rs:44-47 | every busy-wait of the backoff is at most 8 hints |
| SpinLock.Spin | benches/mutex/spin_lock.rs:39-50 | the loop specification: its trace is no shorter than what was done before, and it acquires only with a final swap that found the flag clear; `SpinExtends` and `SpinKeepsPromises` prove the rest |
| SpinLock.SpinExtends | benches/mutex/spin_lock.rs:39-50 | the trace of a run from any iteration begins with everything done before that iteration |
| SpinLock.SpinKeepsPromises | benches/mutex/spin_lock.rs:39-50 | from any reachable iteration, the loop keeps the test-and-test-and-set discipline and short spins, observes `env` in order, and acquires iff its last swap found the flag clear |
| SpinLock.AcquisitionKeepsPromises | benches/mutex/spin_lock.rs:35-51 | every run of `acquire` keeps those promises and observes all of `env` when it does not acquire |
| SpinLock.AcquiredOnlyOnClearFlag | benches/mutex/spin_lock.rs:40-42 | `acquire` succeeds only through an access that observed the flag clear |
| SpinLock.UncontendedAcquiresAtOnce | benches/mutex/spin_lock.rs:36-42 | on a clear flag, the first swap acquires and nothing else happens |
| SpinLock.TwoClearObservationsAcquire | benches/mutex/spin_lock.rs:39-50 | progress: two consecutive clear observations from any point on guarantee acquisition |
| SpinLock.ClearWindowAcquires | benches/mutex/spin_lock.rs:35-51 | progress from the start: two consecutive clear observations anywhere in `env` make `acquire` succeed |
| SpinLock.Lock.constructor | benches/mutex/spin_lock.rs:23-25 | the flag starts clear |
| SpinLock.Lock.Acquire | benches/mutex/spin_lock.rs:35-51 | the in-place loop equals the `Spin` specification; it leaves the flag set when it acquires |
| SpinLock.Lock.SwapIn | benches/mutex/spin_lock.rs:40 | the swap returns the flag the others left and leaves it set |
| SpinLock.Lock.LoadFlag | benches/mutex/spin_lock.rs:49 | the load returns the flag the others left |
| SpinLock.Lock.BackOff | benches/mutex/spin_lock.rs:44-47 | the `SpinWait` calls agree with `BackoffStep` and always pause |
| SpinLock.Lock.Release | benches/mutex/spin_lock.rs:53-55 | the flag is clear afterwards |
| SpinLock.Lock.With | benches/mutex/spin_lock.rs:27-31 | the closure runs exactly once and the flag is clear afterwards |
| FlumeLock.Rounds | benches/mutex/flume_lock.rs:40-49 | the loop specification: its trace is no shorter than what was done before, and it acquires only with a final swap that found the flag clear; `RoundsExtend` and `RoundsMatchExpected` prove the rest |
| FlumeLock.RoundsExtend | benches/mutex/flume_lock.rs:40-49 | the trace of a run from any attempt begins with everything done before that attempt |
| FlumeLock.FirstClear | benches/mutex/flume_lock.rs:42 | the index of the first swap that finds the flag clear: every earlier one finds it set |
| FlumeLock.RoundsMatchExpected | benches/mutex/flume_lock.rs:40-49 | from any position of any round, the loop equals the reference `Expected`: every swap before the first clear observation fails, and that one acquires |
| FlumeLock.AcquisitionIsExpected | benches/mutex/flume_lock.rs:38-50 | a whole run of `acquire` equals the reference definition |
| FlumeLock.AcquiredIffClearObserved | benches/mutex/flume_lock.rs:41-44 | `acquire` succeeds iff some swap finds the flag clear |
| FlumeLock.SleepsAppend | benches/mutex/flume_lock.rs:47 | the sleeps of a concatenated trace are the sleeps of its parts |
| FlumeLock.FailedSleeps | benches/mutex/flume_lock.rs:39-48 | after n failed swaps there is one sleep per completed round of ten, the k-th lasting 2^(4+k) ns |
| FlumeLock.Lock.constructor | benches/mutex/flume_lock.rs:24-28 | the flag starts clear |
| FlumeLock.Lock.Acquire | benches/mutex/flume_lock.rs:38-50 | the in-place loops equal the `Rounds` specification; the flag is set when it acquires |
| FlumeLock.Lock.SwapIn | benches/mutex/flume_lock.rs:42 | the swap returns the flag the others left and leaves it set |
| FlumeLock.Lock.Release | benches/mutex/flume_lock.rs:52-54 | the flag is clear afterwards |
| FlumeLock.Lock.With | benches/mutex/flume_lock.rs:30-34 | the closure runs exactly once and the flag is clear afterwards |
| ParkerSpec.WellFormedWords | benches/mutex/safe_parker.rs:56-58 | the words made of the two bits are exactly 0..3, and setting either bit keeps a word well formed |
| ParkerSpec.LockingKeepsParked | benches/mutex/safe_parker.rs:133-140 | setting LOCKED yields a locked word and leaves PARKED as it was |
| ParkerSpec.XorShift | benches/mutex/safe_parker.rs:219-221 | the xorshift step yields 0 iff its seed is 0 |
| ParkerSpec.Jitter | benches/mutex/safe_parker.rs:222 | a renewed window's jitter is below one millisecond |
| ParkerSpec.Decide | benches/mutex/safe_parker.rs:209-227 | the first contended release opens a 1 ms window, seeded from the address, without handing off; later ones hand off iff the clock is past the window, then advance the generator and renew the window by less than 1 ms |
| ParkerSpec.Decisions | benches/mutex/safe_parker.rs:209-227 | one decision per contended release |
| ParkerSpec.BargingEndsWithWindow | benches/mutex/safe_parker.rs:215-226 | bounded barging: a streak of releases that do not hand off all happen before the open window ends |
| ParkerSpec.FirstWindowIsOneMillisecond | benches/mutex/safe_parker.rs:209-227 | from a fresh queue, the first release never hands off, and barging lasts at most 1 ms past it |
| ParkerSpec.Released | benches/mutex/safe_parker.rs:229-234 | after a pop, the word has LOCKED iff the release hands off and either no waiter remains or LOCKED was set; it has PARKED iff the release does not hand off, or waiters remain and PARKED was set |
| ParkerSpec.SlowRelease | benches/mutex/safe_parker.rs:203-246 | only a release that popped a waiter hands off; an empty queue frees the lock and keeps the fairness state; after a pop the lock stays held iff it is handed off |
| ParkerSpec.ReleaseOutcomes | benches/mutex/safe_parker.rs:203-246 | an empty queue frees the lock; a hand-off keeps it locked with PARKED set iff waiters remain; a release without hand-off clears LOCKED and leaves PARKED set |
| ParkerSpec.TryLockRun | benches/mutex/safe_parker.rs:85-101 | the loop specification of `try_lock`: it takes only a word without LOCKED and refuses only one with LOCKED; `TryLockDecidesOnLockedBit` proves both words were observed |
| ParkerSpec.TryLockDecidesOnLockedBit | benches/mutex/safe_parker.rs:85-101 | `try_lock` refuses only an observed word with LOCKED set and takes only a word without it |
| ParkerSpec.TryLockFirstAttempt | benches/mutex/safe_parker.rs:85-101 | on an unlocked mutex `try_lock` takes it at once; on a locked one it gives up after one attempt |
| ParkerSpec.SpinsBounded | benches/mutex/safe_parker.rs:146-156 | the spin count never exceeds its budget of 5 |
| ParkerSpec.BackoffIsBounded | benches/mutex/safe_parker.rs:147-153 | the s-th busy-wait since a reset is `SpinDelay(s)`: at most 8 hints or a sleep of at most 32 ns |
| ParkerSpec.ParkedOnlyAfterSpinning | benches/mutex/safe_parker.rs:146-166 | PARKED is requested only once the spin budget is used up, on a word locked without PARKED |
| ParkerSpec.EnqueueIffParkedRecheck | benches/mutex/safe_parker.rs:169-185 | the waiter is queued exactly when the re-read under the queue guard found LOCKED, PARKED |
| ParkerSpec.SpinRestartsAfterPark | benches/mutex/safe_parker.rs:188-198 | a park cycle without hand-off restarts spinning from zero |
| ParkerSpec.AcquiredOnlyByCasOrHandoff | benches/mutex/safe_parker.rs:133-140 | `lock_slow` holds the lock only by a CAS that set LOCKED in an unlocked word it observed, or by a hand-off after parking |
| SafeParker.Waiter.constructor | benches/mutex/safe_parker.rs:177-181 | a new waiter is neither acquired nor notified |
| SafeParker.Mutex.constructor | benches/mutex/safe_parker.rs:67-73 | unlocked, no waiters, no fairness window |
| SafeParker.Mutex.Observe | benches/mutex/safe_parker.rs:130 | a load returns what the other threads left |
| SafeParker.Mutex.CompareExchange | benches/mutex/safe_parker.rs:134-139 | the CAS succeeds iff the word equals `expected`, and then stores `desired` |
| SafeParker.Mutex.TryLock | benches/mutex/safe_parker.rs:85-101 | the in-place loop equals `TryLockRun`; a success sets LOCKED in the word it took; a refusal leaves the word it observed, which has LOCKED set |
| SafeParker.Mutex.DecideFairness | benches/mutex/safe_parker.rs:209-227 | the in-place update of the window and generator agrees with `Decide` |
| SafeParker.Mutex.UnlockSlow | benches/mutex/safe_parker.rs:203-246 | pops the front waiter, stores the word `SlowRelease` gives, tells that waiter whether it owns the lock, notifies it, and leaves every other waiter untouched |
| SafeParker.Mutex.Unlock | benches/mutex/safe_parker.rs:116-124 | a word at exactly LOCKED is freed on the fast path; any other word goes through `unlock_slow` |
| SafeParker.Mutex.Park | benches/mutex/safe_parker.rs:188-190 | the thread wakes iff a release popped and notified its waiter; every release comes from the holder, and a woken waiter is told it owns the lock exactly when the release left the word locked |
| SafeParker.Mutex.PushWaiter | benches/mutex/safe_parker.rs:173-185 | the waiter is created once and reused, un-notified, and pushed at the back of the queue |
| SafeParker.Mutex.QueueGuard | benches/mutex/safe_parker.rs:169-195 | re-reads under the guard, parks iff it found LOCKED, PARKED, and returns acquired exactly on a hand-off, which leaves the word locked |
| SafeParker.Mutex.TakeUnlocked | benches/mutex/safe_parker.rs:133-143 | a CAS that sets LOCKED; on success the word is the observed word with LOCKED |
| SafeParker.Mutex.SetParked | benches/mutex/safe_parker.rs:146-167 | spins while the budget lasts, then CASes PARKED in; every path keeps the run lawful |
| SafeParker.Mutex.Attempt | benches/mutex/safe_parker.rs:133-167 | one attempt at the top of the loop keeps the run lawful and either stops, restarts, or reaches the guard |
| SafeParker.Mutex.Iterate | benches/mutex/safe_parker.rs:133-199 | one iteration of the loop: it either ends `lock_slow` with a lawful run that acquired iff its trace ends acquired, leaving the word locked when it did, or returns to the top of the loop with at least one more word observed |
| SafeParker.Mutex.Reload | benches/mutex/safe_parker.rs:196-198 | after a park cycle the spin count is reset and the word reloaded |
| SafeParker.Mutex.LockSlow | benches/mutex/safe_parker.rs:127-200 | every run is lawful, observes the words in order, and acquires iff its event trace ends acquired; an acquisition leaves the word locked |
| SafeParker.Mutex.Lock | benches/mutex/safe_parker.rs:104-113 | an unlocked word is taken at once unless the weak compare-and-swap fails spuriously; otherwise `lock_slow` runs on the remaining words; an acquisition leaves the word locked |
| SafeParker.Mutex.With | benches/mutex/safe_parker.rs:24-28 | the closure runs once iff the first CAS finds the word unlocked and does not fail spuriously, or `lock_slow`'s lawful trace ends acquired; after it runs, the guard's unlock (lines 254-258) frees a word at exactly LOCKED and otherwise leaves the state, fairness and queue that `SlowRelease` gives, notifying the popped waiter |
| WorkerSpec.ContendFrom | benches/mutex/worker_lock.rs:52-98 | the loop specification: its trace is no shorter than what was done before, and it ends with a role only through a last access that succeeded; `ContendExtends`, `ContendKeepsPromise` and `ContentionKeepsPromise` prove the rest |
| WorkerSpec.ContendExtends | benches/mutex/worker_lock.rs:52-98 | the trace of a contender run from any iteration begins with everything done before that iteration |
| WorkerSpec.ContendKeepsPromise | benches/mutex/worker_lock.rs:52-98 | from any reachable iteration the contender keeps its rules: it spins only on a word of exactly 1, at most 100 times, and succeeds only with its last access |
| WorkerSpec.ContentionKeepsPromise | benches/mutex/worker_lock.rs:52-98 | a contender becomes the executor iff its CAS from 0 succeeds, and publishes its waiter only over a word it found, linked to the waiter that word points to |
| WorkerSpec.UncontendedTakesLock | benches/mutex/worker_lock.rs:55-58 | a contender that finds 0 takes the lock with its first access |
| WorkerSpec.HandshakeWakesEveryParkedWaiter | benches/mutex/worker_lock.rs:85-96 | in every interleaving with the executor's swap (lines 124-131), the waiter parks iff the executor wakes it |
| WorkerSpec.PushAll | benches/mutex/worker_lock.rs:69-83 | publishing keeps every stored waiter and leaves the newest waiter of the batch stored and on top; `PushAllLinks` proves the links |
| WorkerSpec.PushAllLinks | benches/mutex/worker_lock.rs:69-83 | publishing a batch of distinct addresses stores each waiter linked to the one before it, the oldest to the previous head, and leaves the newest on top |
| WorkerSpec.Walk | benches/mutex/worker_lock.rs:116-134 | the walk only releases frames, runs at most one closure per unit of fuel, and wakes at most one thread per closure it runs; `WalkServesBatch` proves what it serves |
| WorkerSpec.WalkServesBatch | benches/mutex/worker_lock.rs:116-134 | the walk from a batch's head down to the previous head runs the closures newest first, wakes exactly the parked threads, and releases every frame it served |
| WorkerSpec.RoundServesBatch | benches/mutex/worker_lock.rs:106-134 | one executor round over a non-empty batch servable on the last head finds the new head and serves the whole batch |
| WorkerSpec.DrainRound | benches/mutex/worker_lock.rs:103-134 | a round over a servable batch serves it and hands the next round the batch's newest waiter as its head |
| WorkerSpec.DrainFrom | benches/mutex/worker_lock.rs:103-135 | the executor loop specification: it stores 0 whenever it releases, and it runs and wakes no fewer than before; `DrainExtends` and `DrainServesEveryWaiter` prove the rest |
| WorkerSpec.WalkExtends | benches/mutex/worker_lock.rs:116-134 | a walk keeps the closures already run and the threads already woken as a prefix of its own |
| WorkerSpec.DrainExtends | benches/mutex/worker_lock.rs:103-135 | the executor never drops a closure it ran or a thread it woke: its final runs and wakes begin with those of any earlier point |
| WorkerSpec.DrainServesEveryWaiter | benches/mutex/worker_lock.rs:103-135 | from any round, if no round reuses the address of the head the executor last saw, the executor runs every published closure once, round by round, and wakes every parked thread |
| WorkerSpec.DrainReleasesWhenQuiet | benches/mutex/worker_lock.rs:103-110 | under the same condition, the executor stores 0 iff a round publishes nothing |
| WorkerSpec.ExecutorServesEveryWaiter | benches/mutex/worker_lock.rs:101-135 | if no round reuses the address of the head the executor last saw, the executor runs each closure once, wakes each parked thread, and releases iff a round is quiet, leaving 0 |
| WorkerSpec.ReusedAddressIsNeverServed | benches/mutex/worker_lock.rs:106-110 | when a served thread's next waiter reuses the address of the last head, the CAS to 0 succeeds and that waiter's closure never runs |
| WorkerSpec.ReusedTailIsNeverServed | benches/mutex/worker_lock.rs:106-120 | when the reused address is the oldest waiter of a larger batch, the CAS fails, but the walk stops at that address and its closure never runs |
| WorkerSpec.ServedAddressMayBeReused | benches/mutex/worker_lock.rs:103-135 | a served frame's address may be reused by a later round that does not reuse the last head, and every closure still runs once |
| WorkerLock.Lock.constructor | benches/mutex/worker_lock.rs:41-45 | the word starts at 0 |
| WorkerLock.Lock.CompareExchange | benches/mutex/worker_lock.rs:56 | the CAS succeeds iff the word equals `expected`, and then stores `desired` |
| WorkerLock.Lock.Load | benches/mutex/worker_lock.rs:65 | a load returns what the other threads left |
| WorkerLock.Lock.Contend | benches/mutex/worker_lock.rs:52-98 | the in-place loop equals `ContendFrom`; the executor leaves 1; a publisher leaves the word at its waiter, stored with its link and an empty slot |
| WorkerLock.Lock.SwapSlot | benches/mutex/worker_lock.rs:91 | the swap returns the old slot and stores the new one |
| WorkerLock.Lock.Finish | benches/mutex/worker_lock.rs:124 | the executor's swap of the sentinel returns the old slot and releases the waiter's frame |
| WorkerLock.Lock.Meet | benches/mutex/worker_lock.rs:85-96 | the handshake in place agrees with `Handshake` and wakes the thread iff it parked |
| WorkerLock.Lock.PushBatch | benches/mutex/worker_lock.rs:69-83 | publishing in place agrees with `PushAll` |
| WorkerLock.Lock.Serve | benches/mutex/worker_lock.rs:116-134 | the walk in place agrees with `Walk` and leaves the word as it was; it reads each waiter's `next` and closure before the swap that releases the frame |
| WorkerLock.Lock.Drain | benches/mutex/worker_lock.rs:103-135 | the executor loop in place agrees with `DrainFrom` |
| WorkerLock.Lock.With | benches/mutex/worker_lock.rs:47-135 | contends; the executor runs its own closure first and then drains; a publisher leaves its closure to the executor and meets it in the event handshake, parking exactly when the executor wakes it, which happens only when the executor's swap comes after the publisher's own |
| WorkerLock.WithServesEveryWaiter | benches/mutex/worker_lock.rs:47-135 | if no round reuses the address of the head the executor last saw, the executor runs its closure and then every published closure once, and releases iff a round is quiet |

## Left out

- Memory orderings and interleavings are not modelled. Other threads appear only through the values they leave in the lock word (the oracle parameters), so weak-memory effects are not represented.
- The spurious failures of `compare_exchange_weak` in the loops of `try_lock`, `lock_slow` and the publish of `worker_lock` are not modelled. There such a failure returns the expected word, so the loop retries with the same local state.
- SafeParker.Mutex.Lock and SafeParker.Mutex.With: the spurious failure of the first `compare_exchange_weak` of `lock` is a parameter (`spurious`). Such a failure does not retry: it enters `lock_slow` although the word was UNLOCKED.
- Busy-wait hints, `thread::yield_now`, `thread::sleep`, `park` and `unpark` are recorded as trace events. They are not executed.
- `Instant::now` becomes a clock parameter (`now`, in nanoseconds).
- The mutex address that seeds the xorshift generator is a parameter.
- `thread::current()` becomes a thread identifier.
- SpinLock.Lock.With: callable only on an `env` that lets `acquire` succeed. The source spins forever otherwise.
- FlumeLock.Lock.With: callable only on an `env` that lets `acquire` succeed. The source spins forever otherwise.
- FlumeLock.Rounds: `1 << i` is an unbounded power of two, so the wrap of the shift once `i` reaches the width of the integer (after about 60 rounds) is not modelled.
- The `StdMutex` around the protected value, and the guard's `Deref`/`DerefMut`, are not part of this model. Critical sections are modelled as closure identifiers appended to `runs`.
- `CachePadded`'s alignment attributes are layout only and have no counterpart.
- The benchmark driver (`benches/mutex/mod.rs`) is not part of this model.
- SafeParker.Mutex.Park: the park loop is modelled as the holder's releases running until this thread's waiter is popped. It does not model other lockers joining the queue meanwhile. Each release must find LOCKED set, since only the holder unlocks.
- WorkerSpec.Walk: the walk of a round is bounded by the number of waiters published in that round. `WalkServesBatch` proves that this bound never cuts the walk short when the round is servable on the last head.
- WorkerSpec.Walk: a dereference of an address where nothing was stored stops the walk. In the source that is undefined behaviour.
- WorkerSpec.ExecutorServesEveryWaiter: every waiter is proved to be served only when no round reuses the address of the head the executor last saw (see "Findings").
- WorkerLock.Lock.With: on the publishing path the executor is another thread. Its sentinel swap appears only through the `order` parameter, and the publisher's closure is added to `runs` by that executor's `Drain`, not by the publisher's own call.
- WorkerLock.Lock.Meet: the waiter's frame stays in memory throughout the handshake, since the waiter's own thread is the one running it. Only the executor's walk releases frames.
- After a release that does not hand off, `unlock_slow` stores PARKED, which clears LOCKED, rather than leaving the lock held. The model follows the code.
- PARKED may stay set with an empty queue. The next release then takes the slow path, and stores UNLOCKED.
- The executor never stores 1 back. It walks each new batch down to the previous head and then tries CAS(head → 0). The model follows the code.

## Findings

| source | as written | input that shows it | evidently intended | confidence | as-written member | corrected member |
|---|---|---|---|---|---|---|
| benches/mutex/worker_lock.rs:106-110 | the executor's CAS(last head → 0) compares only the address; a served waiter's thread may return, call `with` again, and publish a new stack waiter at that same address (ABA) | batches `[[Push(2,7,1,false)],[Push(2,8,1,false)]]`: the CAS to 0 succeeds with waiter 8 published, and closure 8 never runs | every published closure runs once and every parked thread is woken, as it is when no round reuses the last head's address | medium: not executed | WorkerSpec.ReusedAddressIsNeverServed | WorkerSpec.ExecutorServesEveryWaiter |
| benches/mutex/worker_lock.rs:112-117 | the walk stops at the bare address of the head served last, so a new waiter at that address below the new batch is taken for the old head (ABA) | batches `[[Push(2,7,1,false)],[Push(2,8,1,false),Push(3,9,2,false)],[]]`: the CAS fails, the walk runs 9 and stops at address 2, and closure 8 never runs | every published closure runs once and every parked thread is woken, as it is when no round reuses the last head's address | medium: not executed | WorkerSpec.ReusedTailIsNeverServed | WorkerLock.WithServesEveryWaiter |
