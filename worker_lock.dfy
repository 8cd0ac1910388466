// The delegation lock of benches/mutex/worker_lock.rs as an object: the
// state word is updated in place, and so are the waiters that blocked
// threads keep on their stacks (`memory`, keyed by address). The accesses
// of other threads are given as parameters: the word they leave before
// each atomic access of this thread, and the waiters they publish while
// this thread holds the lock.
module WorkerLock {
  import opened Common
  import opened WorkerSpec

  class Lock {
    /** The `AtomicUsize` state word. */
    var state: Word
    /** The waiters on the stacks of blocked threads. */
    var memory: Memory
    /** The closures run while the lock was held, in order. */
    ghost var runs: seq<ActionId>
    /** The threads unparked by an executor, in order. */
    ghost var woken: seq<ThreadId>

    /** `Lock::new` (lines 41-45): the word starts at 0. */
    constructor ()
      ensures state == Zero && memory == map[] && runs == [] && woken == []
    {
      state := Zero;
      memory := map[];
      runs := [];
      woken := [];
    }

    /** A compare-and-swap of the word, which the other threads left at
        `seen`. */
    method CompareExchange(seen: Word, expected: Word, desired: Word) returns (ok: bool, found: Word)
      modifies this
      ensures found == seen && (ok <==> seen == expected)
      ensures state == if ok then desired else seen
      ensures memory == old(memory) && runs == old(runs) && woken == old(woken)
    {
      state := seen;
      found := state;
      ok := state == expected;
      if ok {
        state := desired;
      }
    }

    /** A load of the word, which the other threads left at `seen`. */
    method Load(seen: Word) returns (found: Word)
      modifies this
      ensures found == seen == state
      ensures memory == old(memory) && runs == old(runs) && woken == old(woken)
    {
      state := seen;
      found := state;
    }

    /** The contender loop of `with` (lines 52-98) up to the point where the
        thread either took the lock or published its waiter, stored at
        `addr` with closure `func`. */
    method Contend(words: seq<Word>, addr: Addr, func: ActionId) returns (role: Role, ghost trace: seq<Access>)
      modifies this
      ensures Contention(role, trace) == Contention0(words)
      ensures role.Executor? ==> state == One
      ensures role.Published? ==> state == Ptr(addr) && memory == old(memory)[addr := Waiter(role.next, func, Null)]
      ensures !role.Published? ==> memory == old(memory)
      ensures runs == old(runs) && woken == old(woken)
    {
      var spin: nat := 0;
      var st := Zero;
      var k := 0;
      trace := [];
      while k < |words|
        invariant k <= |words|
        invariant ContendFrom(words, k, st, spin, trace) == Contention0(words)
        invariant memory == old(memory) && runs == old(runs) && woken == old(woken)
        decreases |words| - k
      {
        if st == Zero {
          var ok, found := CompareExchange(words[k], Zero, One);
          trace := trace + [TakeLock(found)];
          k := k + 1;
          if ok {
            return Executor, trace;
          }
          st := found;
        } else if st == One && spin < SpinBudget {
          spin := spin + 1;
          st := Load(words[k]);
          trace := trace + [SpinLoad(st)];
          k := k + 1;
        } else {
          var waiter := Waiter(NextOf(st), func, Null);
          var ok, found := CompareExchange(words[k], st, Ptr(addr));
          trace := trace + [Publish(st, found)];
          k := k + 1;
          if ok {
            memory := memory[addr := waiter];
            return Published(waiter.next), trace;
          }
          st := found;
        }
      }
      role := Undecided;
    }

    /** A swap of the event slot of the waiter at `addr`. */
    method SwapSlot(addr: Addr, slot: Slot) returns (previous: Slot)
      requires addr in memory
      modifies this
      ensures previous == old(memory)[addr].event
      ensures memory == old(memory)[addr := old(memory)[addr].(event := slot)]
      ensures state == old(state) && runs == old(runs) && woken == old(woken)
    {
      previous := memory[addr].event;
      memory := memory[addr := memory[addr].(event := slot)];
    }

    /** The executor's swap of the sentinel into the slot of the waiter at
        `addr` (line 124). From then on the waiter's thread may return from
        `with`, so its frame is no longer in memory. */
    method Finish(addr: Addr) returns (previous: Slot)
      requires addr in memory
      modifies this
      ensures previous == old(memory)[addr].event
      ensures memory == old(memory) - {addr}
      ensures state == old(state) && runs == old(runs) && woken == old(woken)
    {
      previous := memory[addr].event;
      memory := memory - {addr};
    }

    /** The waiter's side of the handshake (lines 85-96) against the
        executor's swap of the sentinel and wake-up (lines 124-131), the
        executor's swap placed as `order` says. */
    method Meet(addr: Addr, thread: ThreadId, order: Order) returns (parks: bool, wakes: bool)
      requires addr in memory && memory[addr].event == Null
      modifies this
      ensures memory == old(memory)[addr := old(memory)[addr].(event := Handshake(thread, order).slot)]
      ensures Meeting(parks, wakes, memory[addr].event) == Handshake(thread, order)
      ensures woken == old(woken) + (if wakes then [thread] else [])
      ensures state == old(state) && runs == old(runs)
    {
      var executorSaw := Null;
      if order == BeforeLoad {
        executorSaw := SwapSlot(addr, Done);
      }
      var loaded := memory[addr].event;
      parks := false;
      if loaded == Null {
        if order == BetweenLoadAndSwap {
          executorSaw := SwapSlot(addr, Done);
        }
        var previous := SwapSlot(addr, Waiting(thread));
        parks := previous == Null;
      }
      if order == AfterSwap {
        executorSaw := SwapSlot(addr, Done);
      }
      wakes := executorSaw.Waiting?;
      if wakes {
        woken := woken + [executorSaw.thread];
      }
    }

    /** Other threads publish the waiters of `batch`, each on top of the
        word the previous one left. */
    method PushBatch(batch: seq<Push>)
      modifies this
      ensures (memory, state) == PushAll(old(memory), old(state), batch)
      ensures runs == old(runs) && woken == old(woken)
    {
      var i := 0;
      while i < |batch|
        invariant i <= |batch|
        invariant (memory, state) == PushAll(old(memory), old(state), batch[..i])
        invariant runs == old(runs) && woken == old(woken)
      {
        var p := batch[i];
        memory := memory[p.addr := Arrive(p, NextOf(state))];
        state := Ptr(p.addr);
        i := i + 1;
        assert batch[..i][..i - 1] == batch[..i - 1];
      }
      assert batch[..|batch|] == batch;
    }

    /** The walk of lines 116-134 from `current` down to `tail`, visiting at
        most `fuel` waiters. */
    method Serve(current: Option<Addr>, tail: Option<Addr>, fuel: nat)
      modifies this
      ensures Served(memory, runs, woken) == Walk(old(memory), current, tail, fuel, old(runs), old(woken))
      ensures state == old(state)
    {
      var cur := current;
      var left := fuel;
      while cur != tail && left > 0
        invariant Walk(memory, cur, tail, left, runs, woken) == Walk(old(memory), current, tail, fuel, old(runs), old(woken))
        invariant state == old(state)
        decreases left
      {
        if cur.None? || cur.value !in memory {
          break;
        }
        var waiter := cur.value;
        cur := memory[waiter].next;
        runs := runs + [memory[waiter].func];
        var event := Finish(waiter);
        if event.Waiting? {
          woken := woken + [event.thread];
        }
        left := left - 1;
      }
    }

    /** The executor's loop (lines 103-135), entered with the word at 1;
        before its `j`-th compare-and-swap other threads publish
        `batches[j]`. */
    method Drain(batches: seq<seq<Push>>) returns (released: bool)
      requires state == One
      modifies this
      ensures Drained(released, memory, state, runs, woken) == Drain0(old(memory), batches, old(runs), old(woken))
    {
      var expected := One;
      var last: Option<Addr> := None;
      var j := 0;
      while j < |batches|
        invariant j <= |batches| && state == expected
        invariant DrainFrom(memory, expected, last, batches, j, runs, woken) == Drain0(old(memory), batches, old(runs), old(woken))
        decreases |batches| - j
      {
        PushBatch(batches[j]);
        var ok, found := CompareExchange(state, expected, Zero);
        if ok {
          return true;
        }
        expected := found;
        var tail := last;
        last := NextOf(found);
        Serve(NextOf(found), tail, |batches[j]|);
        j := j + 1;
      }
      released := false;
    }

    /** `Lock::with` (lines 47-135) for the thread `thread`: contend; a
        thread that took the lock runs its own closure `f` once and then
        serves the published waiters; a thread that published its waiter
        leaves its closure to the executor and waits for it in the event
        handshake (lines 85-96), the executor's swap of the sentinel placed
        as `order` says. It parks exactly when the executor wakes it. */
    method With(f: ActionId, thread: ThreadId, words: seq<Word>, addr: Addr, batches: seq<seq<Push>>, order: Order)
      returns (role: Role, released: bool, parks: bool, wakes: bool)
      modifies this
      ensures role == Contention0(words).role
      ensures role.Executor? ==> Drained(released, memory, state, runs, woken) == Drain0(old(memory), batches, old(runs) + [f], old(woken))
      ensures role.Published? ==> !released && runs == old(runs) && state == Ptr(addr)
      ensures role.Published? ==> memory == old(memory)[addr := Waiter(role.next, f, Handshake(thread, order).slot)]
      ensures role.Published? ==> (parks <==> wakes) && (parks <==> order == AfterSwap)
      ensures role.Published? ==> woken == old(woken) + (if wakes then [thread] else [])
      ensures !role.Published? ==> !parks && !wakes
      ensures role.Undecided? ==> !released && runs == old(runs) && memory == old(memory) && woken == old(woken)
    {
      ghost var trace;
      role, trace := Contend(words, addr, f);
      released, parks, wakes := false, false, false;
      if role.Executor? {
        runs := runs + [f];
        released := Drain(batches);
      } else if role.Published? {
        parks, wakes := Meet(addr, thread, order);
        HandshakeWakesEveryParkedWaiter(thread, order);
      }
    }
  }

  /** A thread that takes the lock runs its own closure first and then every
      closure published while it held the lock, each once, and unlocks when
      a round publishes nothing, provided no round reuses the address of
      the head the executor last saw. */
  lemma WithServesEveryWaiter(mem: Memory, batches: seq<seq<Push>>, runs: seq<ActionId>, woken: seq<ThreadId>, f: ActionId)
    requires HeadFree(One, batches, 0)
    ensures var d := Drain0(mem, batches, runs + [f], woken);
      && d.runs == runs + [f] + Rounds(batches, 0)
      && (d.released <==> Quiet(batches, 0))
      && (d.released ==> d.word == Zero)
  {
    ExecutorServesEveryWaiter(mem, batches, runs + [f], woken);
  }
}
