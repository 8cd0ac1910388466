// Vocabulary shared by the lock models: optional values, the outcome of a
// loop that is driven by a finite record of what other threads did, and
// the powers of two that the backoff code computes with `1 << n`.
module Common {

  datatype Option<T> = None | Some(value: T)

  /** The result of a retry loop whose view of the other threads is a finite
      sequence: either the loop returned `result`, or the sequence ran out
      while the loop was still retrying. */
  datatype Progress<T> = Finished(result: T) | Stalled

  /** An opaque handle of a thread that can be parked and unparked. */
  type ThreadId = nat

  /** Stands for a closure `f: impl FnOnce()` handed to a lock; running it is
      recorded by appending its id to a log. */
  type ActionId = nat

  /** `1 << n` on an integer wide enough not to overflow. */
  function Pow2(n: nat): nat
  {
    if n == 0 then 1 else 2 * Pow2(n - 1)
  }

  /** `n` copies of `x`. */
  function Repeat<T>(x: T, n: nat): (s: seq<T>)
    ensures |s| == n
    ensures forall i | 0 <= i < n :: s[i] == x
  {
    if n == 0 then [] else [x] + Repeat(x, n - 1)
  }
}
