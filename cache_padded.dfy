// Model of `CachePadded<T>` (src/utils/cache_padded.rs): a tuple struct that
// holds exactly one value and exists only for its alignment, so that two
// independently contended atomics do not share a cache line. Alignment is a
// property of memory layout and has no counterpart here; what remains is a
// transparent wrapper whose accessors must hand the value back unchanged.
module CachePadding {

  /** `pub struct CachePadded<T>(T)` */
  datatype CachePadded<T> = CachePadded(inner: T)

  /** `CachePadded::new`: wraps `value`; unwrapping gives it back. */
  function New<T>(value: T): (c: CachePadded<T>)
    ensures IntoInner(c) == value
  {
    CachePadded(value)
  }

  /** `CachePadded::into_inner`: consumes the wrapper and returns its value,
      the only thing the wrapper holds. */
  function IntoInner<T>(c: CachePadded<T>): (r: T)
    ensures c == CachePadded(r)
  {
    c.inner
  }

  /** `From<T> for CachePadded<T>`: the conversion is `new`. */
  function From<T>(value: T): (c: CachePadded<T>)
    ensures c == New(value)
    ensures IntoInner(c) == value
  {
    New(value)
  }

  /** `AsRef<T>`: a shared reference to the wrapped value. */
  function AsRef<T>(c: CachePadded<T>): (r: T)
    ensures r == IntoInner(c)
  {
    c.inner
  }

  /** `Deref`: the reference `as_ref` gives, to the wrapped value. */
  function Deref<T>(c: CachePadded<T>): (r: T)
    ensures r == IntoInner(c)
  {
    AsRef(c)
  }

  /** `AsMut<T>`: a unique reference to the wrapped value. A write through
      that reference is modelled as a function `write` from the old value to
      the new one; the result is the wrapper after the write. */
  function AsMut<T>(c: CachePadded<T>, write: T -> T): (c': CachePadded<T>)
    ensures IntoInner(c') == write(IntoInner(c))
  {
    CachePadded(write(c.inner))
  }

  /** `DerefMut`: the reference `as_mut` gives, through which `write` is
      applied to the wrapped value. */
  function DerefMut<T>(c: CachePadded<T>, write: T -> T): (c': CachePadded<T>)
    ensures IntoInner(c') == write(IntoInner(c))
  {
    AsMut(c, write)
  }

  /** The derived `Ord`/`PartialOrd` of a one-field tuple struct: compare the
      wrapped values with the element type's own ordering `less`. */
  predicate Less<T>(a: CachePadded<T>, b: CachePadded<T>, less: (T, T) -> bool)
  {
    less(a.inner, b.inner)
  }

  /** Unwrapping a freshly wrapped value gives that value back, and wrapping
      an unwrapped value gives the same wrapper: `new` and `into_inner` are
      inverse to each other. */
  lemma NewIntoInnerInverse<T>(v: T, c: CachePadded<T>)
    ensures IntoInner(New(v)) == v
    ensures New(IntoInner(c)) == c
  {
  }

  /** A write through `as_mut` followed by `into_inner` returns exactly what
      was written, and a write that stores the old value changes nothing. */
  lemma WriteThenUnwrap<T>(c: CachePadded<T>, v: T)
    ensures IntoInner(AsMut(c, _ => v)) == v
    ensures AsMut(c, _ => IntoInner(c)) == c
  {
  }

  /** Derived equality and ordering see only the wrapped values: two
      wrappers are equal exactly when their values are, and wrapping two
      values keeps their order. */
  lemma CompareWrapped<T>(a: CachePadded<T>, b: CachePadded<T>, x: T, y: T, less: (T, T) -> bool)
    ensures a == b <==> IntoInner(a) == IntoInner(b)
    ensures Less(New(x), New(y), less) <==> less(x, y)
  {
  }
}
