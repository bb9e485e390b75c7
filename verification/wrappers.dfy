/** Optional values and the success-or-exception outcome of a queryset call. */
module Wrappers {

  /** A value that may be absent: Python's `None` or a present object. */
  datatype Option<+T> = None | Some(value: T)

  /** The outcome of a call that may raise instead of returning. */
  datatype Result<+T, +E> = Ok(value: T) | Err(error: E)

  /** The smaller of two naturals. */
  function Min(a: nat, b: nat): nat {
    if a <= b then a else b
  }
}
