/** Small shared value types used by several components. */
module Wrappers {

  /** A value that may be absent: JavaScript's `null` for a missing DOM element or an unset state. */
  datatype Option<T> = None | Some(value: T)

  function Min(a: int, b: int): int
  {
    if a <= b then a else b
  }
}
