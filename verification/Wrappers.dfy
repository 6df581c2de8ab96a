/** The two wrapper types the other modules use: an optional value, which is
    also how a nullable column or field is modelled, and a value or an
    error, which is how a Go `(value, error)` pair is. */
module Wrappers {
  datatype Option<+T> = None | Some(value: T)

  datatype Result<+T, +E> = Ok(value: T) | Err(error: E)

  /** The success value of an operation that only succeeds or fails. */
  datatype Unit = Unit

  /** Some element of a non-empty set, always the same one. */
  ghost function Pick<T>(s: set<T>): (x: T)
    requires s != {}
    ensures x in s
  {
    var x :| x in s;
    x
  }
}
