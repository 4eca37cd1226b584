/** Identifiers and failure-carrying wrappers shared by every module of the
    booking model. Database primary keys, user references and timestamps are
    opaque comparable values here. */
module Common {

  /** A primary key of a stored record. */
  type Id = int

  /** The primary key of a user account (the owner of an order). */
  type UserId = int

  /** A `DateTimeField` value; only equality is ever used on it. */
  type Timestamp = int

  datatype Option<+T> = None | Some(value: T)

  /** The outcome of an operation that either produces a value or raises. */
  datatype Result<+T, +E> = Ok(value: T) | Err(error: E)
}
