/** Option and Result, standing in for C#'s nullable references and for exceptions. */
module Wrappers {

  /** A value that may be absent (a C# `T?` that may be null). */
  datatype Option<+T> = None | Some(value: T)

  /** The outcome of an operation that either returns a value or throws. */
  datatype Result<+T, +E> = Ok(value: T) | Err(error: E)
}

/** Identities and instants shared by both services. */
module Identity {

  /** A `Guid`: ids are drawn from a counter, so distinct draws never collide. */
  type Id = nat

  /** `Guid.Empty`, the id of a record nobody has assigned one to; the counters never issue it. */
  const EmptyId: Id := 0

  /** A `DateTime`: a logical clock that advances every time a service reads the time. */
  type Time = nat
}
