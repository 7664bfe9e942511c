/** Failure-carrying values for the exceptions the store and its scope guard throw. */
module Outcomes {

  /** A value that may be absent: `None` stands for a C# `null` argument. */
  datatype Option<+T> = None | Some(value: T)

  /** The exceptions of the core, by kind. */
  datatype Error =
    | ArgumentNull      // ArgumentNullException
    | DuplicateName     // ArgumentException from Dictionary.Add on an existing key
    | ObjectDisposed    // ObjectDisposedException

  /** The result of an operation that returns nothing but may throw. */
  datatype Outcome = Pass | Fail(error: Error)

  /** The result of an operation that returns a value or throws. */
  datatype Result<+R> = Success(value: R) | Failure(error: Error)
}
