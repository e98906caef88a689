/** Failure values for the exceptions the modelled Python code can raise. */
module Wrappers {

  /** The two exceptions reachable in the modelled code. */
  datatype Error =
    | KeyError(key: string)   // a dictionary read of a key that is absent
    | EmptyMax                // `max()` applied to an empty list

  datatype Result<T> = Ok(value: T) | Err(error: Error)
}
