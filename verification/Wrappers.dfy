/** The two failure-aware types used across the model. */
module Wrappers {
  datatype Option<+T> = None | Some(value: T)

  datatype Result<+T, +E> = Success(value: T) | Failure(error: E)

  /** Accounts on either chain, as one canonical identifier (the encoding of an address is not modelled). */
  type Address = nat
}
