/** Optional values, results with an error, and batch ids, shared by the other modules. */
module Wrappers {

  /** A batch id (Sidekiq::Batch#bid). */
  type Bid = string

  /** A value that may be absent (Ruby's nil). */
  datatype Option<+T> = None | Some(value: T)

  /** A value, or the error that stopped the computation (a raised Ruby exception). */
  datatype Result<+T, +E> = Ok(value: T) | Err(error: E)
}
