/** Failure-carrying values: the model's stand-in for Python's None and for
    calls that may raise. */
module Wrappers {

  datatype Option<+T> = None | Some(value: T)

  /** The outcome of a call into code outside the model (an RPC call, an
      HTTP request): a value, or an exception that the caller catches. */
  datatype Result<+T> = Ok(value: T) | Err
}
