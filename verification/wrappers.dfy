/** The two wrappers the model needs: a value that may be `undefined`,
    and the outcome of an awaited provider query. */
module Wrappers {

  /** A value that may be missing (`undefined` in the application). */
  datatype Option<+T> = None | Some(value: T)

  /** A settled promise: fulfilled with a value, or rejected with an error. */
  datatype Result<+R, +E> = Ok(value: R) | Err(error: E)
}
