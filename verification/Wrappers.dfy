/** Outcome types shared by the model. */
module Wrappers {

  /** The one run-time failure the scoring code can raise. */
  datatype Error = ZeroDivision

  /** A value, or the exception that aborts the run. */
  datatype Result<+T> = Ok(value: T) | Err(error: Error)

  datatype Option<+T> = None | Some(value: T)
}
