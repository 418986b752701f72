/** Failure-carrying result types shared by every stage of the pipeline. */
module Wrappers {

  /** A value that may be absent (a scan that found nothing, a missing key). */
  datatype Option<+T> = None | Some(value: T)

  /** Either a value or the error that stopped the computation. */
  datatype Result<+T, +E> = Ok(value: T) | Err(error: E)
}
