/** Error kinds and result wrappers shared by the two resampling scripts. */
module Outcomes {

  /** The failures the resampling core itself raises. */
  datatype Error =
    | EmptyInput          // no source item to resample from
    | InvalidTargetCount  // a target count that is not positive

  /** Either a value or the error that stopped the computation. */
  datatype Result<+T> = Ok(value: T) | Err(error: Error)

  /** A value that may be missing; used where the code would raise an index error. */
  datatype Option<+T> = None | Some(value: T)
}
