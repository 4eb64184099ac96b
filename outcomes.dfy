/** Option and Result values for the lookups and failures of the lab generator. */
module Outcomes {

  datatype Option<T> = None | Some(value: T)

  /** The ways a generator step stops instead of producing its output. */
  datatype Fault =
    | KeyError       // a dictionary lookup on a missing key
    | TypeError      // unpacking a non-tuple value into a pair
    | NameError      // a call to a name that is not defined

  datatype Result<T> = Success(value: T) | Failure(fault: Fault)
}
