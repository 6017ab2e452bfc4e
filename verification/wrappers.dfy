/** Failure-compatible wrappers shared by the pipeline modules. */
module Wrappers {

  /** An optional value: a dictionary lookup that may miss, a regex that may not match. */
  datatype Option<+T> = None | Some(value: T) {

    /** The wrapped value, or `default` when there is none (Python's `dict.get(k, default)`). */
    function GetOr(default: T): T {
      match this
      case Some(v) => v
      case None => default
    }
  }

  /** Runtime faults that the Python program would raise as exceptions. */
  datatype Fault = IndexOutOfRange(index: nat, length: nat)

  /** Either a value or the fault that aborted the computation. */
  datatype Result<+R> = Ok(value: R) | Err(fault: Fault)
}
