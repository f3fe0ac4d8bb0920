/** Absent values and thrown errors, as plain data. */
module Wrappers {

  datatype Option<+T> = None | Some(value: T) {
    /** `option ?? default` */
    function GetOr(default: T): T {
      if None? then default else value
    }
  }

  /** An operation of the source either returns a value or throws. */
  datatype Result<+T, +E> = Ok(value: T) | Err(error: E)
}
