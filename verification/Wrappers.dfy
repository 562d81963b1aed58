/** The two failure-carrying types shared by the modules of this project. */
module Wrappers {
  datatype Option<+T> = None | Some(value: T) {
    /** The value, or `default` when there is none: the `??` operator of the source. */
    function OrElse(default: T): T {
      if None? then default else value
    }
  }

  /** A returned value, or the error the source throws instead. */
  datatype Result<+T, +E> = Ok(value: T) | Err(error: E)
}
