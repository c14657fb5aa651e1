/** The Option and Result datatypes used throughout: `None` stands for Python's
    `None` or a missing key, `Err` for a raised exception. */
module Wrappers {
  datatype Option<+T> = None | Some(value: T)

  datatype Result<+T, +E> = Ok(value: T) | Err(error: E)
}
