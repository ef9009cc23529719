/** Option and Result: absent values and the exceptions the Python code raises. */
module Wrappers {

  datatype Option<+T> = None | Some(value: T)

  /** `Err` stands for a Python exception that propagates to the caller. */
  datatype Result<+T> = Ok(value: T) | Err(msg: string)
}
