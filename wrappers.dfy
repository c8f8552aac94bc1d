/** Option and Result: the absent value of a lookup and the exception a C++ member throws. */
module Wrappers {

  datatype Option<+T> = None | Some(value: T)

  /** `Err` stands for a `throw` in the source: the message names the failure. */
  datatype Result<+T> = Ok(value: T) | Err(message: string)
}
