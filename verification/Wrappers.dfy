/** Datatypes shared by the models of the commands. */
module Wrappers {

  /** An absent or present value: a pointer that may be NULL, a lookup that may fail. */
  datatype Option<+T> = None | Some(value: T)

  /** What a function of the program returns, or the error exit it takes instead. */
  datatype Result<+T> = Ok(value: T) | Fail
}
