/** Small value wrappers shared by the modules of this project. */
module Basics {

  /** An optional value; where a PHP call can answer with a value or nothing, each use says which PHP value "nothing" is. */
  datatype Option<+T> = None | Some(value: T)

  /** A value or the exception a PHP method would have thrown instead. */
  datatype Result<+T, +E> = Ok(value: T) | Err(error: E)
}
