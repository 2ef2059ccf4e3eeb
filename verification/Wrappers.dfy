/** Failure-carrying values shared by the models. */
module Wrappers {

  datatype Option<+T> = None | Some(value: T)

  /** What stands for a Go error return, or for a Go run-time panic. */
  datatype Error =
    | Panic           // index out of range
    | HandlerError    // an argument handler refused its argument
    | OpenError       // a file could not be opened
    | ReadError       // a file could not be read to its end

  datatype Result<+T> = Ok(value: T) | Err(error: Error)
}
