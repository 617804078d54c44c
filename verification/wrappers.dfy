/** Option and Result, standing in for Python's `None`/`.get()` defaults and
    for an exception raised by an operation. */
module Wrappers {

  datatype Option<+T> = None | Some(value: T)

  /** The exceptions the modelled code can raise. */
  datatype Error = ZeroDivisionError

  datatype Result<+R> = Success(value: R) | Failure(error: Error)
}
