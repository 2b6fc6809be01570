/** Option and Result, the two-outcome values the program uses for
    "maybe absent" and "succeeded or failed with a message". */
module Wrappers {

  datatype Option<+T> = None | Some(value: T)

  datatype Result<+R, +E> = Success(value: R) | Failure(error: E)
}
