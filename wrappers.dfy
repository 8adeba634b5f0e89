/** Option and Result: a NULL slot of the scene array, and the fatal
    configuration errors of the renderer as values instead of exit(1). */
module Wrappers {

  datatype Option<+T> = None | Some(value: T)

  datatype Result<+T, +E> = Success(value: T) | Failure(error: E)
}
