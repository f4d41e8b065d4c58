/** Option and Result values used for the null references and thrown exceptions of the simulator. */
module Wrappers {
  datatype Option<T> = None | Some(value: T)

  datatype Result<T, E> = Success(value: T) | Failure(error: E)
}
