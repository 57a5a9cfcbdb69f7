/** Optional values, results and the Java exceptions the modelled code can throw. */
module Wrappers {

  datatype Option<T> = None | Some(value: T)

  datatype Result<T, E> = Success(value: T) | Failure(error: E)

  /** The unchecked exceptions a modelled operation can raise instead of returning. */
  datatype Exception =
    | IllegalArgumentException
    | IllegalStateException
    | SecurityException
    | NullPointerException
    | IndexOutOfBoundsException
    | NumberFormatException
    | ConcurrentModificationException

  /** The outcome of an operation that returns nothing in Java: it completes or it throws. */
  datatype Outcome = Done | Thrown(exception: Exception)
}
