/**
 * The outcome of a step that the source either completes or abandons by
 * raising an exception.
 */
module Outcomes {

  datatype Result<T, E> = Success(value: T) | Failure(error: E)
}
