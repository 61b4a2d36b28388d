/** The two shapes every lookup and every route answer takes in this model. */
module Wrappers {

  /** A lookup that may find nothing (Mongoose's `findById` returning null). */
  datatype Option<+T> = None | Some(value: T)

  /** A route answer: the value it responds with, or the error status it returns. */
  datatype Result<+R, +E> = Success(value: R) | Failure(error: E)

  /** The value, or `d` when there is none (a JavaScript default such as `x || d`). */
  function OrElse<T>(o: Option<T>, d: T): T {
    match o
    case Some(v) => v
    case None => d
  }
}
