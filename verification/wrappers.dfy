/** Failure-compatible wrappers used throughout the model: an optional value
    (the source's `undefined`/`null`) and a success-or-error result (a
    resolved or rejected promise). */
module Wrappers {

  datatype Option<+T> = None | Some(value: T)

  datatype Result<+R, +E> = Success(value: R) | Failure(error: E) {

    predicate IsFailure() {
      Failure?
    }
  }
}
