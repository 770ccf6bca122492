/** Failure-compatible value wrappers: a PHP `null` becomes `None`, a thrown
    exception becomes `Failure`. */
module Wrappers {

  datatype Option<+T> = None | Some(value: T)

  datatype Result<+R, +E> = Success(value: R) | Failure(error: E)
}
