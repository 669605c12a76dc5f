/** Option and Result: the JavaScript code signals failure by `undefined`, by a thrown
    Error or by an error-shaped object; the model makes each of those a value. */
module Wrappers {

  datatype Option<+T> = None | Some(value: T)

  datatype Result<+R, +E> = Success(value: R) | Failure(error: E)
}
