/** Option and Result values standing in for JavaScript's `undefined`
    and for the plain objects the route handlers throw. */
module Wrappers {

  datatype Option<+T> = None | Some(value: T)

  datatype Result<+R, +E> = Ok(value: R) | Failure(error: E)
}
