/** Optional values and success/failure results, standing for java.util.Optional,
    nullable references and the exceptions the services throw. */
module Wrappers {

  datatype Option<+T> = None | Some(value: T)

  datatype Result<+R, +E> = Success(value: R) | Failure(error: E)
}
