/** Optional values and the two ways a compiler pass can end. */
module Wrappers {

  datatype Option<+T> = None | Some(value: T)

  datatype Result<+T> = Success(value: T) | Failure(error: Error)

  datatype Error = InvalidArgument | IndexOutOfRange
}
