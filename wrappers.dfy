/** The fallible result used where the source returns `anyhow::Result`. */
module Wrappers {

  datatype Result<+R, +E> = Success(value: R) | Failure(error: E)
}
