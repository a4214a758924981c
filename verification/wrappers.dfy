/** Optional values and results, used for the reads that may fail and for
    the errors that the migration propagates instead of panicking. */
module Wrappers {

  datatype Option<+T> = None | Some(value: T)

  datatype Result<+T, +E> = Ok(value: T) | Err(error: E)
}
