/** Optional values and results, used for pandas' missing values (NaN/NaT)
    and for the exceptions the dashboard can raise. */
module Wrappers {

  datatype Option<+T> = None | Some(value: T)

  datatype Result<+R, +E> = Success(value: R) | Failure(error: E)
}
