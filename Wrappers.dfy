/** Option and Result: pandas' missing values and the dashboard's fatal-error path. */
module Wrappers {

  /** A value that may be missing (NaN, NaT, <NA> or None in the dashboard). */
  datatype Option<+T> = None | Some(value: T)

  /** Either a value or the error the dashboard reports before it stops. */
  datatype Result<+R, +E> = Success(value: R) | Failure(error: E)
}
