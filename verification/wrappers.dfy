/** Option and Result, used for the NaN-or-row cells of the result table and
    for the exceptions the benchmark script can raise. */
module Wrappers {

  /** A table cell: `None` is a row still holding pandas' NaN placeholders. */
  datatype Option<+T> = None | Some(value: T)

  /** The outcome of a step that the script can abort with an exception. */
  datatype Result<+R, +E> = Success(value: R) | Failure(error: E)
}
