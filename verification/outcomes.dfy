/** Failure-carrying result types shared by every module of the model. */
module Outcomes {

  /** A value that may be absent. In the dashboard model it also stands for a
      JavaScript number that may be NaN (a failed parseFloat). */
  datatype Option<+T> = None | Some(value: T) {

    /** The value, or `default` when absent. */
    function GetOr(default: T): T {
      match this
      case Some(v) => v
      case None => default
    }
  }

  /** Either a computed value or the error that stopped the computation. */
  datatype Result<+T, +E> = Ok(value: T) | Err(error: E)
}
