/** A nullable value: `None` stands for C#'s `null` and SQL's `NULL`. */
module Wrappers {

  datatype Option<+T> = None | Some(value: T) {

    /** `x ?? d` in C#, `ISNULL(x, d)` in T-SQL. */
    function GetOr(d: T): T {
      match this
      case Some(v) => v
      case None => d
    }
  }

  /** The outcome of an operation that can be refused. */
  datatype Result<+T, +E> = Ok(value: T) | Err(error: E)
}
