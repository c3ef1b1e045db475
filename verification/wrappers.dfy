/**
 Option and Result, the shapes used throughout the model for nullable
 columns, absent JSON fields and failing routes.
 */
module Wrappers {

  /** A nullable SQL column, an absent JSON field or an `undefined` value. */
  datatype Option<+T> = None | Some(value: T) {

    /** The value, or `default` when absent (the `x || default` idiom for non-zero values). */
    function GetOr(default: T): T {
      match this
      case Some(v) => v
      case None => default
    }
  }

  /** The outcome of a route: the success payload or the error the handler reports. */
  datatype Result<+T, +E> = Ok(value: T) | Err(error: E)
}
