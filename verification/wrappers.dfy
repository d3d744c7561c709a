/** Optional values and request outcomes shared by the server and client models. */
module Wrappers {

  datatype Option<+T> = None | Some(value: T) {
    function GetOr(default: T): T {
      match this
      case Some(v) => v
      case None => default
    }
  }

  datatype Result<+R, +E> = Ok(value: R) | Err(error: E)

  /** A field of a JSON request body: missing, explicitly `null`, or a value. */
  datatype Field<+T> = Absent | Null | Present(value: T) {
    /** The value of `field ?? fallback` in JavaScript. */
    function OrElse(fallback: T): T {
      match this
      case Present(v) => v
      case _ => fallback
    }
  }

  /** A number: an integer, or any other value (a fraction, NaN, a non-number). */
  datatype Num = Integral(n: int) | NotInteger
}
