/** Failure-compatible wrappers shared by every module of the model. */
module Wrappers {

  /** A value that may be absent: JavaScript's `null`/`undefined` result. */
  datatype Option<+T> = None | Some(value: T) {

    /** The value, or `default` when absent (JavaScript's `?? default`). */
    function GetOr(default: T): T {
      match this
      case Some(v) => v
      case None => default
    }
  }

  /**
   * A field of a JSON request body. `Missing` is a key that is not present
   * (`undefined`), `Null` a key present with value `null`, and `Given` any
   * other value, already converted the way the handler converts it.
   */
  datatype Field<+T> = Missing | Null | Given(value: T) {

    /** `body.k !== undefined` */
    predicate IsDefined() {
      !Missing?
    }

    /** `body.k != null` (loose comparison: neither `undefined` nor `null`) */
    predicate IsNonNull() {
      Given?
    }
  }

  /** The outcome of an operation that can be refused with an error. */
  datatype Result<+T, +E> = Ok(value: T) | Err(error: E)
}
