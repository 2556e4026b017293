/** Absent values and failures, shared by every module. */
module Wrappers {

  datatype Option<T> = None | Some(value: T) {
    function GetOr(default: T): T {
      if Some? then value else default
    }

    function OrElse(other: Option<T>): Option<T> {
      if Some? then this else other
    }
  }

  /** A field of a request body: left out, null, or given. */
  datatype Field<T> = Absent | Null | Given(value: T) {

    /** What the field leaves of a column: null clears it. */
    function Over(prior: Option<T>): Option<T> {
      match this
      case Absent => prior
      case Null => None
      case Given(v) => Some(v)
    }

    /** This field after an earlier one for the same column. */
    function After(earlier: Field<T>): Field<T> {
      if Absent? then earlier else this
    }
  }

  datatype Result<+T, +E> = Ok(value: T) | Err(error: E)
}
