/** The optional value used across the model: a JavaScript `null`/`undefined`
    (or a result that could not be computed, such as `NaN`) is `None`. */
module Wrappers {

  datatype Option<+T> = None | Some(value: T) {

    /** The value in Some, or the given default when None. */
    function GetOr(default: T): T
    {
      match this
      case Some(v) => v
      case None => default
    }
  }
}
