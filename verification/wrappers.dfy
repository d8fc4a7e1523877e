/** The optional-value datatype shared by every module: JavaScript's `undefined`
    and `null` for a missing field, and "not found" for a search. */
module Wrappers {

  datatype Option<+T> = None | Some(value: T) {

    /** Returns the value held in Some, or `default` when there is none. */
    function GetOr(default: T): T {
      match this
      case Some(v) => v
      case None => default
    }
  }
}
