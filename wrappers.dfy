/** The absent-or-present value that Python expresses with `None`. */
module Wrappers {

  datatype Option<T> = None | Some(value: T) {

    /** The present value, or `default` when absent (Python's `x or default`
        on a value that is never the empty string is the same). */
    function GetOr(default: T): T {
      match this
      case Some(v) => v
      case None => default
    }
  }
}
