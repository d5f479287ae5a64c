/** The optional-value datatype used wherever the dashboard reads a field that may be
    absent (`?.`, `|| default`) or performs a step that may throw. */
module Wrappers {

  datatype Option<+T> = None | Some(value: T) {

    /** The encapsulated value, or `default` when there is none (the `x || default` idiom). */
    function GetOr(default: T): T {
      match this
      case Some(v) => v
      case None => default
    }
  }
}
