/** The optional-value datatype used wherever the source reads a nullable
    field (`null`, `undefined`) or returns `null` for "nothing computed". */
module Wrappers {

  datatype Option<+T> = None | Some(value: T) {

    /** The wrapped value, or `default` when there is none. */
    function GetOr(default: T): T {
      match this
      case Some(v) => v
      case None => default
    }
  }
}
