/** The optional value used where the source has `None`. */
module Wrappers {

  datatype Option<+T> = None | Some(value: T) {

    /** The source's `x or default` idiom: the value if present, else the default. */
    function GetOr(default: T): T {
      match this
      case Some(v) => v
      case None => default
    }
  }
}
