/** Failure-compatible wrappers shared by every processor of the model.
    `None` stands for a Java `null` result. */
module Wrappers {

  datatype Option<+T> = None | Some(value: T) {

    /** The value, or `default` for `None` (a Java "null means default"). */
    function GetOr(default: T): T {
      match this
      case Some(v) => v
      case None => default
    }
  }
}
