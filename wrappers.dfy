/** An optional value: a JavaScript `undefined` (or, where the source treats them alike, `null`) is `None`. */
module Wrappers {
  datatype Option<+T> = None | Some(value: T) {
    function GetOr(default: T): T {
      match this
      case Some(v) => v
      case None => default
    }
  }
}
