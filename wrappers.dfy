/** The optional value used for JSON fields and query parameters that may be absent. */
module Wrappers {

  datatype Option<+T> = None | Some(value: T) {

    /** `x ?? fallback`: the value when present, otherwise the fallback. */
    function GetOr(fallback: T): T {
      match this
      case Some(v) => v
      case None => fallback
    }
  }
}
