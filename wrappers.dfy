/** Optional values, for the browser's key-value store (a key may be absent)
    and for the snapshot an image restore shows. */
module Wrappers {

  datatype Option<+T> = None | Some(value: T) {

    /** The value, or `default` when there is none (`x || default` in the client). */
    function GetOr(default: T): T {
      match this
      case Some(v) => v
      case None => default
    }
  }
}
