/** Optional values: JavaScript's `null`/`undefined` versus a present value. */
module Opt {

  datatype Option<+T> = None | Some(value: T) {

    /** The value when present, otherwise `default` (JavaScript's `x ?? default`). */
    function GetOr(default: T): T {
      match this
      case Some(v) => v
      case None => default
    }
  }
}
