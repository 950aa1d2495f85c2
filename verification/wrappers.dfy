/** The optional value used wherever the storefront reads a field or a lookup
    that may be absent (`originalPrice`, `products.find`, a missing query
    parameter). */
module Wrappers {

  datatype Option<+T> = None | Some(value: T) {

    /** The wrapped value, or `default` when there is none (JavaScript's `x || d`
        for a value that is never falsy when present). */
    function GetOr(default: T): T {
      match this
      case Some(v) => v
      case None => default
    }
  }
}
