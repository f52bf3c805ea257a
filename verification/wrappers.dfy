/** Optional values: the model's stand-in for `undefined`, `null` and the
    `?.` chains of the TypeScript code. */
module Wrappers {

  datatype Option<+T> = None | Some(value: T) {

    /** Returns the value held in Some, or `default` for None. */
    function GetOr(default: T): T {
      match this
      case Some(v) => v
      case None => default
    }
  }
}
