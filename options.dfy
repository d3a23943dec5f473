/** Optional values: `None` stands for JavaScript's `undefined` (or a missing
    object property), `Some(v)` for a present value. */
module Options {

  datatype Option<+T> = None | Some(value: T) {

    /** The value, or `default` when there is none. */
    function GetOr(default: T): T {
      match this
      case Some(v) => v
      case None => default
    }
  }
}
