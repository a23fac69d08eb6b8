/** Optional values: the source's `None`-able integers, strings and dictionaries. */
module Options {

  datatype Option<+T> = None | Some(value: T) {

    /** The value, or `default` where the source writes `x if x is not None else default`. */
    function GetOr(default: T): T {
      match this
      case Some(v) => v
      case None => default
    }
  }

  function Min(a: int, b: int): int {
    if a <= b then a else b
  }

  function Max(a: int, b: int): int {
    if a >= b then a else b
  }
}
