/** Optional values, as the decoded profile record carries them. */
module Options {

  datatype Option<+T> = None | Some(value: T) {

    /** The value, or `default` when absent: Rust's `unwrap_or` (and
        `unwrap_or_default` when `default` is the type's zero value). */
    function GetOr(default: T): (r: T)
      ensures Some? ==> r == value
      ensures None? ==> r == default
    {
      match this
      case Some(v) => v
      case None => default
    }
  }
}
