/** Optional values and fallible results, as returned by the terminal's lookups and parsers. */
module Wrappers {

  datatype Option<+T> = None | Some(value: T) {

    /** `Option::unwrap_or`: the contained value, or `default` when there is none. */
    function UnwrapOr(default: T): T {
      match this
      case Some(v) => v
      case None => default
    }
  }

  /** A parse result whose error carries no information (Rust's `Result<T, ()>`). */
  datatype Result<+T> = Ok(value: T) | Err
}
