/** Optional values (Java's null) and results that carry an error instead of a thrown exception. */
module Wrappers {

  /** `None` stands for Java's `null`. */
  datatype Option<+T> = None | Some(value: T) {
    function GetOr(default: T): T {
      match this
      case Some(v) => v
      case None => default
    }
  }

  /** `Err` stands for an exception the source throws instead of returning. */
  datatype Result<+T, +E> = Ok(value: T) | Err(error: E)
}
