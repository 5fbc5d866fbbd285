/** Optional results for lookups that may find nothing, and results that may fail. */
module Optional {

  /** A lookup that may find nothing (Python's implicit `None` return). */
  datatype Option<+T> = None | Some(value: T)

  /** A computation that either yields a value or stops with an error. */
  datatype Result<+T, +E> = Success(value: T) | Failure(error: E)
}
