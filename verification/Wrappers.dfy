/** Optional values and error returns, shared by every other module. */
module Wrappers {

  datatype Option<+T> = None | Some(value: T)

  function ToSeq<T>(x: Option<T>): seq<T> {
    if x.Some? then [x.value] else []
  }

  /** How an insert into a collection that is followed by a read of the new document ends. */
  datatype Insert = Inserted | InsertFails | ReadBackFails

  /** Go's `(value, error)` pair: exactly one of the two is meaningful. */
  datatype Result<+T, +E> = Ok(value: T) | Err(error: E)
}
