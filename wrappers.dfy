/** Optional values and results with an error, as the rest of the model uses them. */
module Wrappers {

  /** `None` stands for JavaScript's `undefined` wherever a lookup can miss. */
  datatype Option<+T> = None | Some(value: T)

  /** The outcome of an operation that can fail (a rejected promise, a thrown error). */
  datatype Result<+T, +E> = Ok(value: T) | Err(error: E)
}
