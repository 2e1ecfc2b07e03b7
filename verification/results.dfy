/** Optional values and success/failure results, used wherever the TypeScript
    code has `null`/`undefined` or throws an `Error`. */
module Results {

  /** A value that may be absent (`null` or `undefined` in the source). */
  datatype Option<+T> = None | Some(value: T)

  /** The outcome of an operation that either produces a value or fails
      with an error (the source throws `new Error(message)`). */
  datatype Result<+T, +E> = Ok(value: T) | Err(error: E)
}
