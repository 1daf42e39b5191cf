/** Option and Result: the model's stand-ins for TypeScript's optional fields
    (`x?.y`) and for a thrown exception that aborts the batch. */
module Wrappers {

  /** An optional value, as produced by `?.` in the handler. */
  datatype Option<+T> = None | Some(value: T)

  /** Either a value or the error that the handler would have thrown. */
  datatype Result<+R, +E> = Success(value: R) | Failure(error: E)
}
