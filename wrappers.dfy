/** Option and Result, and the exceptions the modelled code raises. */
module Wrappers {
  datatype Option<T> = None | Some(value: T)

  /** The Python exception (or HTTP-level failure) that ends an operation. */
  datatype Exception =
    | ValueError
    | KeyError(key: string)
    | RuntimeError
    | UnboundLocalError
    | NotImplementedError
    | IndexError
    | IntegrityError
    | MultipleResultsFound
    | TypeError
    | AttributeError
    | FetchError
    | DatabaseError

  datatype Result<T> = Ok(value: T) | Err(error: Exception)
}
