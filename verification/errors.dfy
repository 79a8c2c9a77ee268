/** Result and error kinds shared by the storage engines. */
module Errors {

  /** Rust's `Option`. */
  datatype Option<+T> = None | Some(value: T)

  /** The error kinds of `KvStoreError` that the engines can raise. */
  datatype KvStoreError =
    | IOError          // a file could not be opened, written or read in full
    | SerdeError       // a byte slice of the log did not decode to a command
    | KeyNotFoundError // the key is not in the store

  /** The crate's `Result<T>` alias. */
  datatype Result<+T> = Ok(value: T) | Err(error: KvStoreError)
}
