/** Error codes, and the result type that stands for the library's exceptions and expected values. */
module Errors {

  datatype StorageError =
    | Success
    | DeviceReadError
    | DeviceWriteError
    | DeviceExpandError
    | InvertedIndexDeserializationError
    | InvertedIndexDeserializationVersionUnsupportedError
    | CorruptedHeaderError
    | InvalidPVSignatureError
    | KeyNotFound
    | KeyDoesntExpired
    | KeyAlreadyCreated
    | CatalogNotFoundError
    | UnknownError
    | UnknownExceptionType

  datatype Result<+T> = Ok(value: T) | Err(error: StorageError)

  datatype Option<+T> = None | Some(value: T)
}
