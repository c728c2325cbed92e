/** Error values and the Option/Result wrappers used throughout the model. */
module Errors {

  datatype Option<+T> = None | Some(value: T)

  /** The errors the geocoding client reports. */
  datatype GeoError =
    /** A row with fewer than three columns, in `file` after `after` records. */
    | NotEnoughColumns(file: string, after: int)
    /** A sensor column that is not one of the accepted boolean spellings. */
    | ExpectedBoolean(file: string, after: int)
    /** A client ID that the request builder refuses. */
    | InvalidClientId
    /** A signing key that is not valid URL-safe base64. */
    | InvalidKey
    /** A fault reported by the CSV reader. */
    | ReadFault(reason: string)
    /** The reader reached the end of its input (Go's io.EOF). */
    | EndOfInput

  /** A value, or the error that stopped it from being produced. */
  datatype Result<+T> = Ok(value: T) | Err(error: GeoError)
}
