/**
 * The error type shared by the library (src/error.rs) and Rust's `Result<T, SoapError>`.
 * The variants that wrap foreign errors (hyper, std::io, UTF-8) keep no payload here.
 */
module Errors {
  datatype SoapError =
    | NotFound
    | Http
    | Io
    | Encoding
    | Malformed(reason: string)
    | Unexpected(reason: string)

  datatype Result<+T> = Ok(value: T) | Err(error: SoapError)
}
