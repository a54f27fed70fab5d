/**
 * The error kinds `extract` can return, and the two ways `extract_triple`
 * can panic instead of returning.
 */
module Errors {

  /** The kinds of `errors::Error` that the modelled code produces. */
  datatype ErrorKind =
    | UrlParseError(reason: string)   // foreign link to `url::ParseError`
    | NoHostError(url: string)        // the URL parsed but names no host
    | Msg(message: string)            // a plain message, from a `&str` via `?`

  /** Message of the error raised when the domain label is bad punycode. */
  const PunycodeErrorMessage: string := "cannot decode punycode"

  /** Message of the `expect` that fires when no suffix rule matched. */
  const EmptyDomainMessage: string := "domain should not be empty"

  /** Why the thread panicked. */
  datatype PanicKind =
    | IndexUnderflow              // `segs[i - 1]` evaluated with `i == 0`
    | ExpectFailed(message: string)

  /** Everything that ends a call without a normal result. */
  datatype Failure =
    | Raised(kind: ErrorKind)     // returned as `Err(..)`
    | Panicked(why: PanicKind)    // the thread panics; no value is returned
}
