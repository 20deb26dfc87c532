/** The error values of the `api` package, each carrying what its message is built from. */
module Errors {

  datatype Error =
      /** Building the request or `client.Do` failed; the error is passed through unchanged. */
    | Transport(cause: string)
      /** `ErrProviderNotValid`, naming the string as it was given. */
    | ProviderNotValid(given: string)
      /** `ErrTokenNotValid`: a token was set and the server answered 401. */
    | TokenNotValid(status: int)
      /** `ErrTooManyRequests`: 403 or 429 from `url`. */
    | TooManyRequests(url: string, status: int)
      /** `ErrBadHTTPStatus`: any other status that is not 200, from `url`. */
    | BadHTTPStatus(url: string, status: int)
      /** A body that did not decode, wrapped with `context`. */
    | Decoding(context: string, cause: string)
}
