/**
  One HTTP exchange as the lookup code sees it, and how its status code is
  turned into an error. Status codes are those of RFC 9110 section 15 and,
  for 429, RFC 6585 section 4.
 */
module Http {

  import opened Wrappers
  import opened Errors

  const StatusOK := 200              // RFC 9110 section 15.3.1
  const StatusUnauthorized := 401    // RFC 9110 section 15.5.2
  const StatusForbidden := 403       // RFC 9110 section 15.5.4
  const StatusTooManyRequests := 429 // RFC 6585 section 4

  /** The `*http.Client` a provider holds; requests are modelled by `Exchange` inputs, so nothing looks inside. */
  datatype Client = Client(id: nat)

  /** What `json.Decoder.Decode` made of a response body. */
  datatype Decoded<T> = Decoded(value: T) | Undecodable(cause: string)

  /** The outcome of sending one GET request: no response at all, or a status and a body. */
  datatype Exchange<T> = Failed(cause: string) | Responded(status: int, body: Decoded<T>)

  /**
    The `switch response.StatusCode` of both providers: 200 proceeds,
    403 and 429 are rate limiting, every other status is a bad status.
   */
  function StatusSwitch(status: int, url: string): (r: Option<Error>)
    ensures r.None? <==> status == StatusOK
    ensures r.Some? ==> r.value.TooManyRequests? || r.value.BadHTTPStatus?
    ensures r.Some? ==> r.value.url == url && r.value.status == status
    ensures r.Some? ==> (r.value.TooManyRequests? <==> status in {StatusForbidden, StatusTooManyRequests})
  {
    if status == StatusOK then None
    else if status == StatusTooManyRequests || status == StatusForbidden then Some(TooManyRequests(url, status))
    else Some(BadHTTPStatus(url, status))
  }

  /**
    The token gate in front of the switch: a 401 means the token was refused
    only when a token was sent; without one it is just a bad status.
   */
  function ClassifyStatus(token: string, status: int, url: string): (r: Option<Error>)
    ensures r.None? <==> status == StatusOK
    ensures r.Some? && r.value.TokenNotValid? <==> token != "" && status == StatusUnauthorized
    ensures r.Some? && r.value.TooManyRequests? <==> status in {StatusForbidden, StatusTooManyRequests}
    ensures token != "" && status == StatusUnauthorized ==> r == Some(TokenNotValid(status))
    ensures !(token != "" && status == StatusUnauthorized) ==> r == StatusSwitch(status, url)
  {
    if token != "" && status == StatusUnauthorized then Some(TokenNotValid(status))
    else StatusSwitch(status, url)
  }

  /**
    The error one exchange ends in, if any: the transport error, else the
    status classification, else a decoding error wrapped with `context`.
   */
  function ExchangeError<T>(token: string, url: string, x: Exchange<T>, context: string): (r: Option<Error>)
    ensures r.None? <==> x.Responded? && x.status == StatusOK && x.body.Decoded?
    ensures x.Failed? ==> r == Some(Transport(x.cause))
    ensures x.Responded? && x.status != StatusOK ==> r == ClassifyStatus(token, x.status, url)
    ensures x.Responded? && x.status == StatusOK && x.body.Undecodable? ==> r == Some(Decoding(context, x.body.cause))
  {
    match x
    case Failed(cause) => Some(Transport(cause))
    case Responded(status, body) =>
      var classified := ClassifyStatus(token, status, url);
      if classified.Some? then classified
      else if body.Undecodable? then Some(Decoding(context, body.cause))
      else None
  }
}
