# Public-IP metadata lookup: a verified model

This project models the public-IP metadata lookup of the VPN client: how a
provider name is parsed and turned into an implementation (`api.go`), and how
the ipapi.co (`ipapi.go`) and api.iplocation.net (`iplocation.go`) providers
compose their request URLs, classify HTTP status codes, decode the answer and
normalise it into a `PublicIP` record.

The network is an input. Each HTTP exchange is an `Http.Exchange` value: either
no response (`Failed`, the error passed through), or a status code plus either a
decoded record or a decode failure. `FetchInfo` of each provider is a method
from (address, token, exchanges) to (result, error, list of URLs requested), so
every branch of the source is covered by its contract. The methods build the URL
by successive appends, as the source does. They are proved against the URL
functions (`RequestURL`, `LookupURL`), and lemmas read those URLs back with
`Text.Cut`.

Modules:
- `Wrappers`: `Option`, for Go's `err` (None is nil).
- `Text`: ASCII `strings.ToLower`, and `Cut`, after `strings.Cut`, a helper the lemmas use to read URLs back into their parts. `strings.Contains(url, "?")` at iplocation.go line 80 has a one-character needle and is written with Dafny's `in`.
- `Models`: `netip.Addr` as a zero value or a valid address with its rendering, and `models.PublicIP`.
- `Errors`: the error values of the `api` package.
- `Http`: status codes (RFC 9110 section 15.3.1 for 200, 15.5.2 for 401, 15.5.4 for 403; RFC 6585 section 4 for 429), exchanges, and status classification.
- `Api`: `api.go`.
- `IPApiCo`: `ipapi.go`.
- `IPLocationNet`: `iplocation.go`.

Observations on the source, reflected in the model:
- `New` registers only ipinfo, ip2location and ipapi. The api.iplocation.net provider has no name and is not built by `New`. Its `FetchInfo` also takes a logger, so it has the `types.Fetcher` shape, not the `API` one.
- `New` panics on an unknown name rather than returning ErrProviderNotValid. The model follows the code: `Api.New` requires a known name, and `Api.ParseThenNew` shows that every parsed name meets that requirement.
- Parsing is case-insensitive in the provider it returns, but the error names the string as given. So `ParseProvider(s)` and `ParseProvider(ToLower(s))` are equal on success and fail together, yet their error texts can differ (`Api.ParseIgnoresCase` states exactly this).
- The get-ip exchange of api.iplocation.net has no token gate: a 401 there is a bad status even when a token is set.
- Country normalisation is not idempotent for every table. It is idempotent when no lower-cased name in the country table is itself a code (`IPApiCo.NormaliseIdempotent`). `IPApiCo.NormaliseNotIdempotentInGeneral` shows a table where it fails.

## Model

| member | source | states |
|---|---|---|
| `Text.Lower` | internal/publicip/api/api.go:46 | lower-casing keeps the length and lower-cases each character in place (ASCII) |
| `Text.LowerIdempotent` | internal/publicip/api/api.go:46 | lower-casing an already lower-cased string changes nothing |
| `Http.StatusSwitch` | internal/publicip/api/ipapi.go:57-65 | 200 yields no error; 403 and 429 yield TooManyRequests; every other status yields BadHTTPStatus; the error carries the URL and the status |
| `Http.ClassifyStatus` | internal/publicip/api/iplocation.go:97-109 | no error exactly on 200; TokenNotValid(401) exactly when a token is set and the status is 401; in every other case the plain status switch decides, so TooManyRequests(url, status) on 403 or 429 and BadHTTPStatus(url, status) on any other non-200, including 401 without a token |
| `Http.ExchangeError` | internal/publicip/api/ipapi.go:42-82 | an exchange succeeds exactly when it answered 200 with a decodable body; a transport error passes through; a non-200 status is classified; a bad body on 200 is a decoding error with its context |
| `IPApiCo.RequestURL` | internal/publicip/api/ipapi.go:32-40 | the URL starts with `https://ipapi.co`; it ends in `/json` without a token and in `/json?key=<token>` with one |
| `IPApiCo.RequestURLParts` | internal/publicip/api/ipapi.go:32-40 | the URL's path is `https://ipapi.co`, then `/ip=<ip>` exactly when the address is valid, then `/json`; it has a query exactly when a token is set, and the query is `key=<token>` |
| `IPApiCo.QueryIffToken` | internal/publicip/api/ipapi.go:32-40 | for an address whose text has no `?`, the URL contains `?` exactly when the token is non-empty |
| `IPApiCo.NormaliseCountry` | internal/publicip/api/ipapi.go:84-88 | when the lower-cased country is a code of the table, the result is the name that code maps to; otherwise the country is kept unchanged (never an error); so the result is the input or a table name |
| `IPApiCo.NormaliseIdempotent` | internal/publicip/api/ipapi.go:84-88 | if no table name is, lower-cased, a code, normalising twice equals normalising once |
| `IPApiCo.NormaliseNotIdempotentInGeneral` | internal/publicip/api/ipapi.go:84-88 | without that condition, normalising twice can differ from normalising once |
| `IPApiCo.Location` | internal/publicip/api/ipapi.go:96 | the location is the latitude, one comma, then the longitude, position by position |
| `IPApiCo.LocationParts` | internal/publicip/api/ipapi.go:96 | the location splits at its first comma back into latitude and longitude, and is `","` when both are absent |
| `IPApiCo.FetchInfo` | internal/publicip/api/ipapi.go:30-102 | exactly one request, to `RequestURL(ip, token)`; the error is that of the exchange, in the priority order of `ClassifyStatus`; every error returns the zero `PublicIP`; on success IP, region, city, hostname, organization, postal code and timezone are copied, the country is normalised and the location is `latitude,longitude` |
| `IPLocationNet.LookupURL` | internal/publicip/api/iplocation.go:72-84 | the URL starts with the bare base `https://api.iplocation.net/`, followed by `?ip=<ip>` when the address is valid; it is the bare base with neither address nor token, `<base>?&key=<token>` with a token and no address, and ends in `&key=<token>` whenever a token is set |
| `IPLocationNet.LookupURLParts` | internal/publicip/api/iplocation.go:72-84 | the lookup URL's path is always the bare base; its query is `ip=<ip>` when the address is valid, followed by `&key=<token>` when a token is set, and absent when neither is present (`?&key=<token>` without an address) |
| `IPLocationNet.LookupQueryParams` | internal/publicip/api/iplocation.go:75-84 | with a token the query splits at `&` into the address parameter, which is empty without an address, and `key=<token>` |
| `IPLocationNet.LookupIsNotGetIP` | internal/publicip/api/iplocation.go:32-34 | the lookup URL never begins with the get-ip URL `https://api.iplocation.net/?cmd=get-ip` |
| `IPLocationNet.DiscoveredZeroLooksUpSelf` | internal/publicip/api/iplocation.go:71-77 | when the get-ip answer has no address, the lookup is still made, with no `ip=` parameter |
| `IPLocationNet.PreliminaryError` | internal/publicip/api/iplocation.go:33-69 | the get-ip exchange succeeds exactly on 200 with a decodable body; a transport error passes through; a non-200 status goes through the plain status switch with the get-ip URL, with no token check; a bad body is "decoding get-ip response" |
| `IPLocationNet.Target` | internal/publicip/api/iplocation.go:33-73 | the lookup is for the given address when valid; otherwise there is a lookup exactly when the get-ip exchange answered 200 with a decodable body, and it is for the address that answer carried (possibly the zero value) |
| `IPLocationNet.FetchInfo` | internal/publicip/api/iplocation.go:30-127 | the get-ip request is made first exactly when the address is invalid, so a valid address gives exactly one request; a failed get-ip exchange ends the call with its error (a 401 is BadHTTPStatus whatever the token); otherwise the lookup's error is classified with the token gate; every error returns the zero `PublicIP`; on success only IP (from the lookup answer), country and organization (from `isp`) are set |
| `Api.New` | internal/publicip/api/api.go:27-38 | for each of the three known names, the implementation of that provider holding the given client and token; other names are excluded by the precondition (the source panics) |
| `Api.ParseProvider` | internal/publicip/api/api.go:45-56 | succeeds exactly when the lower-cased string is `ipinfo`, `ip2location` or `ipapi`, returning that provider; otherwise returns the empty provider and ErrProviderNotValid naming the string as given |
| `Api.ParseIgnoresCase` | internal/publicip/api/api.go:46 | a string and its lower-cased form parse to the same provider and fail together |
| `Api.ParseName` | internal/publicip/api/api.go:45-52 | each provider constant parses back to itself with no error |
| `Api.ParseThenNew` | internal/publicip/api/api.go:27-56 | a successfully parsed provider meets the precondition of `New`, which builds that provider, so parse-then-New never panics |

## Left out

- HTTP transport: building the request and `client.Do` are one `Failed` outcome of an exchange. The model does not tell a request that could not be built from one that was sent. Both appear in the list of URLs requested.
- JSON decoding: an exchange's body is given already decoded (absent fields as empty strings or the zero address), or as a decode failure. The `netip.Addr` text rule that can make decoding fail is part of that failure.
- `netip.Addr`: an address is the zero value or a valid address with its `String()` text. The lemmas that read the ipapi.co URL back assume the text has no `?`; the one that splits the api.iplocation.net query at `&` assumes it has no `&`. Nothing else assumes anything of the text.
- Error texts: errors carry the URL, status code and cause they are built from, not the HTTP status line (`response.Status`) or the formatted message.
- `Text.Lower`: ASCII lower-casing only, not Unicode case folding.
- The country-code table is a parameter of `IPApiCo.FetchInfo`; its contents are not part of this model.
- Context cancellation and deadlines are not modelled separately: they show up as a `Failed` exchange, or as an `Undecodable` body when they strike while the body is read. Body closing and the logger calls of the get-ip step have no effect on results and are not modelled.
- The ipinfo.io and ip2location.io implementations are not part of this model. `New` builds values that record only their client and token.
- The parallel resolver, catalog fetcher and unzipper are interfaces without behaviour. The connection selection of the expressvpn, hidemyass and privatevpn providers calls a shared routine that is not part of this model.
