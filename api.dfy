/**
  The provider registry: the names of the public-IP metadata providers,
  parsing a user-supplied name into one of them, and building the
  implementation that belongs to a name.
 */
module Api {

  import opened Wrappers
  import opened Text
  import opened Errors
  import opened Http
  import IPApiCo

  /** A provider name; any string has this type, only three are known. */
  type Provider = string

  const IPInfo: Provider := "ipinfo"
  const IP2Location: Provider := "ip2location"
  const IPApi: Provider := "ipapi"

  predicate IsKnown(p: Provider) {
    p == IPInfo || p == IP2Location || p == IPApi
  }

  /**
    An implementation of the `API` interface. The ipinfo.io and ip2location.io
    implementations are not part of this model beyond the client and token they
    are built from.
   */
  datatype API =
    | IPInfoAPI(client: Client, token: string)
    | IP2LocationAPI(client: Client, token: string)
    | IPApiAPI(fetcher: IPApiCo.Fetcher)
  {
    /** The provider this implementation talks to. */
    function Name(): Provider {
      match this
      case IPInfoAPI(_, _) => IPInfo
      case IP2LocationAPI(_, _) => IP2Location
      case IPApiAPI(_) => IPApi
    }

    function Client(): Client {
      if IPApiAPI? then fetcher.client else client
    }

    function Token(): string {
      if IPApiAPI? then fetcher.token else token
    }
  }

  /**
    `New`: the implementation for a known provider, holding the given client
    and token. Any other name makes the source panic, so callers must not pass one.
   */
  function New(provider: Provider, client: Client, token: string): (a: API)
    requires IsKnown(provider)
    ensures a.Name() == provider
    ensures a.Client() == client && a.Token() == token
  {
    if provider == IPInfo then IPInfoAPI(client, token)
    else if provider == IP2Location then IP2LocationAPI(client, token)
    else IPApiAPI(IPApiCo.Fetcher(client, token))
  }

  /**
    `ParseProvider`: the provider whose name is `s` lower-cased, or the empty
    provider and `ErrProviderNotValid` naming `s` as given.
   */
  function ParseProvider(s: string): (r: (Provider, Option<Error>))
    ensures r.1.None? <==> IsKnown(Lower(s))
    ensures r.1.None? ==> r.0 == Lower(s)
    ensures r.1.Some? ==> r.0 == "" && r.1.value == ProviderNotValid(s)
  {
    match Lower(s)
    case "ipinfo" => (IPInfo, None)
    case "ip2location" => (IP2Location, None)
    case "ipapi" => (IPApi, None)
    case _ => ("", Some(ProviderNotValid(s)))
  }

  /**
    Parsing ignores case: `s` and its lower-case form parse to the same
    provider, and fail together (the error then names each string as given).
   */
  lemma ParseIgnoresCase(s: string)
    ensures ParseProvider(Lower(s)).0 == ParseProvider(s).0
    ensures ParseProvider(Lower(s)).1.None? <==> ParseProvider(s).1.None?
  {
    LowerIdempotent(s);
  }

  /** Every provider name parses back to itself: the names are already lower case. */
  lemma ParseName(p: Provider)
    requires IsKnown(p)
    ensures ParseProvider(p) == (p, None)
  {
    LowerFixesLowerCase(p);
  }

  /** A name that parses can be handed to `New`, which then builds that provider. */
  lemma ParseThenNew(s: string, client: Client, token: string)
    requires ParseProvider(s).1.None?
    ensures IsKnown(ParseProvider(s).0)
    ensures New(ParseProvider(s).0, client, token).Name() == Lower(s)
  {
  }
}
