/**
  The ipapi.co provider: one GET to `https://ipapi.co[/ip=<ip>]/json[?key=<token>]`,
  the status classification, and the mapping of the decoded body onto `PublicIP`
  with the country name normalised through the country-code table.
 */
module IPApiCo {

  import opened Wrappers
  import opened Text
  import opened Models
  import opened Errors
  import opened Http

  /** The provider value `newIPApi` builds: the shared client and the API token ("" for none). */
  datatype Fetcher = Fetcher(client: Client, token: string)

  /** The JSON body as decoded; an absent field decodes to the empty string or the zero address. */
  datatype Body = Body(
    ip: Addr,
    region: string,
    countryName: string,
    city: string,
    hostname: string,
    latitude: string,
    longitude: string,
    org: string,
    postal: string,
    timezone: string)

  const Origin := "https://ipapi.co"

  /** The URL of the single request. */
  function RequestURL(ip: Addr, token: string): (url: string)
    ensures Origin <= url
    ensures token == "" ==> EndsWith(url, "/json")
    ensures token != "" ==> EndsWith(url, "/json?key=" + token)
  {
    Origin + (if ip.IsValid() then "/ip=" + ip.String() else "") + "/json"
      + (if token != "" then "?key=" + token else "")
  }

  /**
    The URL read back: the path names the address exactly when it is valid and
    always ends in `/json`; there is a query exactly when a token is set, and
    then the query is `key=<token>`.
   */
  lemma RequestURLParts(ip: Addr, token: string)
    requires ip.IsValid() ==> '?' !in ip.text
    ensures var path := Origin + (if ip.IsValid() then "/ip=" + ip.text else "") + "/json";
      Cut(RequestURL(ip, token), '?') == if token == "" then (path, "", false) else (path, "key=" + token, true)
  {
    var path := Origin + (if ip.IsValid() then "/ip=" + ip.text else "") + "/json";
    assert '?' !in path;
    assert RequestURL(ip, token) == path + (if token != "" then "?key=" + token else "");
    if token == "" {
      assert path + "" == path;
      CutAbsent(path, '?');
    } else {
      assert path + ("?key=" + token) == path + ['?'] + ("key=" + token);
      CutAfter(path, '?', "key=" + token);
    }
  }

  /** The URL carries a query string exactly when a token is set. */
  lemma QueryIffToken(ip: Addr, token: string)
    requires ip.IsValid() ==> '?' !in ip.text
    ensures '?' in RequestURL(ip, token) <==> token != ""
  {
    RequestURLParts(ip, token);
  }

  /**
    The country as reported: the lower-cased name is looked up in the
    country-code table; a hit is replaced by the table's name, a miss stays.
   */
  function NormaliseCountry(countries: map<string, string>, name: string): (r: string)
    ensures r == name || r in countries.Values
    ensures Lower(name) in countries ==> r == countries[Lower(name)]
    ensures Lower(name) !in countries ==> r == name
  {
    var code := Lower(name);
    if code in countries then countries[code] else name
  }

  /** No name the table produces is itself, lower-cased, a code of the table. */
  predicate CanonicalNamesAreNotCodes(countries: map<string, string>) {
    forall name :: name in countries.Values ==> Lower(name) !in countries
  }

  /**
    Normalising is idempotent when the table's names are not codes: normalising
    an already normalised country changes nothing.
   */
  lemma NormaliseIdempotent(countries: map<string, string>, name: string)
    requires CanonicalNamesAreNotCodes(countries)
    ensures NormaliseCountry(countries, NormaliseCountry(countries, name)) == NormaliseCountry(countries, name)
  {
    var once := NormaliseCountry(countries, name);
    if Lower(name) in countries {
      assert once in countries.Values;
    }
  }

  /** Without that condition idempotence fails: a table whose name "UK" is also the code "uk". */
  lemma NormaliseNotIdempotentInGeneral()
    ensures var countries := map["us" := "UK", "uk" := "United Kingdom"];
      NormaliseCountry(countries, NormaliseCountry(countries, "us")) != NormaliseCountry(countries, "us")
  {
    var countries := map["us" := "UK", "uk" := "United Kingdom"];
    assert Lower("us") == "us" by { LowerFixesLowerCase("us"); }
    assert Lower("UK") == "uk";
  }

  /** The location string, `latitude,longitude`. */
  function Location(latitude: string, longitude: string): (r: string)
    ensures |r| == |latitude| + 1 + |longitude|
    ensures r[..|latitude|] == latitude && r[|latitude|] == ',' && r[|latitude| + 1..] == longitude
  {
    latitude + "," + longitude
  }

  /**
    The location splits back at its first comma into latitude and longitude
    (latitudes carry no comma); with both absent it is the single ",".
   */
  lemma LocationParts(latitude: string, longitude: string)
    requires ',' !in latitude
    ensures Cut(Location(latitude, longitude), ',') == (latitude, longitude, true)
    ensures latitude == "" && longitude == "" ==> Location(latitude, longitude) == ","
  {
    CutAfter(latitude, ',', longitude);
  }

  /**
    `(*ipApi).FetchInfo`: compose the URL, send it, classify the status,
    decode the body, normalise the country and build the result.
   */
  method FetchInfo(i: Fetcher, countries: map<string, string>, ip: Addr, exchange: Exchange<Body>)
    returns (result: PublicIP, err: Option<Error>, requested: seq<string>)
    ensures requested == [RequestURL(ip, i.token)]
    ensures err == ExchangeError(i.token, RequestURL(ip, i.token), exchange, "decoding response")
    ensures err.Some? ==> result == ZeroPublicIP
    ensures err.None? ==> exchange.Responded? && exchange.body.Decoded?
    ensures err.None? ==>
      var data := exchange.body.value;
      && result.ip == data.ip
      && result.region == data.region
      && result.country == NormaliseCountry(countries, data.countryName)
      && result.city == data.city
      && result.hostname == data.hostname
      && result.location == Location(data.latitude, data.longitude)
      && result.organization == data.org
      && result.postalCode == data.postal
      && result.timezone == data.timezone
  {
    result := ZeroPublicIP;
    var url := Origin;
    if ip.IsValid() {
      url := url + ("/ip=" + ip.String());
    }
    url := url + "/json";
    if i.token != "" {
      url := url + ("?key=" + i.token);
    }
    assert url == RequestURL(ip, i.token);
    requested := [url];

    match exchange
    case Failed(cause) =>
      err := Some(Transport(cause));
    case Responded(status, body) =>
      if i.token != "" && status == StatusUnauthorized {
        err := Some(TokenNotValid(status));
        return;
      }
      err := StatusSwitch(status, url);
      if err.Some? {
        return;
      }
      match body
      case Undecodable(cause) =>
        err := Some(Decoding("decoding response", cause));
      case Decoded(data) =>
        var country := data.countryName;
        var code := Lower(country);
        if code in countries {
          country := countries[code];
        }
        result := PublicIP(
          data.ip, data.region, country, data.city, data.hostname,
          data.latitude + "," + data.longitude, data.org, data.postal, data.timezone);
  }
}
