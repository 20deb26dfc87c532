/**
  The api.iplocation.net provider. With no valid address it first asks
  `https://api.iplocation.net/?cmd=get-ip` for the caller's own address, then
  looks that address up; with a valid address it looks it up directly. The
  lookup URL puts `?ip=<ip>` and `&key=<token>` after the base, adding a bare
  `?` first when there is no address, which gives the `/?&key=<token>` form.
 */
module IPLocationNet {

  import opened Wrappers
  import opened Text
  import opened Models
  import opened Errors
  import opened Http

  /** The provider value `newIPLocation` builds: the shared client and the API token ("" for none). */
  datatype Fetcher = Fetcher(client: Client, token: string)

  /** The body of the get-ip answer: only its `ip` field is decoded. */
  datatype GetIPBody = GetIPBody(ip: Addr)

  /** The body of the lookup answer: `ip`, `country_name` and `isp`. */
  datatype Body = Body(ip: Addr, countryName: string, isp: string)

  const Base := "https://api.iplocation.net/"
  const GetIPURL := Base + "?cmd=get-ip"

  /** The URL of the lookup request for `ip`. */
  function LookupURL(ip: Addr, token: string): (url: string)
    ensures Base <= url
    ensures ip.IsValid() ==> Base + "?ip=" + ip.text <= url
    ensures !ip.IsValid() && token == "" ==> url == Base
    ensures !ip.IsValid() && token != "" ==> url == Base + "?&key=" + token
    ensures token != "" ==> EndsWith(url, "&key=" + token)
  {
    var withIP := Base + (if ip.IsValid() then "?ip=" + ip.String() else "");
    if token == "" then withIP
    else (if '?' in withIP then withIP else withIP + "?") + ("&key=" + token)
  }

  /** The query of the lookup URL: the address parameter, then the key parameter, each when present. */
  function LookupQuery(ip: Addr, token: string): string {
    (if ip.IsValid() then "ip=" + ip.text else "") + (if token != "" then "&key=" + token else "")
  }

  /**
    The lookup URL read back: the path is always the bare base, and there is a
    query exactly when there is an address or a token.
   */
  lemma LookupURLParts(ip: Addr, token: string)
    ensures var query := LookupQuery(ip, token);
      Cut(LookupURL(ip, token), '?') == (Base, query, query != "")
  {
    var query := LookupQuery(ip, token);
    assert '?' !in Base;
    if query == "" {
      assert LookupURL(ip, token) == Base;
      CutAbsent(Base, '?');
    } else {
      assert LookupURL(ip, token) == Base + ['?'] + query by {
        if ip.IsValid() && token != "" {
          assert Base + ("?ip=" + ip.text) + ("&key=" + token) == Base + ['?'] + query;
        } else if ip.IsValid() {
          assert Base + ("?ip=" + ip.text) == Base + ['?'] + query;
        } else {
          assert '?' !in Base + "";
          assert Base + "" + "?" + ("&key=" + token) == Base + ['?'] + query;
        }
      }
      CutAfter(Base, '?', query);
    }
  }

  /**
    With a token the query holds two '&'-separated parameters: the address and
    the key. Without an address the first of them is empty.
   */
  lemma LookupQueryParams(ip: Addr, token: string)
    requires ip.IsValid() ==> '&' !in ip.text
    requires token != ""
    ensures Cut(LookupQuery(ip, token), '&') == ((if ip.IsValid() then "ip=" + ip.text else ""), "key=" + token, true)
  {
    var first := if ip.IsValid() then "ip=" + ip.text else "";
    assert '&' !in first;
    assert LookupQuery(ip, token) == first + ['&'] + ("key=" + token);
    CutAfter(first, '&', "key=" + token);
  }

  /** The lookup URL never begins with the get-ip URL: the lookup URL is rebuilt from the bare base. */
  lemma LookupIsNotGetIP(ip: Addr, token: string)
    ensures !(GetIPURL <= LookupURL(ip, token))
  {
    var url := LookupURL(ip, token);
    var n := |Base|;
    assert GetIPURL[n + 1] == 'c';
    if ip.IsValid() {
      var head := Base + "?ip=" + ip.text;
      assert head <= url && head[n + 1] == 'i';
    } else if token != "" {
      assert url[n + 1] == '&';
    } else {
      assert |url| < |GetIPURL|;
    }
  }

  /**
    When the get-ip answer carries no address (the zero value), the lookup is
    still made, for the bare base with at most the key: the service then
    reports on the caller's own address.
   */
  lemma DiscoveredZeroLooksUpSelf(token: string)
    ensures Target(Unset, Responded(StatusOK, Decoded(GetIPBody(Unset)))) == Some(Unset)
    ensures Cut(LookupURL(Unset, token), '?') == (Base, if token == "" then "" else "&key=" + token, token != "")
  {
    LookupURLParts(Unset, token);
    assert LookupQuery(Unset, token) == if token == "" then "" else "&key=" + token;
  }

  /** The error the get-ip exchange ends in, if any; this exchange has no token gate. */
  function PreliminaryError(getIP: Exchange<GetIPBody>): (r: Option<Error>)
    ensures r.None? <==> getIP.Responded? && getIP.status == StatusOK && getIP.body.Decoded?
    ensures getIP.Failed? ==> r == Some(Transport(getIP.cause))
    ensures getIP.Responded? && getIP.status != StatusOK ==> r == StatusSwitch(getIP.status, GetIPURL)
    ensures getIP.Responded? && getIP.status == StatusOK && getIP.body.Undecodable? ==>
      r == Some(Decoding("decoding get-ip response", getIP.body.cause))
  {
    ExchangeError("", GetIPURL, getIP, "decoding get-ip response")
  }

  /**
    The address the lookup is made for: the given one when valid, else the one
    the get-ip answer carried (possibly the zero value), else none when the
    get-ip exchange failed.
   */
  function Target(ip: Addr, getIP: Exchange<GetIPBody>): (r: Option<Addr>)
    ensures ip.IsValid() ==> r == Some(ip)
    ensures !ip.IsValid() ==> (r.Some? <==> getIP.Responded? && getIP.status == StatusOK && getIP.body.Decoded?)
    ensures !ip.IsValid() && r.Some? ==> r.value == getIP.body.value.ip
  {
    if ip.IsValid() then Some(ip)
    else if PreliminaryError(getIP).None? then Some(getIP.body.value.ip)
    else None
  }

  /**
    `(*ipLocation).FetchInfo`: the optional get-ip step, the lookup URL,
    the token gate and status switch, and the result mapping.
   */
  method FetchInfo(i: Fetcher, ip: Addr, getIP: Exchange<GetIPBody>, lookup: Exchange<Body>)
    returns (result: PublicIP, err: Option<Error>, requested: seq<string>)
    // which requests are made, in order
    ensures requested ==
      (if ip.IsValid() then [] else [GetIPURL])
      + (if Target(ip, getIP).Some? then [LookupURL(Target(ip, getIP).value, i.token)] else [])
    ensures 1 <= |requested| <= 2 && (requested[0] == GetIPURL <==> !ip.IsValid())
    // how the call ends
    ensures Target(ip, getIP).None? ==> err == PreliminaryError(getIP) && err.Some?
    ensures Target(ip, getIP).Some? ==>
      err == ExchangeError(i.token, LookupURL(Target(ip, getIP).value, i.token), lookup, "decoding response")
    ensures !ip.IsValid() && getIP.Responded? && getIP.status == StatusUnauthorized ==>
      err == Some(BadHTTPStatus(GetIPURL, StatusUnauthorized))
    ensures err.Some? ==> result == ZeroPublicIP
    ensures err.None? ==> lookup.Responded? && lookup.body.Decoded?
    ensures err.None? ==>
      result == ZeroPublicIP.(ip := lookup.body.value.ip, country := lookup.body.value.countryName, organization := lookup.body.value.isp)
  {
    result := ZeroPublicIP;
    requested := [];
    var addr := ip;
    var url := Base;
    if !addr.IsValid() {
      url := url + "?cmd=get-ip";
      requested := requested + [url];
      match getIP
      case Failed(cause) =>
        err := Some(Transport(cause));
        return;
      case Responded(status, body) =>
        err := StatusSwitch(status, url);
        if err.Some? {
          return;
        }
        match body
        case Undecodable(cause) =>
          err := Some(Decoding("decoding get-ip response", cause));
          return;
        case Decoded(data) =>
          addr := data.ip;
          url := Base;
    }
    assert Target(ip, getIP) == Some(addr);

    if addr.IsValid() {
      url := url + ("?ip=" + addr.String());
    }
    if i.token != "" {
      if '?' !in url {
        url := url + "?";
      }
      url := url + ("&key=" + i.token);
    }
    assert url == LookupURL(addr, i.token);
    LookupIsNotGetIP(addr, i.token);
    requested := requested + [url];

    match lookup
    case Failed(cause) =>
      err := Some(Transport(cause));
    case Responded(status, body) =>
      if i.token != "" && status == StatusUnauthorized {
        err := Some(TokenNotValid(status));
        return;
      }
      err := StatusSwitch(status, url);
      if err.Some? {
        return;
      }
      match body
      case Undecodable(cause) =>
        err := Some(Decoding("decoding response", cause));
      case Decoded(data) =>
        result := PublicIP(data.ip, "", data.countryName, "", "", "", data.isp, "", "");
  }
}
