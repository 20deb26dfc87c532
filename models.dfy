/**
  The values the lookup code exchanges with the rest of the program:
  an IP address as `netip.Addr` presents it, and the `PublicIP` record.
 */
module Models {

  /**
    `netip.Addr` as the lookup code sees it: the zero value, which is not a
    valid address, or a valid address together with its `String()` rendering.
   */
  datatype Addr = Unset | Addr(text: string) {

    predicate IsValid() {
      Addr?
    }

    /** `netip.Addr.String()`; the zero value renders as "invalid IP". */
    function String(): string {
      if Addr? then text else "invalid IP"
    }
  }

  /** `models.PublicIP`: every field that a provider leaves out is the empty string. */
  datatype PublicIP = PublicIP(
    ip: Addr,
    region: string,
    country: string,
    city: string,
    hostname: string,
    location: string,
    organization: string,
    postalCode: string,
    timezone: string)

  /** The zero value of `models.PublicIP`, which every error path returns. */
  const ZeroPublicIP := PublicIP(Unset, "", "", "", "", "", "", "", "")
}
