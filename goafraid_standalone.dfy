/** The self-contained afraid.org updater (goafraid.go), which does not use
    the shared library: families are plain strings compared exactly, and the
    configuration loop that was meant to normalise them only touches a copy. */
module GoAfraidStandalone {
  import opened Errors
  import opened Constants
  import opened IfaceAddress
  import opened Afraid

  const FamilyV4: string := "ip4"
  const FamilyV6: string := "ip6"

  /** `familyEndpoints`, keyed by the family strings. */
  const FamilyEndpoints: map<string, string> :=
    map[FamilyV4 := "https://sync.afraid.org/u/", FamilyV6 := "https://v6.sync.afraid.org/u/"]

  /** Indexing a Go map with a missing key gives the zero value "". */
  function EndpointFor(family: string): string {
    if family in FamilyEndpoints then FamilyEndpoints[family] else ""
  }

  lemma EndpointsByFamily()
    ensures EndpointFor("ip4") == "https://sync.afraid.org/u/"
    ensures EndpointFor("ip6") == "https://v6.sync.afraid.org/u/"
    ensures EndpointFor("ip4") != EndpointFor("ip6")
  {
  }

  /** `LoadConfig` after decoding: the credential check, then a loop whose
      assignments go to the range variable `h`, a copy of each host, so the
      configuration comes back exactly as decoded. */
  method LoadConfig(decoded: Result<Config, Error>) returns (r: Result<Config, Error>)
    ensures decoded.Err? ==> r == decoded
    ensures decoded.Ok? && !HasCredentials(decoded.value) ==> r == Err(MissingCredentials)
    ensures decoded.Ok? && HasCredentials(decoded.value) ==> r == decoded
  {
    if decoded.Err? {
      return Err(decoded.error);
    }
    var cfg := decoded.value;
    if cfg.user == "" || cfg.password == "" {
      return Err(MissingCredentials);
    }
    for i := 0 to |cfg.hosts| {
      var h := cfg.hosts[i];
      h := h.(addressFamily := ToLower(h.addressFamily));
      if h.addressFamily == "" {
        h := h.(addressFamily := FamilyV4);
      }
    }
    return Ok(cfg);
  }

  /** The inner `switch family` has cases for exactly "ip4" and "ip6". */
  function SelectorFor(family: string): Selector {
    if family == FamilyV4 then SelectV4
    else if family == FamilyV6 then SelectV6
    else SelectNone
  }

  /** What `GetInterfaceIP(ifaceName, family)` returns; its not-found message
      prints the family string itself. */
  function ResolveFamily(ifaceName: string, family: string, lookup: InterfaceLookup): (string, Option<Error>) {
    ResolveWith(ifaceName, SelectorFor(family), family, lookup)
  }

  method GetInterfaceIP(ifaceName: string, family: string, lookup: InterfaceLookup)
    returns (s: string, err: Option<Error>)
    ensures (s, err) == ResolveFamily(ifaceName, family, lookup)
  {
    s, err := LookupAndScan(ifaceName, SelectorFor(family), family, lookup);
  }

  /** Any family other than exactly "ip4" or "ip6" ("IP4" and "" among them)
      never matches: the scan ends on the first non-`IPNet` entry with
      "Unexpected address type", or else with "Unable to find address". */
  lemma OnlyExactFamiliesMatch(ifaceName: string, family: string, addrs: seq<Addr>)
    requires family != "ip4" && family != "ip6"
    ensures var r := ResolveFamily(ifaceName, family, _ => Ok(Interface(Ok(addrs))));
            && r.1.Some?
            && ((forall j :: 0 <= j < |addrs| ==> addrs[j].IPNet?) ==>
                  r == ("", Some(AddressNotFound(family, ifaceName))))
            && (forall k :: 0 <= k < |addrs| && addrs[k].Other? && (forall j :: 0 <= j < k ==> addrs[j].IPNet?) ==>
                  r == ("", Some(UnexpectedAddressType(addrs[k].network, ifaceName))))
  {
    ScanIsExpected(addrs, SelectNone, ifaceName, family);
    forall k | 0 <= k < |addrs| && addrs[k].Other? && (forall j :: 0 <= j < k ==> addrs[j].IPNet?)
      ensures Scan(addrs, SelectorFor(family), ifaceName, family) == ("", Some(UnexpectedAddressType(addrs[k].network, ifaceName)))
    {
      ScanHardStop(addrs, SelectNone, ifaceName, family, k);
    }
  }

  /** What `BuildUpdateURL(user, host)` returns. */
  function UpdateRequest(user: Userinfo, host: Host, lookup: InterfaceLookup): Result<Request, Error> {
    var (address, rerr) := ResolveFamily(host.iface, host.addressFamily, lookup);
    if rerr.Some? then Err(rerr.value)
    else Ok(Request(EndpointFor(host.addressFamily), Some(user), QueryFor(host.name, address)))
  }

  method BuildUpdateURL(user: Userinfo, host: Host, lookup: InterfaceLookup) returns (r: Result<Request, Error>)
    ensures r == UpdateRequest(user, host, lookup)
  {
    var address, rerr := GetInterfaceIP(host.iface, host.addressFamily, lookup);
    if rerr.Some? {
      return Err(rerr.value);
    }
    var req := Assemble(user, host.name, address, EndpointFor(host.addressFamily));
    return Ok(req);
  }

  /** The resolver's error is returned before any query or endpoint is made,
      and unchanged. */
  lemma ResolverErrorFirst(user: Userinfo, host: Host, lookup: InterfaceLookup)
    requires ResolveFamily(host.iface, host.addressFamily, lookup).1.Some?
    ensures UpdateRequest(user, host, lookup) == Err(ResolveFamily(host.iface, host.addressFamily, lookup).1.value)
  {
  }

  /** A request is only ever built for "ip4" or "ip6", so the endpoint is
      always one of the two real ones, never the map's zero value. */
  lemma RequestEndpointIsReal(user: Userinfo, host: Host, lookup: InterfaceLookup)
    requires UpdateRequest(user, host, lookup).Ok?
    ensures host.addressFamily in FamilyEndpoints
    ensures UpdateRequest(user, host, lookup).value.endpoint == FamilyEndpoints[host.addressFamily]
    ensures UpdateRequest(user, host, lookup).value.query.Keys == {"content-type", "h", "ip"}
  {
    if host.addressFamily != "ip4" && host.addressFamily != "ip6" {
      var r := host.iface;
      if lookup(r).Ok? && lookup(r).value.addrs.Ok? {
        ScanIsExpected(lookup(r).value.addrs.value, SelectNone, r, host.addressFamily);
      }
    }
  }

  /** A host configured as "IP4" (or with no family) loads unchanged and can
      never be updated. */
  lemma UnnormalisedFamilyNeverUpdates(user: Userinfo, name: string, iface: string, family: string, env: Env)
    requires family == "IP4" || family == ""
    ensures UpdateOutcome(user, Host(name, iface, family), env).Some?
  {
    if env.lookup(iface).Ok? && env.lookup(iface).value.addrs.Ok? {
      ScanIsExpected(env.lookup(iface).value.addrs.value, SelectNone, iface, family);
    }
  }

  /** What `UpdateHost(user, host)` returns. */
  function UpdateOutcome(user: Userinfo, host: Host, env: Env): Option<Error> {
    match UpdateRequest(user, host, env.lookup)
    case Err(e) => Some(e)
    case Ok(req) => Deliver(req, env.get)
  }

  method UpdateHost(user: Userinfo, host: Host, env: Env) returns (err: Option<Error>)
    ensures err == UpdateOutcome(user, host, env)
  {
    var r := BuildUpdateURL(user, host, env.lookup);
    if r.Err? {
      return Some(r.error);
    }
    var resp := env.get(r.value);
    if resp.Err? {
      return Some(resp.error);
    }
    err := CheckStatus(resp.value);
  }

  /** A non-200 response to a built request fails with its status line. */
  lemma NonOkStatusFails(user: Userinfo, host: Host, env: Env)
    requires UpdateRequest(user, host, env.lookup).Ok?
    requires env.get(UpdateRequest(user, host, env.lookup).value).Ok?
    ensures var resp := env.get(UpdateRequest(user, host, env.lookup).value).value;
            UpdateOutcome(user, host, env) == if resp.statusCode == 200 then None else Some(NonOkStatus(resp.status))
  {
  }
}
