/** The afraid.org updater built on the shared library (goafraid/goafraid.go):
    configuration checks, the family-dependent update URL, the status check
    and the fail-fast loop over the configured hosts. */
module GoAfraid {
  import opened Errors
  import opened Constants
  import opened IfaceAddress
  import opened Afraid

  /** `familyEndpoints`: IPv6 updates go to a host reachable over IPv6. */
  const FamilyEndpoints: map<AddressFamily, string> :=
    map[IPv4 := "https://sync.afraid.org/u/", IPv6 := "https://v6.sync.afraid.org/u/"]

  lemma EndpointsAreDistinct()
    ensures FamilyEndpoints.Keys == {IPv4, IPv6}
    ensures FamilyEndpoints[IPv4] != FamilyEndpoints[IPv6]
  {
  }

  predicate Accepted(h: Host) {
    FamilyFromString(h.addressFamily).1.None?
  }

  /** The position of the first host whose family does not parse; `|hosts|` if all parse. */
  function FirstRejected(hosts: seq<Host>): (k: nat)
    ensures k <= |hosts|
    ensures forall j :: 0 <= j < k ==> Accepted(hosts[j])
    ensures k < |hosts| ==> !Accepted(hosts[k])
    decreases |hosts|
  {
    if hosts == [] then 0
    else if !Accepted(hosts[0]) then 0
    else 1 + FirstRejected(hosts[1..])
  }

  /** What `LoadConfig` returns for what the decoder delivered (an opening or
      decoding error among the possibilities). */
  function Loaded(decoded: Result<Config, Error>): Result<Config, Error> {
    match decoded
    case Err(e) => Err(e)
    case Ok(cfg) =>
      if !HasCredentials(cfg) then Err(MissingCredentials)
      else
        var k := FirstRejected(cfg.hosts);
        if k < |cfg.hosts| then Err(FamilyFromString(cfg.hosts[k].addressFamily).1.value)
        else Ok(cfg)
  }

  /** The checks `LoadConfig` makes after decoding. */
  method LoadConfig(decoded: Result<Config, Error>) returns (r: Result<Config, Error>)
    ensures r == Loaded(decoded)
  {
    if decoded.Err? {
      return Err(decoded.error);
    }
    var cfg := decoded.value;
    if cfg.user == "" || cfg.password == "" {
      return Err(MissingCredentials);
    }
    for i := 0 to |cfg.hosts|
      invariant forall j :: 0 <= j < i ==> Accepted(cfg.hosts[j])
    {
      var (_, err) := FamilyFromString(cfg.hosts[i].addressFamily);
      if err.Some? {
        assert FirstRejected(cfg.hosts) == i;
        return Err(err.value);
      }
    }
    assert FirstRejected(cfg.hosts) == |cfg.hosts|;
    return Ok(cfg);
  }

  /** Missing credentials fail the load whatever the hosts are. */
  lemma MissingCredentialsFail(user: string, password: string, hosts: seq<Host>)
    requires user == "" || password == ""
    ensures Loaded(Ok(Config(user, password, hosts))) == Err(MissingCredentials)
  {
  }

  /** With credentials, the load fails with the parse error of the first host
      whose family is rejected; the hosts before it parse. */
  lemma FirstRejectedHostFails(cfg: Config, k: nat)
    requires HasCredentials(cfg) && k < |cfg.hosts| && !Accepted(cfg.hosts[k])
    requires forall j :: 0 <= j < k ==> Accepted(cfg.hosts[j])
    ensures Loaded(Ok(cfg)) == Err(FamilyParse(cfg.hosts[k].addressFamily))
  {
    assert FirstRejected(cfg.hosts) == k;
  }

  /** An empty family is rejected: there is no default. */
  lemma EmptyFamilyRejected(user: string, password: string, name: string, iface: string)
    requires user != "" && password != ""
    ensures Loaded(Ok(Config(user, password, [Host(name, iface, "")]))) == Err(FamilyParse(""))
  {
    assert FamilyFromString("").1.Some?;
  }

  /** A successful load returns the decoded configuration unmodified, and it
      has credentials and only hosts whose family parses. */
  lemma LoadedIsDecoded(decoded: Result<Config, Error>)
    requires Loaded(decoded).Ok?
    ensures decoded == Loaded(decoded)
    ensures HasCredentials(decoded.value)
    ensures forall j :: 0 <= j < |decoded.value.hosts| ==> Accepted(decoded.value.hosts[j])
  {
  }

  /** What `BuildUpdateURL(user, host)` returns. */
  function UpdateRequest(user: Userinfo, host: Host, lookup: InterfaceLookup): Result<Request, Error> {
    var (family, ferr) := FamilyFromString(host.addressFamily);
    if ferr.Some? then Err(ferr.value)
    else
      var (address, rerr) := Resolve(host.iface, family, lookup);
      if rerr.Some? then Err(rerr.value)
      else Ok(Request(FamilyEndpoints[family], Some(user), QueryFor(host.name, address)))
  }

  method BuildUpdateURL(user: Userinfo, host: Host, lookup: InterfaceLookup) returns (r: Result<Request, Error>)
    ensures r == UpdateRequest(user, host, lookup)
  {
    var (family, ferr) := FamilyFromString(host.addressFamily);
    if ferr.Some? {
      return Err(ferr.value);
    }
    var address, rerr := GetInterfaceIP(host.iface, family, lookup);
    if rerr.Some? {
      return Err(rerr.value);
    }
    var req := Assemble(user, host.name, address, FamilyEndpoints[family]);
    return Ok(req);
  }

  /** A family that does not parse fails before any interface is looked up:
      the outcome does not depend on the system at all. */
  lemma ParseErrorPrecedesLookup(user: Userinfo, host: Host, l1: InterfaceLookup, l2: InterfaceLookup)
    requires !Accepted(host)
    ensures UpdateRequest(user, host, l1) == UpdateRequest(user, host, l2)
    ensures UpdateRequest(user, host, l1) == Err(FamilyParse(host.addressFamily))
  {
  }

  /** Resolver errors come back unchanged. */
  lemma ResolverErrorPropagates(user: Userinfo, host: Host, lookup: InterfaceLookup)
    requires Accepted(host)
    requires Resolve(host.iface, FamilyFromString(host.addressFamily).0, lookup).1.Some?
    ensures UpdateRequest(user, host, lookup)
            == Err(Resolve(host.iface, FamilyFromString(host.addressFamily).0, lookup).1.value)
  {
  }

  /** A built request goes to the endpoint of the host's family, carries the
      user information, and has exactly the keys `content-type=json`, `h`
      (the host name) and `ip` (an address listed on the host's interface). */
  lemma RequestShape(user: Userinfo, host: Host, lookup: InterfaceLookup)
    requires UpdateRequest(user, host, lookup).Ok?
    ensures var req := UpdateRequest(user, host, lookup).value;
            var family := FamilyFromString(host.addressFamily).0;
            && family != Unknown
            && req.endpoint == (if family == IPv4 then "https://sync.afraid.org/u/"
                                else "https://v6.sync.afraid.org/u/")
            && req.user == Some(user)
            && req.query.Keys == {"content-type", "h", "ip"}
            && req.query["content-type"] == ["json"] && req.query["h"] == [host.name]
            && req.query["ip"] == [Resolve(host.iface, family, lookup).0]
  {
    var family := FamilyFromString(host.addressFamily).0;
    QueryHasExactlyThreeKeys(host.name, Resolve(host.iface, family, lookup).0);
  }

  /** What `UpdateHost(user, host)` returns. */
  function UpdateOutcome(user: Userinfo, host: Host, env: Env): Option<Error> {
    match UpdateRequest(user, host, env.lookup)
    case Err(e) => Some(e)
    case Ok(req) => Deliver(req, env.get)
  }

  method UpdateHost(user: Userinfo, host: Host, env: Env) returns (err: Option<Error>)
    ensures err == UpdateOutcome(user, host, env)
  {
    var r := BuildUpdateURL(user, host, env.lookup);
    if r.Err? {
      return Some(r.error);
    }
    var resp := env.get(r.value);
    if resp.Err? {
      return Some(resp.error);
    }
    err := CheckStatus(resp.value);
  }

  /** A host whose request was built succeeds exactly when its response has status 200. */
  lemma UpdateSucceedsOnlyOn200(user: Userinfo, host: Host, env: Env)
    requires UpdateRequest(user, host, env.lookup).Ok?
    ensures var req := UpdateRequest(user, host, env.lookup).value;
            UpdateOutcome(user, host, env).None? <==> env.get(req).Ok? && env.get(req).value.statusCode == 200
  {
  }

  /** The loop of `main`: hosts in configuration order, the first failure
      ends the run. `attempted` counts the hosts whose update was tried. */
  method UpdateAll(user: Userinfo, hosts: seq<Host>, env: Env) returns (err: Option<Error>, attempted: nat)
    ensures attempted <= |hosts|
    ensures forall i :: 0 <= i < attempted - 1 ==> UpdateOutcome(user, hosts[i], env).None?
    ensures err.None? ==> attempted == |hosts| && (forall i :: 0 <= i < |hosts| ==> UpdateOutcome(user, hosts[i], env).None?)
    ensures err.Some? ==> 0 < attempted && err == UpdateOutcome(user, hosts[attempted - 1], env)
  {
    attempted := 0;
    while attempted < |hosts|
      invariant attempted <= |hosts|
      invariant forall i :: 0 <= i < attempted ==> UpdateOutcome(user, hosts[i], env).None?
    {
      err := UpdateHost(user, hosts[attempted], env);
      attempted := attempted + 1;
      if err.Some? {
        return;
      }
    }
    err := None;
  }

  /** `main` after flag parsing: `configFile` is the `-config_file` flag and
      `decoded` what reading and decoding that file gave. */
  method Run(configFile: string, decoded: Result<Config, Error>, env: Env) returns (err: Option<Error>, attempted: nat)
    ensures configFile == "" ==> err == Some(MissingConfigFile) && attempted == 0
    ensures configFile != "" && Loaded(decoded).Err? ==> err == Some(Loaded(decoded).error) && attempted == 0
    ensures configFile != "" && Loaded(decoded).Ok? ==>
              var cfg := decoded.value;
              var user := Userinfo(cfg.user, cfg.password);
              && attempted <= |cfg.hosts|
              && (forall i :: 0 <= i < attempted - 1 ==> UpdateOutcome(user, cfg.hosts[i], env).None?)
              && (err.None? <==> attempted == |cfg.hosts| && forall i :: 0 <= i < |cfg.hosts| ==> UpdateOutcome(user, cfg.hosts[i], env).None?)
              && (err.Some? ==> 0 < attempted && err == UpdateOutcome(user, cfg.hosts[attempted - 1], env))
  {
    if configFile == "" {
      return Some(MissingConfigFile), 0;
    }
    var cfg := LoadConfig(decoded);
    if cfg.Err? {
      return Some(cfg.error), 0;
    }
    var user := Userinfo(cfg.value.user, cfg.value.password);
    err, attempted := UpdateAll(user, cfg.value.hosts, env);
  }
}
