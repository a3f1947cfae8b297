/** What the two afraid.org updaters (goafraid/goafraid.go and goafraid.go)
    have in common: the decoded configuration, the update request, the
    HTTP exchange and the status check.  Both Go files declare the same
    `Host` and `Config` structs and the same request-building tail; they are
    declared once here. */
module Afraid {
  import opened Errors
  import opened IfaceAddress

  /** One entry of the configuration's `Hosts` list. */
  datatype Host = Host(name: string, iface: string, addressFamily: string)

  /** The configuration as the JSON decoder delivers it. */
  datatype Config = Config(user: string, password: string, hosts: seq<Host>)

  predicate HasCredentials(cfg: Config) {
    cfg.user != "" && cfg.password != ""
  }

  /** `url.UserPassword(user, password)`. */
  datatype Userinfo = Userinfo(username: string, password: string)

  /** An update URL, as `endpoint.String()` renders it: the parsed endpoint,
      the user information and the query (before percent-encoding). */
  datatype Request = Request(endpoint: string, user: Option<Userinfo>, query: map<string, seq<string>>)

  /** An HTTP response: `StatusCode`, the `Status` line and the body. */
  datatype Response = Response(statusCode: int, status: string, body: string)

  /** `http.Get`: a request either fails in transport or gets a response. */
  type HttpGet = Request -> Result<Response, Error>

  /** Everything outside the program that an update consults. */
  datatype Env = Env(lookup: InterfaceLookup, get: HttpGet)

  /** `url.Values`: each key maps to a list of values. */
  class Values {
    var entries: map<string, seq<string>>

    constructor ()
      ensures entries == map[]
    {
      entries := map[];
    }

    /** `Set` replaces whatever values the key had by the one given. */
    method Set(key: string, value: string)
      modifies this
      ensures entries == old(entries)[key := [value]]
    {
      entries := entries[key := [value]];
    }
  }

  /** A `*url.URL` as `url.Parse` returns it for one of the fixed endpoints. */
  class URL {
    const base: string
    var rawQuery: map<string, seq<string>>
    var user: Option<Userinfo>

    constructor Parse(s: string)
      ensures base == s && rawQuery == map[] && user == None
    {
      base := s;
      rawQuery := map[];
      user := None;
    }

    function String(): Request
      reads this
    {
      Request(base, user, rawQuery)
    }
  }

  /** The query every update carries. */
  function QueryFor(name: string, address: string): map<string, seq<string>> {
    map["content-type" := ["json"], "h" := [name], "ip" := [address]]
  }

  lemma QueryHasExactlyThreeKeys(name: string, address: string)
    ensures QueryFor(name, address).Keys == {"content-type", "h", "ip"}
    ensures QueryFor(name, address)["content-type"] == ["json"]
    ensures QueryFor(name, address)["h"] == [name] && QueryFor(name, address)["ip"] == [address]
  {
  }

  /** The tail of both `BuildUpdateURL`s: fill a `url.Values`, parse the
      endpoint and store the encoded query and the user in it. */
  method Assemble(user: Userinfo, name: string, address: string, endpoint: string) returns (req: Request)
    ensures req.endpoint == endpoint && req.user == Some(user)
    ensures req.query == QueryFor(name, address)
  {
    var qv := new Values();
    qv.Set("content-type", "json");
    qv.Set("h", name);
    qv.Set("ip", address);
    var url := new URL.Parse(endpoint);
    url.rawQuery := qv.entries;
    url.user := Some(user);
    req := url.String();
  }

  const StatusOK: int := 200

  /** The status check of both `UpdateHost`s. */
  function CheckStatus(resp: Response): (r: Option<Error>)
    ensures r.None? <==> resp.statusCode == StatusOK
    ensures r.Some? ==> r.value == NonOkStatus(resp.status)
  {
    if resp.statusCode != StatusOK then Some(NonOkStatus(resp.status)) else None
  }

  /** Only the status code decides; the body never does, and the error of a
      failed update quotes the status line. */
  lemma StatusAloneDecides(a: Response, b: Response)
    requires a.statusCode == b.statusCode && a.status == b.status
    ensures CheckStatus(a) == CheckStatus(b)
    ensures CheckStatus(Response(404, "404 Not Found", a.body)) == Some(NonOkStatus("404 Not Found"))
    ensures CheckStatus(Response(500, "500 Internal Server Error", a.body)) == Some(NonOkStatus("500 Internal Server Error"))
    ensures CheckStatus(Response(200, a.status, a.body)) == None
  {
  }

  /** Issue the request and check the response. */
  function Deliver(req: Request, get: HttpGet): Option<Error> {
    match get(req)
    case Err(e) => Some(e)
    case Ok(resp) => CheckStatus(resp)
  }
}
