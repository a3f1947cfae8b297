# godnsupdater, modelled in Dafny

godnsupdater is a pair of dynamic-DNS command-line tools built around a small
shared Go library:

- the library (package `godnsupdater`) parses an address-family name
  ("ip4", "inet6", "6", …) into `Unknown`/`IPv4`/`IPv6`, maps a family to its
  DNS record type ("A", "AAAA"), and finds the first address of a family on
  a network interface;
- `goafraid` updates afraid.org hosts: it loads a JSON configuration
  (credentials and hosts), builds one update URL per host (endpoint chosen
  by family, query `content-type=json`, `h=<host>`, `ip=<address>`), sends
  it, treats HTTP 200 as the only success, and stops at the first failing
  host. There are two versions: `goafraid/goafraid.go` on top of the library,
  and a self-contained `goafraid.go` that does not use the library and keeps
  families as plain strings;
- `gogogandidns` updates one record of a Gandi zone: it checks its flags,
  reads and trims the API key, resolves the interface address, clones the
  live zone version, deletes every record of the same name and type in the
  clone, adds one record with TTL 300, and sets the clone live.

The model keeps every decision these programs make, except those listed under
"## Left out", and replaces what they
consult by inputs:

- the interface table becomes a function from interface name to a listing
  (`IfaceAddress.InterfaceLookup`);
- HTTP becomes a function from request to response (`Afraid.HttpGet`);
- file contents and JSON decoding become `Result` values;
- the Gandi account becomes a class, `GandiStore.ZoneStore`, whose zones map
  version numbers to record lists. Each of its calls may fail for reasons it
  does not reveal, and always fails on a missing zone or version.

`log.Fatal` becomes a returned error. Go's `(value, error)` pairs become
`Result`/`Option` values, except where the value alongside an error matters:
`FamilyFromString` returns `Unknown` together with its error.

Modules: one per source file, plus three that the files share (`Errors`,
`Afraid`, `GandiStore`):

| module | file | contents |
|---|---|---|
| `Errors` | errors.dfy | `Option`, `Result`, every error the programs raise and its exact text |
| `Constants` | constants.dfy | `constants.go` |
| `IfaceAddress` | iface_address.dfy | `iface_address.go`, with `net.IP`'s `To4` and `IsGlobalUnicast` at byte level |
| `Afraid` | afraid.dfy | what both afraid.org tools share: configuration, request, `url.Values`, `url.URL`, the status check |
| `GoAfraid` | goafraid.dfy | `goafraid/goafraid.go` |
| `GoAfraidStandalone` | goafraid_standalone.dfy | `goafraid.go` |
| `GandiStore` | gandi_store.dfy | the Gandi zone, version and record calls |
| `GandiDns` | gogogandidns.dfy | `gogogandidns/gogogandidns.go` |

The two afraid.org tools treat an empty or upper-case host family differently,
and the model follows each one's code:

- in `goafraid/goafraid.go` (lines 69-73), `LoadConfig` passes every host's
  family to `FamilyFromString`, which rejects "" since it is no family token,
  so a host with no family fails the whole load;
- in `goafraid.go` (lines 75-80), `LoadConfig` lowercases each family and sets
  an empty one to "ip4", but it does so on `h`, the loop's copy of the host,
  so neither change reaches `cfg.Hosts` and the hosts come back as decoded.
  A host written "IP4" or "" can then never be updated
  (`GoAfraidStandalone.UnnormalisedFamilyNeverUpdates`).

## Model

| member | source | states |
|---|---|---|
| Errors.Message | constants.go:45 | the text of each error: the value the Go code formats into it (the rejected family, the address type, the family, the status line, the key path, the flag name) stands at the position the fixed text before it gives; the key-file and `-family` errors carry their cause's own text; an outside error is printed as it came. The texts are those of constants.go:45, iface_address.go:48 and 52, goafraid/goafraid.go:66, 117 and 133, and gogogandidns/gogogandidns.go:43, 70-88, 128 and 154 |
| Errors.ParseErrorMentionsInput | constants.go:45 | the text of the family-parse error contains the rejected input |
| Errors.ApiKeyErrorMentionsPath | gogogandidns/gogogandidns.go:43 | the text of the API-key read error contains the file path |
| Errors.StatusErrorMentionsStatus | goafraid/goafraid.go:117 | the text of the non-OK error contains the status line |
| Constants.OrdinalsAreDistinct | constants.go:22-26 | `Unknown`, `IPv4`, `IPv6` are the integers 0, 1, 2, and different families have different integers |
| Constants.DnsTypeTable | constants.go:28-33 | the record-type table has exactly the keys `IPv4` ("A") and `IPv6` ("AAAA"), no entry for `Unknown` |
| Constants.FamilyFromString | constants.go:37-46 | the family is `Unknown` exactly when an error is returned, and that error is the parse error for the input |
| Constants.ToLowerIdempotent | constants.go:38 | lowering twice is lowering once |
| Constants.VariantOfSomeIffLowerIn | constants.go:38-42 | a string is a case variant of a family token exactly when its lower-case form is that token |
| Constants.ParsesIPv4Iff | constants.go:38-40 | the result is `IPv4` exactly for the case variants of "ip4", "ipv4", "inet4", "4", and then without error |
| Constants.ParsesIPv6Iff | constants.go:38-42 | the result is `IPv6` exactly for the case variants of "ip6", "ipv6", "inet6", "6", and then without error |
| Constants.RejectsEverythingElse | constants.go:45 | every other string gives `Unknown` and an error whose text quotes it |
| Constants.CaseInsensitive | constants.go:38 | lowering the input first changes neither the family nor whether there is an error |
| Constants.DottedCapitalIParses | constants.go:38-42 | lowering is Unicode's: "İP4" parses as `IPv4` and "İNET6" as `IPv6` |
| Constants.NoTrimming | constants.go:38-39 | " ip4", "ipv6\n" and "" are rejected: no whitespace is trimmed and there is no default |
| IfaceAddress.To4 | iface_address.go:39 | a 4-byte result is the address itself or the payload of its IPv4-mapped IPv6 form |
| IfaceAddress.To4RecoversBothEncodings | iface_address.go:39 | both encodings of an IPv4 address give its 4 bytes back |
| IfaceAddress.IsGlobalUnicast | iface_address.go:43 | a global unicast address has 4 or 16 bytes; a 16-byte one that is no IPv4 address is global unicast exactly when it is none of ::, ::1, ff00::/8, fe80::/10 |
| IfaceAddress.GlobalUnicastIPv4 | iface_address.go:43 | an IPv4 address is classified alike in both encodings, and is global unicast exactly when it is none of 0.0.0.0, 255.255.255.255, 127/8, 224.0.0.0/4, 169.254/16 |
| IfaceAddress.FirstStop | iface_address.go:33-50 | the position of the first entry that is not a non-matching `IPNet`, or the length if there is none |
| IfaceAddress.ScanIsExpected | iface_address.go:33-52 | the scan's outcome is decided by the first stopping entry alone: its text if it matches, "Unexpected address type" if it is no `IPNet`, "Unable to find address" if there is none |
| IfaceAddress.ScanFirstMatch | iface_address.go:38-45 | a matching `IPNet` after non-matching `IPNet`s only is returned, with no error |
| IfaceAddress.ScanHardStop | iface_address.go:47-48 | a non-`IPNet` entry before any match ends the scan with "Unexpected address type", whatever follows |
| IfaceAddress.ScanExhausted | iface_address.go:52 | a listing with only non-matching `IPNet`s, the empty one among them, ends with "Unable to find address of family … on interface …" |
| IfaceAddress.ScanIgnoresRest | iface_address.go:33-50 | entries after the first stopping one are never examined: appending anything leaves the outcome unchanged |
| IfaceAddress.ScanSuccessIsListed | iface_address.go:38-45 | a successful scan returns the text of a matching `IPNet` of the listing |
| IfaceAddress.ScanSelectingNothing | iface_address.go:37-52 | a family that selects nothing fails on the first non-`IPNet` entry if there is one, else with "Unable to find address" |
| IfaceAddress.ScanAddresses | iface_address.go:33-52 | the `for` loop returns exactly what the scan specification gives; invariant: every entry before it was a non-matching `IPNet` |
| IfaceAddress.LookupAndScan | iface_address.go:22-52 | lookup, listing and scan, equal to the resolution specification |
| IfaceAddress.GetInterfaceIP | iface_address.go:22-53 | `GetInterfaceIP` for an `AddressFamily`, whose not-found message prints the family as its number |
| IfaceAddress.ResolvePassesFailuresThrough | iface_address.go:23-31 | a failing interface lookup or address listing is returned unchanged with "" |
| IfaceAddress.ResolveSuccessIsListed | iface_address.go:38-45 | a successful resolution returns the text of a selected `IPNet` entry on the interface |
| IfaceAddress.ResolveUnknownFails | iface_address.go:37-52 | `Unknown` never resolves |
| IfaceAddress.IPv6SkipsLinkLocal | iface_address.go:42-45 | for IPv6, fe80::1 listed first is skipped and 2001:db8::1 is returned |
| IfaceAddress.IPv4OnlyHasNoIPv6 | iface_address.go:38-52 | an interface with only 192.0.2.1 resolves for IPv4 and fails for IPv6 with the family printed as "2" |
| Afraid.Values.Set | goafraid/goafraid.go:89-92 | `Set` replaces the key's values by the one given and changes no other key |
| Afraid.URL.Parse | goafraid/goafraid.go:94 | a parsed endpoint has no query and no user yet |
| Afraid.QueryHasExactlyThreeKeys | goafraid/goafraid.go:89-92 | the update query has exactly `content-type`=`json`, `h`=host name, `ip`=address |
| Afraid.Assemble | goafraid/goafraid.go:89-102 | the built request goes to the given endpoint, carries the user information and exactly that query |
| Afraid.CheckStatus | goafraid/goafraid.go:116-118 | no error exactly when the status code is 200; otherwise the error carries the status line |
| Afraid.StatusAloneDecides | goafraid/goafraid.go:116-125 | the body never matters: responses with the same code and status line give the same outcome |
| GoAfraid.EndpointsAreDistinct | goafraid/goafraid.go:36-39 | endpoints exist for exactly `IPv4` and `IPv6`, and they differ |
| GoAfraid.FirstRejected | goafraid/goafraid.go:69-73 | the position of the first host whose family does not parse, every earlier one parsing |
| GoAfraid.LoadConfig | goafraid/goafraid.go:54-75 | the checking loop returns exactly what the load specification gives |
| GoAfraid.MissingCredentialsFail | goafraid/goafraid.go:65-67 | an empty user or password fails the load whatever the hosts are |
| GoAfraid.FirstRejectedHostFails | goafraid/goafraid.go:69-73 | with credentials, the load fails with the parse error of the first host whose family is rejected |
| GoAfraid.EmptyFamilyRejected | goafraid/goafraid.go:69-73 | a host with an empty family makes the load fail |
| GoAfraid.LoadedIsDecoded | goafraid/goafraid.go:54-75 | a successful load returns the decoded configuration unmodified, with credentials and only parseable families |
| GoAfraid.BuildUpdateURL | goafraid/goafraid.go:78-103 | `BuildUpdateURL` equals the request specification |
| GoAfraid.ParseErrorPrecedesLookup | goafraid/goafraid.go:79-82 | an unparseable family fails with its parse error whatever the interfaces are |
| GoAfraid.ResolverErrorPropagates | goafraid/goafraid.go:84-87 | resolver errors come back unchanged |
| GoAfraid.RequestShape | goafraid/goafraid.go:89-102 | a built request goes to sync.afraid.org for IPv4 and v6.sync.afraid.org for IPv6, carries the user and the three-key query with the resolved address |
| GoAfraid.UpdateHost | goafraid/goafraid.go:105-126 | `UpdateHost` equals the outcome specification |
| GoAfraid.UpdateSucceedsOnlyOn200 | goafraid/goafraid.go:116-118 | a host whose request was built succeeds exactly when the response arrives with status 200 |
| GoAfraid.UpdateAll | goafraid/goafraid.go:143-148 | hosts are updated in order; no error means all succeeded; an error is the outcome of the last host tried, all before it succeeded, none after it was tried |
| GoAfraid.Run | goafraid/goafraid.go:128-148 | a missing `-config_file` or a failed load stops before any update; otherwise the fail-fast host loop |
| GoAfraidStandalone.EndpointsByFamily | goafraid.go:37-46 | "ip4" maps to the sync host, "ip6" to the v6.sync host, and they differ |
| GoAfraidStandalone.LoadConfig | goafraid.go:60-83 | decode errors pass through, missing credentials fail, and otherwise the decoded configuration comes back unchanged |
| GoAfraidStandalone.GetInterfaceIP | goafraid.go:85-116 | the string-family scan equals the resolution specification with the selector of the exact strings "ip4" and "ip6" |
| GoAfraidStandalone.OnlyExactFamiliesMatch | goafraid.go:96-115 | any other family string always fails: on the first non-`IPNet` entry, or with "Unable to find address" |
| GoAfraidStandalone.BuildUpdateURL | goafraid.go:118-138 | `BuildUpdateURL` equals the request specification |
| GoAfraidStandalone.ResolverErrorFirst | goafraid.go:119-122 | the resolver's error is returned unchanged before any query or endpoint is made |
| GoAfraidStandalone.RequestEndpointIsReal | goafraid.go:124-137 | a built request always has a real endpoint (never the map's zero value "") and the three query keys |
| GoAfraidStandalone.UnnormalisedFamilyNeverUpdates | goafraid.go:75-116 | a host written "IP4" or with no family never updates |
| GoAfraidStandalone.UpdateHost | goafraid.go:140-161 | `UpdateHost` equals the outcome specification |
| GoAfraidStandalone.NonOkStatusFails | goafraid.go:151-153 | a non-200 status fails with its status line; 200 succeeds |
| GandiStore.WithoutIdKeepsOthers | gogogandidns/gogogandidns.go:123 | deleting an id keeps exactly the records with other ids, and ids stay unique |
| GandiStore.ZoneStore.Info | gogogandidns/gogogandidns.go:50-54 | a zone's info is its live version; a missing zone fails |
| GandiStore.ZoneStore.NewVersion | gogogandidns/gogogandidns.go:56-60 | a new version numbered `nextVersion` holding a copy of the source version; a missing source fails and changes nothing |
| GandiStore.ZoneStore.List | gogogandidns/gogogandidns.go:115-119 | the records of an existing version |
| GandiStore.ZoneStore.Delete | gogogandidns/gogogandidns.go:123-129 | on `ok`, the version without the records of that id; otherwise nothing changes |
| GandiStore.ZoneStore.Add | gogogandidns/gogogandidns.go:133-144 | the record made from the arguments with a fresh id, appended to the version |
| GandiStore.ZoneStore.SetLive | gogogandidns/gogogandidns.go:148-155 | on `ok`, the version is live and nothing else changes; otherwise nothing changes |
| GandiDns.CheckFlags | gogogandidns/gogogandidns.go:69-88 | the flags pass exactly when `-api_file`, `-iface`, `-record` are set, `-zone` is non-zero and `-family` parses; the result is then that family, which has a record type |
| GandiDns.FlagChecksInOrder | gogogandidns/gogogandidns.go:69-88 | the checks run in source order, `-api_file`, `-iface`, `-family`, `-zone`, `-record`: each one that fails while all before it pass gives its own error |
| GandiDns.TrimIsTrimOf | gogogandidns/gogogandidns.go:46 | the trim removes only leading and trailing cutset characters, and all of them |
| GandiDns.TrimIsUnique | gogogandidns/gogogandidns.go:46 | any string with that characterisation is the trim |
| GandiDns.KeyTrimKeepsTabsAndCarriageReturns | gogogandidns/gogogandidns.go:46 | the key cutset is newline and space only: tabs and '\r' stay |
| GandiDns.GetApiKey | gogogandidns/gogogandidns.go:40-47 | a read failure becomes the key-file error for the path, whose text names the path; a read key is the file's text trimmed of newlines and spaces |
| GandiDns.ApiKeyIgnoresBlankPadding | gogogandidns/gogogandidns.go:46 | a key padded with newlines and spaces on either side reads as exactly the key |
| GandiDns.CloneLatestZone | gogogandidns/gogogandidns.go:49-63 | never an error; a failure of either call gives version 0 and no change; otherwise the new version is a clone of the live one |
| GandiDns.KeepIsExactlyTheOthers | gogogandidns/gogogandidns.go:120-131 | the records left are exactly those that differ in name or type |
| GandiDns.KeepWithoutMatches | gogogandidns/gogogandidns.go:120-131 | a version with no record of the name and type is left whole, in order |
| GandiDns.DeleteMatching | gogogandidns/gogogandidns.go:120-131 | the delete loop leaves exactly the non-matching records; on a failed or refused delete it stops part way, with the matching records before some position deleted |
| GandiDns.PublishedReplacesRecords | gogogandidns/gogogandidns.go:106-156 | the published version is new, holds every other record of the old live version in their order, no record of the name and type except the new one, ends with that record (TTL 300), and no old version changes |
| GandiDns.ReplaceAndPublish | gogogandidns/gogogandidns.go:112-156 | list, delete, add, set live: on success that version holds the kept records plus the new one and is live; on failure only version `v` of that zone may differ: every zone keeps its live version number, every other zone and every other version is as it was |
| GandiDns.Publish | gogogandidns/gogogandidns.go:106-156 | on success the zone becomes the published zone; on failure every version that existed, each live one among them, is as it was, and every zone keeps its live version number |
| GandiDns.OldVersionsKeepLiveRecords | gogogandidns/gogogandidns.go:106-156 | when the old versions are kept, each zone's live version still holds the same records |
| GandiDns.Run | gogogandidns/gogogandidns.go:65-156 | flag, key and address failures come first and leave the store untouched; success publishes the address under the family's record type; failure leaves every version that existed, each live one among them, as it was, and every zone's live version number |

## Left out

- Interface enumeration (`net.InterfaceByName`, `Addrs`) is an input function; the address text (`net.IP.String`) is an input field of each address, not computed from its bytes.
- `-use_ote`, the production/testing choice and the use of the API key are left out: the key only authenticates the Gandi client, which is replaced by the store.
- JSON decoding, opening and reading files, and flag parsing are inputs (`Result` values, the `Flags` datatype).
- `url.Parse`'s error branch is left out: it is only ever given the two constant endpoints (or "" in `goafraid.go`), none of which it rejects.
- Percent-encoding by `Values.Encode` and `URL.String` is not modelled: a request is its endpoint, user and key/value map.
- HTTP transport, reading and logging the response body, and closing it (the non-200 return skips the close) are outside the model.
- Log output and process exit: `log.Fatal` is a returned error; the progress messages are not modelled.
- The `main` host loop of `goafraid.go` is not modelled: it is the same loop as in `goafraid/goafraid.go`, which `GoAfraid.UpdateAll` models.
- Constants.LowerChar: lowers only the characters that Unicode lowering maps into ASCII (A-Z, the dotted capital I U+0130 and the Kelvin sign U+212A) and keeps every other character. Only the lowered string's membership in the family tokens matters, and every token is ASCII, so the parse verdict is the same as with full lowering.
- GandiStore.ZoneStore: why a call fails (network, authentication, service errors) is not modelled; each call may fail at any time with an unspecified message.
- GandiStore.ZoneStore: versions are numbered from 1, so the version 0 that `cloneLatestZone` returns after swallowing an `Info` or `New` failure never names a version. The run then fails at `List`, with `List`'s error rather than the swallowed one; the failure clauses of `GandiDns.Publish` and `GandiDns.Run` rely on this numbering.
- GandiStore.ZoneStore: a version keeps its records in insertion order and `Add` appends. The Gandi API does not promise an order, so the "in their order" and "ends with the new record" of `GandiDns.PublishedReplacesRecords` hold only for this store model; the record set it states does not depend on the order.
