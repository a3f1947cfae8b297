/** Picking an address of a family off a network interface (iface_address.go).

    The operating system is replaced by an `InterfaceLookup`: for a name it
    gives either the lookup's error or an interface whose address listing is
    itself either an error or the ordered sequence of entries the system
    reports. An entry is an `IPNet` carrying an IP, or something else. */
module IfaceAddress {
  import opened Errors
  import opened Constants

  newtype byte = x: int | 0 <= x < 256

  /** A `net.IP`: its bytes (4 or 16 of them for real addresses) and the text
      its `String()` method gives. */
  datatype IP = IP(bytes: seq<byte>, text: string)

  /** An entry of `iface.Addrs()`: a `*net.IPNet`, or any other address type
      together with the name its `Network()` method gives. */
  datatype Addr = IPNet(ip: IP) | Other(network: string)

  /** The result of `net.InterfaceByName`: the listing of `iface.Addrs()`. */
  datatype Interface = Interface(addrs: Result<seq<Addr>, Error>)

  type InterfaceLookup = string -> Result<Interface, Error>

  // The byte-level predicates below follow the definitions of Go's `net`
  // package (`To4`, `Equal`, `IsGlobalUnicast` and the classifiers it uses).

  const V4InV6Prefix: seq<byte> := [0, 0, 0, 0, 0, 0, 0, 0, 0, 0, 0xff, 0xff]

  /** `ip.To4()`: the 4-byte form of an IPv4 address, in either of its encodings. */
  function To4(ip: seq<byte>): (r: Option<seq<byte>>)
    ensures r.Some? ==> |r.value| == 4 && (ip == r.value || ip == V4InV6Prefix + r.value)
  {
    if |ip| == 4 then Some(ip)
    else if |ip| == 16 && ip[..12] == V4InV6Prefix then Some(ip[12..])
    else None
  }

  const IPv6Zero: seq<byte> := [0, 0, 0, 0, 0, 0, 0, 0, 0, 0, 0, 0, 0, 0, 0, 0]
  const IPv6Loopback: seq<byte> := [0, 0, 0, 0, 0, 0, 0, 0, 0, 0, 0, 0, 0, 0, 0, 1]

  predicate IsUnspecified(ip: seq<byte>) {
    To4(ip) == Some([0, 0, 0, 0]) || ip == IPv6Zero
  }

  predicate IsLoopback(ip: seq<byte>) {
    match To4(ip)
    case Some(v4) => v4[0] == 127
    case None => ip == IPv6Loopback
  }

  /** 224.0.0.0/4 and ff00::/8 (`b & 0xf0 == 0xe0` is `b / 16 == 14`). */
  predicate IsMulticast(ip: seq<byte>) {
    match To4(ip)
    case Some(v4) => v4[0] / 16 == 14
    case None => |ip| == 16 && ip[0] == 0xff
  }

  /** 169.254.0.0/16 and fe80::/10 (`b & 0xc0 == 0x80` is `b / 64 == 2`). */
  predicate IsLinkLocalUnicast(ip: seq<byte>) {
    match To4(ip)
    case Some(v4) => v4[0] == 169 && v4[1] == 254
    case None => |ip| == 16 && ip[0] == 0xfe && ip[1] / 64 == 2
  }

  /** `ip.IsGlobalUnicast()`. A 16-byte address that is no IPv4 address is
      global unicast exactly when it is none of ::, ::1, ff00::/8 and fe80::/10. */
  predicate IsGlobalUnicast(ip: seq<byte>): (b: bool)
    ensures b ==> |ip| == 4 || |ip| == 16
    ensures |ip| == 16 && To4(ip).None? ==>
              (b <==> ip != IPv6Zero && ip != IPv6Loopback && ip[0] != 0xff && !(ip[0] == 0xfe && 0x80 <= ip[1] < 0xc0))
  {
    && (|ip| == 4 || |ip| == 16)
    && To4(ip) != Some([255, 255, 255, 255])
    && !IsUnspecified(ip)
    && !IsLoopback(ip)
    && !IsMulticast(ip)
    && !IsLinkLocalUnicast(ip)
  }

  /** `To4` gives back the 4 bytes of either encoding of an IPv4 address. */
  lemma To4RecoversBothEncodings(v: seq<byte>)
    requires |v| == 4
    ensures To4(v) == Some(v)
    ensures To4(V4InV6Prefix + v) == Some(v)
  {
    assert (V4InV6Prefix + v)[..12] == V4InV6Prefix;
    assert (V4InV6Prefix + v)[12..] == v;
  }

  /** An IPv4 address is classified alike in both encodings, and is global
      unicast exactly when it is none of 0.0.0.0, 255.255.255.255, 127/8,
      224.0.0.0/4 and 169.254/16. */
  lemma GlobalUnicastIPv4(v: seq<byte>)
    requires |v| == 4
    ensures IsGlobalUnicast(V4InV6Prefix + v) == IsGlobalUnicast(v)
    ensures IsGlobalUnicast(v) <==>
              && v != [0, 0, 0, 0] && v != [255, 255, 255, 255] && v[0] != 127
              && v[0] / 16 != 14 && !(v[0] == 169 && v[1] == 254)
  {
    To4RecoversBothEncodings(v);
  }

  /** Which test the inner `switch family` applies to an `IPNet` entry; a
      family the switch has no case for selects nothing. */
  datatype Selector = SelectV4 | SelectV6 | SelectNone

  predicate Selects(sel: Selector, ip: IP) {
    match sel
    case SelectV4 => To4(ip.bytes).Some?
    case SelectV6 => To4(ip.bytes).None? && IsGlobalUnicast(ip.bytes)
    case SelectNone => false
  }

  function SelectorOf(family: AddressFamily): Selector {
    match family
    case IPv4 => SelectV4
    case IPv6 => SelectV6
    case Unknown => SelectNone
  }

  /** The entry ends the scan: it is not an `IPNet`, or it matches. */
  predicate Stops(sel: Selector, a: Addr) {
    a.Other? || Selects(sel, a.ip)
  }

  /** The scan over the listing, one entry at a time, as the `for` loop runs
      it; `family` is the text the not-found message prints. */
  function Scan(addrs: seq<Addr>, sel: Selector, iface: string, family: string): (string, Option<Error>)
    decreases |addrs|
  {
    if addrs == [] then ("", Some(AddressNotFound(family, iface)))
    else match addrs[0]
      case Other(network) => ("", Some(UnexpectedAddressType(network, iface)))
      case IPNet(ip) =>
        if Selects(sel, ip) then (ip.text, None) else Scan(addrs[1..], sel, iface, family)
  }

  /** The position of the first entry that ends the scan; `|addrs|` if none does. */
  function FirstStop(addrs: seq<Addr>, sel: Selector): (k: nat)
    ensures k <= |addrs|
    ensures forall j :: 0 <= j < k ==> !Stops(sel, addrs[j])
    ensures k < |addrs| ==> Stops(sel, addrs[k])
    decreases |addrs|
  {
    if addrs == [] then 0
    else if Stops(sel, addrs[0]) then 0
    else 1 + FirstStop(addrs[1..], sel)
  }

  /** The outcome a scan should have, read off the first entry that stops it. */
  function Expected(addrs: seq<Addr>, sel: Selector, iface: string, family: string): (string, Option<Error>) {
    var k := FirstStop(addrs, sel);
    if k == |addrs| then ("", Some(AddressNotFound(family, iface)))
    else match addrs[k]
      case Other(network) => ("", Some(UnexpectedAddressType(network, iface)))
      case IPNet(ip) => (ip.text, None)
  }

  /** The scan is decided by the first entry that stops it, and by nothing after it. */
  lemma {:induction false} ScanIsExpected(addrs: seq<Addr>, sel: Selector, iface: string, family: string)
    ensures Scan(addrs, sel, iface, family) == Expected(addrs, sel, iface, family)
    decreases |addrs|
  {
    if addrs != [] && !Stops(sel, addrs[0]) {
      ScanIsExpected(addrs[1..], sel, iface, family);
      assert FirstStop(addrs, sel) == 1 + FirstStop(addrs[1..], sel);
    }
  }

  /** For a listing whose first `k` entries are non-matching `IPNet`s, the
      first stopping entry is the one at `k`, if it stops. */
  lemma FirstStopAt(addrs: seq<Addr>, sel: Selector, k: nat)
    requires k < |addrs| && Stops(sel, addrs[k])
    requires forall j :: 0 <= j < k ==> !Stops(sel, addrs[j])
    ensures FirstStop(addrs, sel) == k
  {
  }

  /** First match wins: a matching `IPNet` after only non-matching `IPNet`s
      gives that entry's text, with no error. */
  lemma ScanFirstMatch(addrs: seq<Addr>, sel: Selector, iface: string, family: string, k: nat)
    requires k < |addrs| && addrs[k].IPNet? && Selects(sel, addrs[k].ip)
    requires forall j :: 0 <= j < k ==> addrs[j].IPNet? && !Selects(sel, addrs[j].ip)
    ensures Scan(addrs, sel, iface, family) == (addrs[k].ip.text, None)
  {
    FirstStopAt(addrs, sel, k);
    ScanIsExpected(addrs, sel, iface, family);
  }

  /** A non-`IPNet` entry met before any match is a hard stop, whatever follows it. */
  lemma ScanHardStop(addrs: seq<Addr>, sel: Selector, iface: string, family: string, k: nat)
    requires k < |addrs| && addrs[k].Other?
    requires forall j :: 0 <= j < k ==> addrs[j].IPNet? && !Selects(sel, addrs[j].ip)
    ensures Scan(addrs, sel, iface, family) == ("", Some(UnexpectedAddressType(addrs[k].network, iface)))
  {
    FirstStopAt(addrs, sel, k);
    ScanIsExpected(addrs, sel, iface, family);
  }

  /** A listing with no stopping entry (the empty one among them) ends in
      "Unable to find address". */
  lemma ScanExhausted(addrs: seq<Addr>, sel: Selector, iface: string, family: string)
    requires forall j :: 0 <= j < |addrs| ==> addrs[j].IPNet? && !Selects(sel, addrs[j].ip)
    ensures Scan(addrs, sel, iface, family) == ("", Some(AddressNotFound(family, iface)))
  {
    ScanIsExpected(addrs, sel, iface, family);
  }

  /** Entries after the first stopping one are never examined. */
  lemma ScanIgnoresRest(prefix: seq<Addr>, rest: seq<Addr>, sel: Selector, iface: string, family: string)
    requires exists j :: 0 <= j < |prefix| && Stops(sel, prefix[j])
    ensures Scan(prefix + rest, sel, iface, family) == Scan(prefix, sel, iface, family)
  {
    var k := FirstStop(prefix, sel);
    FirstStopAt(prefix + rest, sel, k);
    ScanIsExpected(prefix, sel, iface, family);
    ScanIsExpected(prefix + rest, sel, iface, family);
  }

  /** A successful scan returns the text of a matching entry of the listing. */
  lemma ScanSuccessIsListed(addrs: seq<Addr>, sel: Selector, iface: string, family: string)
    requires Scan(addrs, sel, iface, family).1.None?
    ensures exists k :: 0 <= k < |addrs| && addrs[k].IPNet? && Selects(sel, addrs[k].ip)
                        && addrs[k].ip.text == Scan(addrs, sel, iface, family).0
  {
    ScanIsExpected(addrs, sel, iface, family);
    var k := FirstStop(addrs, sel);
    assert addrs[k].IPNet? && Selects(sel, addrs[k].ip);
  }

  /** With a family that selects nothing the scan always fails: on the first
      non-`IPNet` entry if there is one, otherwise with "Unable to find address". */
  lemma ScanSelectingNothing(addrs: seq<Addr>, iface: string, family: string)
    ensures (exists j :: 0 <= j < |addrs| && addrs[j].Other?) ==>
              var k := FirstStop(addrs, SelectNone);
              k < |addrs| && addrs[k].Other?
              && Scan(addrs, SelectNone, iface, family) == ("", Some(UnexpectedAddressType(addrs[k].network, iface)))
    ensures (forall j :: 0 <= j < |addrs| ==> addrs[j].IPNet?) ==>
              Scan(addrs, SelectNone, iface, family) == ("", Some(AddressNotFound(family, iface)))
  {
    ScanIsExpected(addrs, SelectNone, iface, family);
  }

  /** The address-scan loop of `GetInterfaceIP`. */
  method ScanAddresses(addrs: seq<Addr>, sel: Selector, iface: string, family: string)
    returns (s: string, err: Option<Error>)
    ensures (s, err) == Scan(addrs, sel, iface, family)
  {
    for i := 0 to |addrs|
      invariant forall j :: 0 <= j < i ==> addrs[j].IPNet? && !Selects(sel, addrs[j].ip)
      invariant Scan(addrs, sel, iface, family) == Scan(addrs[i..], sel, iface, family)
    {
      assert addrs[i..][1..] == addrs[i + 1..];
      match addrs[i]
      case IPNet(ip) =>
        if Selects(sel, ip) {
          return ip.text, None;
        }
      case Other(network) =>
        return "", Some(UnexpectedAddressType(network, iface));
    }
    return "", Some(AddressNotFound(family, iface));
  }

  /** Lookup, listing and scan, for a given selector and family text. */
  function ResolveWith(ifaceName: string, sel: Selector, family: string, lookup: InterfaceLookup): (string, Option<Error>) {
    match lookup(ifaceName)
    case Err(e) => ("", Some(e))
    case Ok(iface) =>
      match iface.addrs
      case Err(e) => ("", Some(e))
      case Ok(addrs) => Scan(addrs, sel, ifaceName, family)
  }

  method LookupAndScan(ifaceName: string, sel: Selector, family: string, lookup: InterfaceLookup)
    returns (s: string, err: Option<Error>)
    ensures (s, err) == ResolveWith(ifaceName, sel, family, lookup)
  {
    var iface := lookup(ifaceName);
    if iface.Err? {
      return "", Some(iface.error);
    }
    var addrs := iface.value.addrs;
    if addrs.Err? {
      return "", Some(addrs.error);
    }
    s, err := ScanAddresses(addrs.value, sel, ifaceName, family);
  }

  /** What `GetInterfaceIP(ifaceName, family)` returns. */
  function Resolve(ifaceName: string, family: AddressFamily, lookup: InterfaceLookup): (string, Option<Error>) {
    ResolveWith(ifaceName, SelectorOf(family), FamilyText(family), lookup)
  }

  method GetInterfaceIP(ifaceName: string, family: AddressFamily, lookup: InterfaceLookup)
    returns (s: string, err: Option<Error>)
    ensures (s, err) == Resolve(ifaceName, family, lookup)
  {
    s, err := LookupAndScan(ifaceName, SelectorOf(family), FamilyText(family), lookup);
  }

  /** Failures of the lookup and of the listing come back unchanged, with "". */
  lemma ResolvePassesFailuresThrough(ifaceName: string, sel: Selector, family: string, lookup: InterfaceLookup)
    ensures lookup(ifaceName).Err? ==>
              ResolveWith(ifaceName, sel, family, lookup) == ("", Some(lookup(ifaceName).error))
    ensures lookup(ifaceName).Ok? && lookup(ifaceName).value.addrs.Err? ==>
              ResolveWith(ifaceName, sel, family, lookup) == ("", Some(lookup(ifaceName).value.addrs.error))
  {
  }

  /** On success the text is that of a selected `IPNet` entry of the interface's listing. */
  lemma ResolveSuccessIsListed(ifaceName: string, sel: Selector, family: string, lookup: InterfaceLookup)
    requires ResolveWith(ifaceName, sel, family, lookup).1.None?
    ensures lookup(ifaceName).Ok? && lookup(ifaceName).value.addrs.Ok?
    ensures var addrs := lookup(ifaceName).value.addrs.value;
            exists k :: 0 <= k < |addrs| && addrs[k].IPNet? && Selects(sel, addrs[k].ip)
                        && addrs[k].ip.text == ResolveWith(ifaceName, sel, family, lookup).0
  {
    ScanSuccessIsListed(lookup(ifaceName).value.addrs.value, sel, ifaceName, family);
  }

  /** `Unknown` never resolves. */
  lemma ResolveUnknownFails(ifaceName: string, lookup: InterfaceLookup)
    ensures Resolve(ifaceName, Unknown, lookup).1.Some?
  {
    if lookup(ifaceName).Ok? && lookup(ifaceName).value.addrs.Ok? {
      ScanIsExpected(lookup(ifaceName).value.addrs.value, SelectNone, ifaceName, FamilyText(Unknown));
    }
  }

  const LinkLocal: IP := IP([0xfe, 0x80, 0, 0, 0, 0, 0, 0, 0, 0, 0, 0, 0, 0, 0, 1], "fe80::1")
  const Documentation6: IP := IP([0x20, 0x01, 0x0d, 0xb8, 0, 0, 0, 0, 0, 0, 0, 0, 0, 0, 0, 1], "2001:db8::1")
  const Documentation4: IP := IP(V4InV6Prefix + [192, 0, 2, 1], "192.0.2.1")

  /** IPv6 skips a link-local address listed first and returns the global one. */
  lemma IPv6SkipsLinkLocal(ifaceName: string)
    ensures Resolve(ifaceName, IPv6, _ => Ok(Interface(Ok([IPNet(LinkLocal), IPNet(Documentation6)]))))
            == ("2001:db8::1", None)
  {
    assert LinkLocal.bytes[..12][0] != V4InV6Prefix[0];
    assert IsLinkLocalUnicast(LinkLocal.bytes);
    assert Documentation6.bytes[..12][0] != V4InV6Prefix[0];
    assert IsGlobalUnicast(Documentation6.bytes);
    ScanFirstMatch([IPNet(LinkLocal), IPNet(Documentation6)], SelectV6, ifaceName, FamilyText(IPv6), 1);
  }

  /** An interface with only an IPv4 address has no IPv6 address to give, and
      the message prints the family as its number. */
  lemma IPv4OnlyHasNoIPv6(ifaceName: string)
    ensures Resolve(ifaceName, IPv6, _ => Ok(Interface(Ok([IPNet(Documentation4)]))))
            == ("", Some(AddressNotFound("2", ifaceName)))
    ensures Resolve(ifaceName, IPv4, _ => Ok(Interface(Ok([IPNet(Documentation4)]))))
            == ("192.0.2.1", None)
  {
    assert To4(Documentation4.bytes).Some?;
    assert FamilyText(IPv6) == "2";
    ScanExhausted([IPNet(Documentation4)], SelectV6, ifaceName, "2");
  }
}
