/** The address-family helper shared by both tools (constants.go): the
    family enumeration, its parser and the family-to-record-type table. */
module Constants {
  import opened Errors

  /** `AddressFamily` is an `int` in Go; the three named values are 0, 1, 2. */
  datatype AddressFamily = Unknown | IPv4 | IPv6

  /** The integer `iota` gives each family. */
  function Ordinal(f: AddressFamily): (n: nat)
    ensures n < 3
  {
    match f
    case Unknown => 0
    case IPv4 => 1
    case IPv6 => 2
  }

  lemma OrdinalsAreDistinct()
    ensures Ordinal(Unknown) == 0 && Ordinal(IPv4) == 1 && Ordinal(IPv6) == 2
    ensures forall f, g :: Ordinal(f) == Ordinal(g) ==> f == g
  {
  }

  /** What Go's `%v` prints for a family: the decimal digit of its ordinal. */
  function FamilyText(f: AddressFamily): string {
    [('0' as int + Ordinal(f)) as char]
  }

  /** `DnsTypeByFamily`: no entry for `Unknown`. */
  const DnsTypeByFamily: map<AddressFamily, string> := map[IPv4 := "A", IPv6 := "AAAA"]

  lemma DnsTypeTable()
    ensures DnsTypeByFamily.Keys == {IPv4, IPv6}
    ensures DnsTypeByFamily[IPv4] == "A" && DnsTypeByFamily[IPv6] == "AAAA"
    ensures Unknown !in DnsTypeByFamily
  {
  }

  /** `unicode.ToLower` on every character it maps into ASCII: the capital
      letters, the dotted capital I and the Kelvin sign. Other characters
      are kept as they are; see the README for why this decides the same
      tokens as full Unicode lowering. */
  function LowerChar(c: char): char {
    if 'A' <= c <= 'Z' then (c as int + 32) as char
    else if c == '\U{0130}' then 'i'
    else if c == '\U{212A}' then 'k'
    else c
  }

  function ToLower(s: string): string {
    seq(|s|, i requires 0 <= i < |s| => LowerChar(s[i]))
  }

  /** `s` and `t` spell the same word up to the case of its letters. */
  predicate SameIgnoringCase(s: string, t: string) {
    |s| == |t| && forall i :: 0 <= i < |s| ==> LowerChar(s[i]) == LowerChar(t[i])
  }

  const V4Tokens: set<string> := {"ip4", "ipv4", "inet4", "4"}
  const V6Tokens: set<string> := {"ip6", "ipv6", "inet6", "6"}

  /** `FamilyFromString`: Go's `(AddressFamily, error)` pair. */
  function FamilyFromString(family: string): (r: (AddressFamily, Option<Error>))
    ensures r.1.None? <==> r.0 != Unknown
    ensures r.1.Some? ==> r.1.value == FamilyParse(family)
  {
    var t := ToLower(family);
    if t in V4Tokens then (IPv4, None)
    else if t in V6Tokens then (IPv6, None)
    else (Unknown, Some(FamilyParse(family)))
  }

  lemma LowerCharIdempotent(c: char)
    ensures LowerChar(LowerChar(c)) == LowerChar(c)
  {
  }

  lemma ToLowerIdempotent(s: string)
    ensures ToLower(ToLower(s)) == ToLower(s)
  {
    var l := ToLower(s);
    forall i | 0 <= i < |s| ensures ToLower(l)[i] == l[i] {
      LowerCharIdempotent(s[i]);
    }
  }

  /** Two strings equal up to case lower to the same string. */
  lemma SameIgnoringCaseLowers(s: string, t: string)
    requires SameIgnoringCase(s, t)
    ensures ToLower(s) == ToLower(t)
  {
    forall i | 0 <= i < |s| ensures ToLower(s)[i] == ToLower(t)[i] {
    }
  }

  /** Every family token is already lower case. */
  lemma TokensAreLower(t: string)
    requires t in V4Tokens + V6Tokens
    ensures ToLower(t) == t
  {
    forall i | 0 <= i < |t| ensures ToLower(t)[i] == t[i] {
    }
  }

  /** `s` is a case variant of one of `tokens`. */
  predicate VariantOfSome(s: string, tokens: set<string>) {
    exists t | t in tokens :: SameIgnoringCase(s, t)
  }

  lemma VariantOfSomeIffLowerIn(s: string, tokens: set<string>)
    requires tokens <= V4Tokens + V6Tokens
    ensures VariantOfSome(s, tokens) <==> ToLower(s) in tokens
  {
    if VariantOfSome(s, tokens) {
      var t :| t in tokens && SameIgnoringCase(s, t);
      SameIgnoringCaseLowers(s, t);
      TokensAreLower(t);
    }
    if ToLower(s) in tokens {
      var l := ToLower(s);
      forall i | 0 <= i < |s| ensures LowerChar(s[i]) == LowerChar(l[i]) {
        LowerCharIdempotent(s[i]);
      }
      assert SameIgnoringCase(s, l);
    }
  }

  /** A string parses as IPv4 exactly when it is some case variant of
      "ip4", "ipv4", "inet4" or "4", and then without an error. */
  lemma ParsesIPv4Iff(s: string)
    ensures FamilyFromString(s).0 == IPv4 <==> VariantOfSome(s, V4Tokens)
    ensures FamilyFromString(s).0 == IPv4 ==> FamilyFromString(s).1 == None
  {
    VariantOfSomeIffLowerIn(s, V4Tokens);
  }

  /** The same for IPv6 and "ip6", "ipv6", "inet6", "6"; the two token sets
      share no member, so no string is both. */
  lemma ParsesIPv6Iff(s: string)
    ensures FamilyFromString(s).0 == IPv6 <==> VariantOfSome(s, V6Tokens)
    ensures FamilyFromString(s).0 == IPv6 ==> FamilyFromString(s).1 == None
  {
    VariantOfSomeIffLowerIn(s, V6Tokens);
    VariantOfSomeIffLowerIn(s, V4Tokens);
  }

  /** Every other string gives `Unknown` and an error whose text names it. */
  lemma RejectsEverythingElse(s: string)
    requires !VariantOfSome(s, V4Tokens) && !VariantOfSome(s, V6Tokens)
    ensures FamilyFromString(s) == (Unknown, Some(FamilyParse(s)))
    ensures Mentions(Message(FamilyFromString(s).1.value), s)
  {
    VariantOfSomeIffLowerIn(s, V4Tokens);
    VariantOfSomeIffLowerIn(s, V6Tokens);
    ParseErrorMentionsInput(s);
  }

  /** Parsing ignores case: lowering the input first changes neither the
      family nor whether an error is returned (only the error's text, which
      quotes the input as given). */
  lemma CaseInsensitive(s: string)
    ensures FamilyFromString(ToLower(s)).0 == FamilyFromString(s).0
    ensures FamilyFromString(ToLower(s)).1.Some? == FamilyFromString(s).1.Some?
  {
    ToLowerIdempotent(s);
  }

  /** No whitespace is trimmed. */
  lemma NoTrimming()
    ensures FamilyFromString(" ip4") == (Unknown, Some(FamilyParse(" ip4")))
    ensures FamilyFromString("ipv6\n") == (Unknown, Some(FamilyParse("ipv6\n")))
    ensures FamilyFromString("") == (Unknown, Some(FamilyParse("")))
  {
    assert ToLower(" ip4") == " ip4";
    assert ToLower("ipv6\n") == "ipv6\n";
  }

  /** Lowering is Unicode lowering: the dotted capital I lowers to 'i'. */
  lemma DottedCapitalIParses()
    ensures FamilyFromString("\U{0130}P4") == (IPv4, None)
    ensures FamilyFromString("\U{0130}NET6") == (IPv6, None)
  {
    assert ToLower("\U{0130}P4") == "ip4";
    assert ToLower("\U{0130}NET6") == "inet6";
  }
}
