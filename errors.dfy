/** Failure-compatible wrappers and the errors the tools report.

    Go returns `(value, error)` pairs; here a pair whose error is nil is an
    `Ok`, and every error the tools produce themselves is a constructor that
    carries the values the Go code formats into its message. Errors that come
    from the operating system, the HTTP transport, the JSON decoder or the
    Gandi API are passed through as `External`, unchanged. */
module Errors {

  datatype Option<+T> = None | Some(value: T)

  datatype Result<+T, +E> = Ok(value: T) | Err(error: E)

  datatype Error =
    /** constants.go:45 */
    | FamilyParse(input: string)
    /** iface_address.go:48, goafraid.go:111 */
    | UnexpectedAddressType(network: string, iface: string)
    /** iface_address.go:52, goafraid.go:115; `family` is the text `%v` prints */
    | AddressNotFound(family: string, iface: string)
    /** goafraid/goafraid.go:66, goafraid.go:72 */
    | MissingCredentials
    /** goafraid/goafraid.go:117, goafraid.go:152; `status` is the response's status line */
    | NonOkStatus(status: string)
    /** gogogandidns/gogogandidns.go:43 */
    | ApiKeyRead(path: string, cause: Error)
    /** the `log.Fatalf("Missing value for -...")` exits of gogogandidns/gogogandidns.go */
    | MissingFlag(flag: string)
    /** goafraid/goafraid.go:133 */
    | MissingConfigFile
    /** gogogandidns/gogogandidns.go:79 */
    | InvalidFamilyFlag(cause: Error)
    /** gogogandidns/gogogandidns.go:128 */
    | DeleteRefused
    /** gogogandidns/gogogandidns.go:154 */
    | SetLiveRefused
    /** an error produced outside the modelled code, reported as it came */
    | External(message: string)

  /** The text Go prints for each error. Each value the Go code formats
      into a message appears in it at a fixed position; an outside error is
      printed as it came. */
  function Message(e: Error): (r: string)
    ensures e.FamilyParse? ==> OccursAt(r, e.input, 17)
    ensures e.UnexpectedAddressType? ==> OccursAt(r, e.network, 24)
    ensures e.AddressNotFound? ==> OccursAt(r, e.family, 33)
    ensures e.NonOkStatus? ==> OccursAt(r, e.status, 24)
    ensures e.ApiKeyRead? ==> OccursAt(r, e.path, 28)
    ensures e.MissingFlag? ==> OccursAt(r, e.flag, 19)
    ensures e.ApiKeyRead? ==> OccursAt(r, Message(e.cause), 31 + |e.path|)
    ensures e.InvalidFamilyFlag? ==> OccursAt(r, Message(e.cause), 27)
    ensures e.External? ==> r == e.message
  {
    match e
    case FamilyParse(input) => ParseText(input)
    case UnexpectedAddressType(network, iface) => TypeText(network, iface)
    case AddressNotFound(family, iface) => NotFoundText(family, iface)
    case MissingCredentials => CredentialsText
    case NonOkStatus(status) => StatusText(status)
    case ApiKeyRead(path, cause) => KeyText(path, Message(cause))
    case MissingFlag(flag) => FlagText(flag)
    case MissingConfigFile => ConfigFileText
    case InvalidFamilyFlag(cause) => FamilyFlagText(Message(cause))
    case DeleteRefused => DeleteText
    case SetLiveRefused => SetLiveText
    case External(message) => message
  }

  const CredentialsText: string := "Missing User or Password value."

  const ConfigFileText: string := "Missing value for -config_file."

  const DeleteText: string := "Deleting record failed, but no error returned."

  const SetLiveText: string := "Setting new version live failed, but no error returned."

  function ParseText(input: string): (r: string)
    ensures OccursAt(r, input, 17)
  {
    Quote("Unable to parse \"", input, "\" as an address family")
  }

  function TypeText(network: string, iface: string): (r: string)
    ensures OccursAt(r, network, 24)
  {
    Quote("Unexpected address type ", network, " for interface " + iface)
  }

  function NotFoundText(family: string, iface: string): (r: string)
    ensures OccursAt(r, family, 33)
  {
    Quote("Unable to find address of family ", family, " on interface " + iface)
  }

  function StatusText(status: string): (r: string)
    ensures OccursAt(r, status, 24)
  {
    Quote("Non-OK status received: ", status, "")
  }

  /** The key-file error quotes the path and then the cause's own text. */
  function KeyText(path: string, cause: string): (r: string)
    ensures OccursAt(r, path, 28)
    ensures OccursAt(r, cause, 31 + |path|)
  {
    var head := Quote("Error reading API key from \"", path, "\": ");
    OccursPrefix(head, cause, path, 28);
    Quote(head, cause, "")
  }

  function FlagText(flag: string): (r: string)
    ensures OccursAt(r, flag, 19)
  {
    Quote("Missing value for -", flag, "")
  }

  /** The `-family` error ends with the parse error's own text. */
  function FamilyFlagText(cause: string): (r: string)
    ensures OccursAt(r, cause, 27)
  {
    Quote("Invalid value for -family: ", cause, "")
  }

  /** `s` between the fixed texts `a` and `b`, as `fmt` formats it. */
  function Quote(a: string, s: string, b: string): (r: string)
    ensures OccursAt(r, s, |a|)
  {
    OccursBetween(a, s, b);
    a + s + b
  }

  /** `s` occurs in `t` starting at index `i`. */
  predicate OccursAt(t: string, s: string, i: int) {
    0 <= i <= |t| - |s| && t[i..i + |s|] == s
  }

  lemma OccursBetween(a: string, s: string, b: string)
    ensures OccursAt(a + s + b, s, |a|)
  {
    assert (a + s + b)[|a|..|a| + |s|] == s;
  }

  /** What occurs in a prefix occurs in the whole. */
  lemma OccursPrefix(a: string, s: string, t: string, i: int)
    requires OccursAt(a, t, i)
    ensures OccursAt(a + s, t, i)
  {
    assert (a + s)[i..i + |t|] == a[i..i + |t|];
  }

  /** `s` occurs in `t` as a contiguous piece. */
  predicate Mentions(t: string, s: string) {
    exists i | 0 <= i <= |t| :: OccursAt(t, s, i)
  }

  /** The parse error's text quotes the rejected token. */
  lemma ParseErrorMentionsInput(input: string)
    ensures Mentions(Message(FamilyParse(input)), input)
  {
    assert OccursAt(Message(FamilyParse(input)), input, 17);
  }

  /** The key-file error's text quotes the path. */
  lemma ApiKeyErrorMentionsPath(path: string, cause: Error)
    ensures Mentions(Message(ApiKeyRead(path, cause)), path)
  {
    assert OccursAt(Message(ApiKeyRead(path, cause)), path, 28);
  }

  /** The status error's text ends with the status line. */
  lemma StatusErrorMentionsStatus(status: string)
    ensures Mentions(Message(NonOkStatus(status)), status)
  {
    assert OccursAt(Message(NonOkStatus(status)), status, 24);
  }
}
