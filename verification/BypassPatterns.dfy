/** What one entry of a bypass list matches, and what each implicit set covers. */
module BypassPatterns {
  import opened Options
  import opened Strings
  import opened TextGlob
  import opened BypassAddress

  type Port = port: nat | port < 0x1_0000

  /** A host: an ASCII name, or an address with the text it is spelled in. */
  datatype Host = Domain(name: string) | Literal(address: Address, text: string)

  datatype HostPattern =
    | All
    | Cidr(net: Net)
    | Exact(host: Host, port: Option<Port>)
    | Suffix(suffix: string, matchSelf: bool, port: Option<Port>)
    | Wildcard(pattern: string, port: Option<Port>)
    | Local
    | SubtractImplicit

  datatype ImplicitBypass = Broad | WinInet | CfNetwork | Empty

  function HostKey(host: Host): string {
    match host
    case Domain(name) => Lower(name)
    case Literal(_, text) => text
  }

  function HostIp(host: Host): Option<Address> {
    match host
    case Domain(_) => None
    case Literal(address, _) => Some(address)
  }

  function Reduced(ip: Option<Address>): Option<Address> {
    if ip.Some? then Some(ReduceMapped(ip.value)) else None
  }

  predicate PortMatches(rulePort: Option<Port>, port: Option<Port>) {
    rulePort.None? || port == rulePort
  }

  /** What stands before the suffix, when the text ends in it with ASCII case folded. */
  function StripSuffixAsciiCase(text: string, suffix: string): Option<string> {
    if |suffix| <= |text| && Lower(text[|text| - |suffix|..]) == Lower(suffix)
    then Some(text[..|text| - |suffix|])
    else None
  }

  function StripDot(text: string): string {
    if text != "" && text[|text| - 1] == '.' then text[..|text| - 1] else text
  }

  predicate IsSimpleHostName(text: string, ip: Option<Address>) {
    ip.None? && '.' !in text
  }

  /** One entry against a destination, `ip` already reduced when `reduce` is set. */
  predicate EntryMatches(entry: HostPattern, text: string, ip: Option<Address>, port: Option<Port>, reduce: bool) {
    match entry
    case All => true
    case Cidr(net) => ip.Some? && Contains(if reduce then ReduceMappedNet(net) else net, ip.value)
    case Exact(host, rulePort) =>
      var ruleIp := if reduce then Reduced(HostIp(host)) else HostIp(host);
      && (if ruleIp.Some? && ip.Some? then ruleIp == ip else text == HostKey(host))
      && PortMatches(rulePort, port)
    case Suffix(suffix, matchSelf, rulePort) =>
      var bare := if suffix != "" && suffix[0] == '.' then suffix[1..] else suffix;
      var rest := StripSuffixAsciiCase(text, bare);
      && bare != "" && rest.Some?
      && (EndsWith(rest.value, ".") || (matchSelf && rest.value == ""))
      && PortMatches(rulePort, port)
    case Wildcard(pattern, rulePort) => Glob(Lower(pattern), text) && PortMatches(rulePort, port)
    case Local => IsSimpleHostName(text, ip)
    case SubtractImplicit => false
  }

  // -------------------------------------------------------------------------- implicit sets

  predicate IsLoopback(text: string, ip: Option<Address>) {
    match ip
    case Some(V4(bits)) => bits / 0x100_0000 == 127
    case Some(V6(bits)) => bits == 1
    case None =>
      var name := StripDot(text);
      name == "localhost" || name == "loopback" || EndsWith(name, ".localhost")
  }

  predicate IsLoopbackAddress(ip: Address) {
    ip == V4(0x7f00_0001) || ip == V6(1)
  }

  predicate IsLinkLocal(ip: Address) {
    match ip
    case V4(bits) => bits / 0x1_0000 == 0xa9fe
    case V6(bits) => bits / 0x40_0000_0000_0000_0000_0000_0000_0000 == 0x3fa
  }

  /** Whether the destination, its address as written, is in the set. */
  predicate Covers(implicit: ImplicitBypass, text: string, ip: Option<Address>) {
    match implicit
    case Broad => IsLoopback(text, Reduced(ip))
    case WinInet =>
      if ip.Some? then IsLoopbackAddress(ip.value) || IsLinkLocal(ip.value)
      else text == "localhost" || text == "loopback"
    case CfNetwork => if ip.Some? then IsLoopbackAddress(ip.value) else text == "localhost"
    case Empty => false
  }
}
