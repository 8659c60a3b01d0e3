/**
 Reading one entry of a `no_proxy` list, and writing a rule down again. What the standard
 library, the `ipnet` crate and the `url` crate do with addresses and names is a parameter.
 */
module BypassParse {
  import opened Options
  import opened Strings
  import opened Decimals
  import opened BypassAddress
  import opened BypassPatterns

  /** What a URL host reads as. */
  datatype Reading = Named | Addressed(address: Address) | Unreadable

  /** The readers and printers of addresses, blocks, hosts and internationalised names. */
  datatype Readers = Readers(
    spell: Address -> string,
    address: string -> Option<Address>,
    block: string -> Option<Net>,
    host: string -> Reading,
    ascii: string -> Option<string>)

  /** The whole answer for an entry: no rule to be made, a rule, or an error. */
  datatype Parsed = Nothing | Rule(pattern: HostPattern) | Refused

  const LOCAL_TOKEN: string := "<local>"
  const NO_LOOPBACK_TOKEN: string := "<-loopback>"

  // -------------------------------------------------------------------------- host and port

  datatype Split = Unsplit | HostPort(host: string, port: Option<Port>)

  /** `1*DIGIT`, in range. */
  function PortFromDigits(text: string): Option<Port> {
    if text == "" || !AllDigits(text) || DecimalValue(text) >= 0x1_0000 then None else Some(DecimalValue(text))
  }

  function WithParsedPort(host: string, text: string): Split {
    if text == "" then HostPort(host, None)
    else
      var port := PortFromDigits(text);
      if port.Some? then HostPort(host, port) else Unsplit
  }

  predicate OneColon(text: string) {
    var first, last := FindFirst(text, ':'), FindLast(text, ':');
    first.Some? && first == last
  }

  function SplitHostPort(input: string): Split {
    if input != "" && input[0] == '[' then
      var end := FindFirst(input, ']');
      if end.None? then Unsplit
      else
        var host, rest := input[..end.value + 1], input[end.value + 1..];
        if rest == "" then HostPort(host, None)
        else if rest[0] != ':' then Unsplit
        else WithParsedPort(host, rest[1..])
    else
      var colon := FindLast(input, ':');
      if colon.Some? && ':' !in input[..colon.value] then
        WithParsedPort(input[..colon.value], input[colon.value + 1..])
      else HostPort(input, None)
  }

  function StripBrackets(host: string): string {
    if |host| >= 2 && host[0] == '[' && host[|host| - 1] == ']' then host[1..|host| - 1] else host
  }

  // ------------------------------------------------------------------------------ host text

  predicate IsControl(c: char) {
    c < ' ' || '\U{007F}' <= c <= '\U{009F}'
  }

  predicate IsForbiddenHostChar(c: char) {
    IsControl(c) || c in "#%<>?[\\]^|"
  }

  predicate IsAscii(text: string) {
    forall i :: 0 <= i < |text| ==> text[i] < '\U{0080}'
  }

  /** Splitting the text at its dots gives an empty piece. */
  predicate HasEmptyLabel(text: string) {
    || text == "" || text[0] == '.' || text[|text| - 1] == '.'
    || exists i :: 0 <= i < |text| - 1 && text[i] == '.' && text[i + 1] == '.'
  }

  function CountDots(text: string): nat {
    if text == "" then 0 else (if text[0] == '.' then 1 else 0) + CountDots(text[1..])
  }

  function SubdomainBody(text: string): Option<string> {
    if StartsWith(text, "*.") then Some(text[2..])
    else if StartsWith(text, ".") then Some(text[1..])
    else None
  }

  predicate FitsADottedQuad(body: string) {
    && '*' in body && CountDots(body) < 3
    && forall c :: c in body ==> IsDigit(c) || c == '.' || c == '*'
  }

  /** Neither a name nor something a dotted quad could end in. */
  predicate DeadBody(readers: Readers, body: string) {
    && body != "" && !readers.host(body).Named?
    && !(readers.host(body).Unreadable? && FitsADottedQuad(body))
  }

  /** The host text with the grammar's own dots off: a subdomain prefix and the root dot. */
  function Labels(text: string): string {
    var subdomain := SubdomainBody(text);
    StripDot(if subdomain.Some? then subdomain.value else text)
  }

  predicate HasDeadLabel(text: string) {
    Labels(text) != "" && HasEmptyLabel(Labels(text))
  }

  /** The rule a host text that passed every guard stands for. */
  function Build(readers: Readers, text: string, port: Option<Port>): Parsed {
    if StartsWith(text, "*.") then
      var rest := StripDot(text[2..]);
      if rest == "" then Nothing
      else if '*' !in rest then Rule(Suffix("." + rest, false, port))
      else Rule(Wildcard("*." + rest, port))
    else
      var name := StripDot(text);
      if name == "" then Nothing
      else if readers.address(name).Some? then
        var address := readers.address(name).value;
        Rule(Exact(Literal(address, readers.spell(address)), port))
      else if '*' in name then Rule(Wildcard(if name[0] == '.' then "*" + name else name, port))
      else if name == "." then Nothing
      else if name[0] == '.' then Rule(Suffix(name, false, port))
      else
        match readers.host(name)
        case Unreadable => Refused
        case Addressed(V4(bits)) => Rule(Exact(Literal(V4(bits), readers.spell(V4(bits))), port))
        case _ => Rule(Suffix("." + name, true, port))
  }

  function ParseHostText(readers: Readers, text: string, port: Option<Port>): Parsed {
    if HasDeadLabel(text) then Refused
    else if SubdomainBody(text).Some? && DeadBody(readers, Labels(text)) then Refused
    else Build(readers, text, port)
  }

  function ParseHost(readers: Readers, bracketed: string, port: Option<Port>): Parsed {
    var host := StripBrackets(bracketed);
    if |host| != |bracketed| && !readers.host(host).Addressed? then Refused
    else if exists c :: c in host && IsForbiddenHostChar(c) then Refused
    else if IsAscii(host) then ParseHostText(readers, host, port)
    else
      var encoded := readers.ascii(host);
      if encoded.Some? then ParseHostText(readers, encoded.value, port) else Refused
  }

  // ---------------------------------------------------------------------------- whole entry

  /** The block an entry names; one whose address is not four decimal octets is folded first. */
  function ReadBlock(readers: Readers, lowered: string): Option<Net> {
    var slash := FindFirst(lowered, '/');
    var folded :=
      if slash.None? then None
      else
        var address, prefix := lowered[..slash.value], lowered[slash.value + 1..];
        if && readers.address(address).None?
           && CountDots(address) == 3 && !HasEmptyLabel(address)
           && !(exists c :: c in address && IsForbiddenHostChar(c))
           && readers.host(address).Addressed? && readers.host(address).address.V4?
        then readers.block(readers.spell(readers.host(address).address) + "/" + prefix)
        else None;
    if folded.Some? then folded else readers.block(lowered)
  }

  function ParseEntry(readers: Readers, entry: string): Parsed {
    var trimmed := Trim(entry);
    var lowered := Lower(trimmed);
    if trimmed == "" then Nothing
    else if lowered == "*" then Rule(All)
    else if lowered == LOCAL_TOKEN then Rule(Local)
    else if lowered == NO_LOOPBACK_TOKEN then Rule(SubtractImplicit)
    else if '@' in trimmed then Refused
    else if exists c :: c in trimmed && IsWhitespace(c) then Refused
    else if Find(lowered, "://").Some? then Refused
    else
      var net := ReadBlock(readers, lowered);
      if net.Some? then Rule(Cidr(net.value))
      else if '/' in lowered then Refused
      else
        match SplitHostPort(lowered)
        case Unsplit => Refused
        case HostPort(host, port) => ParseHost(readers, host, port)
  }

  // ------------------------------------------------------------------------------- printing

  function WithPort(base: string, port: Option<Port>): string {
    if port.Some? then base + ":" + Decimal(port.value) else base
  }

  function PrintHost(host: Host): string {
    match host
    case Domain(name) => name
    case Literal(V4(_), text) => text
    case Literal(V6(_), text) => "[" + text + "]"
  }

  function PrintNet(readers: Readers, net: Net): string {
    match net
    case Net4(addr, prefix) => readers.spell(V4(addr)) + "/" + Decimal(prefix)
    case Net6(addr, prefix) => readers.spell(V6(addr)) + "/" + Decimal(prefix)
  }

  /** A suffix rule's text: the leading dot is what says that the domain itself is not meant. */
  function PrintSuffix(suffix: string, matchSelf: bool): string {
    if matchSelf && StartsWith(suffix, ".") then suffix[1..]
    else if !matchSelf && !StartsWith(suffix, ".") then "." + suffix
    else suffix
  }

  function Print(readers: Readers, pattern: HostPattern): string {
    match pattern
    case All => "*"
    case Cidr(net) => PrintNet(readers, net)
    case Exact(host, port) => WithPort(PrintHost(host), port)
    case Suffix(suffix, matchSelf, port) => WithPort(PrintSuffix(suffix, matchSelf), port)
    case Wildcard(pattern, port) => WithPort(pattern, port)
    case Local => LOCAL_TOKEN
    case SubtractImplicit => NO_LOOPBACK_TOKEN
  }
}
