/**
 What an entry of a `no_proxy` list comes to mean: which destinations the rule it reads as matches,
 which entries make no rule, and which are refused.
 */
module BypassReading {
  import opened Options
  import opened Strings
  import opened Decimals
  import TextGlob
  import opened BypassAddress
  import opened BypassPatterns
  import opened BypassParse
  import opened BypassRoundTrip
  import opened BypassMeaning

  /** The text is the domain in either case, or, subdomains meant, ends in a dot and the domain. */
  predicate Under(text: string, domain: string, itself: bool) {
    || (itself && Lower(text) == Lower(domain))
    || (|text| > |domain| && text[|text| - |domain| - 1] == '.' && Lower(text)[|text| - |domain|..] == Lower(domain))
  }

  predicate OnPort(rulePort: Option<Port>, port: Option<Port>) {
    rulePort.None? || port == rulePort
  }

  /** The entry reads as a rule, and that rule matches exactly the destinations `says` picks. */
  ghost predicate Means(
      readers: Readers, entry: string,
      says: (string, Option<Address>, Option<Port>, bool) -> bool)
  {
    var parsed := ParseEntry(readers, entry);
    && parsed.Rule?
    && forall text, ip, port, reduce ::
         EntryMatches(parsed.pattern, text, ip, port, reduce) <==> says(text, ip, port, reduce)
  }

  // --------------------------------------------------------------------------------- names

  /** Text of a name: host characters, labels that are not empty, no star and no colon. */
  predicate NameText(name: string) {
    HostChars(name) && !HasEmptyLabel(name) && '*' !in name && ':' !in name
  }

  lemma StarredHasStar(name: string)
    ensures StartsWith(name, "*.") ==> '*' in name
  {
    if StartsWith(name, "*.") { assert name[0] == "*."[0]; }
  }

  lemma StarIsSomewhere(name: string)
    requires '*' !in name
    ensures !StartsWith(name, "*.") && name != "*"
  {
    StarredHasStar(name);
  }

  /** A bare name, on its own or with a port: the domain and everything under it. */
  lemma NameEntry(readers: Readers, name: string, rulePort: Option<Port>)
    requires Lawful(readers) && NameText(name)
    requires readers.address(name).None? && readers.host(name).Named?
    ensures Means(readers, WithPort(name, rulePort),
                  (text, ip, port, reduce) => OnPort(rulePort, port) && Under(text, name, true))
  {
    hide Lawful, HasEmptyLabel, HostChars, ParseEntry, EntryMatches, Under;
    NameGuards(name);
    PrintedIsParsed(readers, name, rulePort);
    NameAgain(name);
    SuffixMeans(readers, WithPort(name, rulePort), name, true, rulePort);
  }

  lemma NameGuards(name: string)
    requires NameText(name)
    ensures name != "" && name[0] != '.' && !StartsWith(name, "*.") && name != "*" && !OneColon(name)
  {
    LastNotDot(name);
    StarIsSomewhere(name);
    NoColon(name);
  }

  lemma SuffixMeans(readers: Readers, entry: string, name: string, itself: bool, rulePort: Option<Port>)
    requires name != "" && name[0] != '.'
    ensures ParseEntry(readers, entry) == Rule(Suffix("." + name, itself, rulePort)) ==>
              Means(readers, entry, (text, ip, port, reduce) => OnPort(rulePort, port) && Under(text, name, itself))
  {
    hide ParseEntry, EntryMatches;
    forall text, ip, port, reduce
      ensures EntryMatches(Suffix("." + name, itself, rulePort), text, ip, port, reduce) <==>
              OnPort(rulePort, port) && Under(text, name, itself)
    {
      DomainRule(name, itself, rulePort, text, ip, port, reduce);
    }
  }

  /** The name behind a dot, or behind a star and a dot: what is under the domain, and not itself. */
  lemma SubdomainEntry(readers: Readers, name: string, rulePort: Option<Port>)
    requires Lawful(readers) && NameText(name) && readers.host(name).Named?
    ensures Means(readers, WithPort("." + name, rulePort),
                  (text, ip, port, reduce) => OnPort(rulePort, port) && Under(text, name, false))
    ensures Means(readers, WithPort("*." + name, rulePort),
                  (text, ip, port, reduce) => OnPort(rulePort, port) && Under(text, name, false))
  {
    hide Lawful, HasEmptyLabel, HostChars, ParseEntry, ParseHostText, EntryMatches, Under;
    NameGuards(name);
    DottedPrintable(name, rulePort);
    assert "." + name != "*" && "*." + name != "*";
    PrintedIsParsed(readers, "." + name, rulePort);
    PrintedIsParsed(readers, "*." + name, rulePort);
    StarDotPlain(readers, name, rulePort);
    StarredName(readers, name, rulePort);
    SuffixMeans(readers, WithPort("." + name, rulePort), name, false, rulePort);
    SuffixMeans(readers, WithPort("*." + name, rulePort), name, false, rulePort);
  }

  lemma StarredName(readers: Readers, name: string, rulePort: Option<Port>)
    requires Passes(readers, name) && '*' !in name
    ensures ParseHostText(readers, "*." + name, rulePort) == Rule(Suffix("." + name, false, rulePort))
  {
    hide HasEmptyLabel, DeadBody;
    BodyAgain(name);
    LastNotDot(name);
    DotShed(name);
  }

  // --------------------------------------------------------------------------------- globs

  predicate GlobText(glob: string) {
    && HostChars(glob) && !HasEmptyLabel(glob) && '*' in glob && ':' !in glob
  }

  lemma GlobMeans(readers: Readers, entry: string, glob: string, rulePort: Option<Port>)
    requires HostChars(glob)
    ensures ParseEntry(readers, entry) == Rule(Wildcard(glob, rulePort)) ==>
              Means(readers, entry, (text, ip, port, reduce) => OnPort(rulePort, port) && TextGlob.Spells(glob, text))
  {
    hide ParseEntry, EntryMatches, TextGlob.Spells;
    NothingToLower(glob);
    forall text, ip, port, reduce
      ensures EntryMatches(Wildcard(glob, rulePort), text, ip, port, reduce) <==>
              OnPort(rulePort, port) && TextGlob.Spells(glob, text)
    {
      GlobRule(glob, rulePort, text, ip, port, reduce);
    }
  }

  /** A glob that does not open with a star and a dot, and restricts more than nothing: as written. */
  lemma GlobEntry(readers: Readers, glob: string, rulePort: Option<Port>)
    requires Lawful(readers) && GlobText(glob) && !StartsWith(glob, "*.")
    requires glob != "*" || rulePort.Some?
    ensures Means(readers, WithPort(glob, rulePort),
                  (text, ip, port, reduce) => OnPort(rulePort, port) && TextGlob.Spells(glob, text))
  {
    hide Lawful, HasEmptyLabel, HostChars, ParseEntry, EntryMatches, TextGlob.Spells, OneColon;
    LastNotDot(glob);
    NoColon(glob);
    PrintedIsParsed(readers, glob, rulePort);
    NameAgain(glob);
    ReadsOf(readers, glob);
    StarIsNoAddress(glob);
    GlobMeans(readers, WithPort(glob, rulePort), glob, rulePort);
  }

  lemma StarIsNoAddress(text: string)
    requires '*' in text
    ensures !AddressText(text)
  {
  }

  /** A glob behind a dot, or behind a star and a dot, waits for something and a dot in front of it. */
  lemma SubdomainGlobEntry(readers: Readers, body: string, rulePort: Option<Port>)
    requires Lawful(readers) && GlobText(body) && !DeadBody(readers, body)
    ensures Means(readers, WithPort("." + body, rulePort),
                  (text, ip, port, reduce) => OnPort(rulePort, port) && TextGlob.Spells("*." + body, text))
    ensures Means(readers, WithPort("*." + body, rulePort),
                  (text, ip, port, reduce) => OnPort(rulePort, port) && TextGlob.Spells("*." + body, text))
  {
    hide Lawful, HasEmptyLabel, HostChars, DeadBody, ParseEntry, ParseHostText, EntryMatches, TextGlob.Spells;
    LastNotDot(body);
    DottedPrintable(body, rulePort);
    assert "." + body != "*" && "*." + body != "*";
    PrintedIsParsed(readers, "." + body, rulePort);
    PrintedIsParsed(readers, "*." + body, rulePort);
    StarDotGlob(readers, body, rulePort);
    DottedGlob(readers, body, rulePort);
    GlobMeans(readers, WithPort("." + body, rulePort), "*." + body, rulePort);
    GlobMeans(readers, WithPort("*." + body, rulePort), "*." + body, rulePort);
  }

  lemma DottedGlob(readers: Readers, body: string, rulePort: Option<Port>)
    requires Lawful(readers) && Passes(readers, body) && '*' in body
    ensures ParseHostText(readers, "." + body, rulePort) == Rule(Wildcard("*." + body, rulePort))
  {
    hide HasEmptyLabel, DeadBody, Lawful;
    BodyAgain(body);
    NotAnAddress(readers, "." + body);
    assert "*" + ("." + body) == "*." + body;
  }

  // ------------------------------------------------------------------------------ addresses

  /** The destination is the address, or, carrying none, is spelled as the address is. */
  predicate IsAddress(address: Address, spelled: string, text: string, ip: Option<Address>, reduce: bool) {
    if ip.Some? then ip.value == (if reduce then ReduceMapped(address) else address) else text == spelled
  }

  lemma ExactMeans(readers: Readers, entry: string, address: Address, spelled: string, rulePort: Option<Port>)
    ensures ParseEntry(readers, entry) == Rule(Exact(Literal(address, spelled), rulePort)) ==>
              Means(readers, entry,
                    (text, ip, port, reduce) => OnPort(rulePort, port) && IsAddress(address, spelled, text, ip, reduce))
  {
    hide ParseEntry, ReduceMapped;
    forall text, ip, port, reduce
      ensures EntryMatches(Exact(Literal(address, spelled), rulePort), text, ip, port, reduce) <==>
              OnPort(rulePort, port) && IsAddress(address, spelled, text, ip, reduce)
    {
    }
  }

  /** An address, an IPv6 one bracketed: that address, however the destination is spelled. */
  lemma AddressEntry(readers: Readers, address: Address, rulePort: Option<Port>)
    requires Lawful(readers)
    ensures var spelled := readers.spell(address);
            Means(readers, WithPort(if address.V4? then spelled else "[" + spelled + "]", rulePort),
                  (text, ip, port, reduce) => OnPort(rulePort, port) && IsAddress(address, spelled, text, ip, reduce))
  {
    hide Lawful, ParseEntry, Means;
    AddressRoundTrip(readers, address, rulePort);
    ExactMeans(readers, Print(readers, Exact(Literal(address, readers.spell(address)), rulePort)),
               address, readers.spell(address), rulePort);
  }

  /** An IPv6 address without brackets, which no port can follow. */
  lemma BareAddressEntry(readers: Readers, address: Address)
    requires Lawful(readers)
    ensures var spelled := readers.spell(address);
            Means(readers, spelled, (text, ip, port, reduce) => IsAddress(address, spelled, text, ip, reduce))
  {
    hide Lawful, ParseEntry, HasEmptyLabel, HostChars, OneColon;
    var spelled := readers.spell(address);
    assert BypassRoundTrip.Spells(readers, address) by { LawfulSpells(readers, address); }
    LastNotDot(spelled);
    AddressChars(spelled);
    if address.V4? { NoColon(spelled); }
    PrintedIsParsed(readers, spelled, None);
    SpelledIsRead(readers, address, None);
    ExactMeans(readers, spelled, address, spelled, None);
  }

  lemma LawfulSpells(readers: Readers, address: Address)
    requires Lawful(readers)
    ensures BypassRoundTrip.Spells(readers, address)
  {
  }

  /** An IPv4 address in another spelling is the address the destination's side reads in it. */
  lemma OtherSpellingEntry(readers: Readers, name: string, bits: Word32, rulePort: Option<Port>)
    requires Lawful(readers) && NameText(name)
    requires readers.address(name).None? && readers.host(name) == Addressed(V4(bits))
    ensures var spelled := readers.spell(V4(bits));
            Means(readers, WithPort(name, rulePort),
                  (text, ip, port, reduce) => OnPort(rulePort, port) && IsAddress(V4(bits), spelled, text, ip, reduce))
  {
    hide Lawful, HasEmptyLabel, HostChars, ParseEntry, Means;
    NameGuards(name);
    PrintedIsParsed(readers, name, rulePort);
    NameAgain(name);
    ExactMeans(readers, WithPort(name, rulePort), V4(bits), readers.spell(V4(bits)), rulePort);
  }

  /** A block: the addresses in it. */
  lemma BlockEntry(readers: Readers, net: Net)
    requires Lawful(readers)
    ensures Means(readers, PrintNet(readers, net), (text, ip: Option<Address>, port, reduce) =>
                    ip.Some? && Contains(if reduce then ReduceMappedNet(net) else net, ip.value))
  {
    hide Lawful, ParseEntry, Contains;
    NetRoundTrip(readers, net);
  }

  // -------------------------------------------------------------- case, whitespace and dots

  lemma LowerAgain(text: string)
    ensures Lower(Lower(text)) == Lower(text)
  {
    hide Lower;
    forall i | 0 <= i < |text| ensures !('A' <= Lower(text)[i] <= 'Z') { LowerKeeps(text[i]); }
    NothingToLower(Lower(text));
  }

  /** Letters are read in either case. */
  lemma EitherCase(readers: Readers, entry: string)
    requires Trim(entry) == entry
    ensures ParseEntry(readers, Lower(entry)) == ParseEntry(readers, entry)
  {
    hide Lower, IsWhitespace, Trim, ReadBlock, SplitHostPort, ParseHost;
    var lowered := Lower(entry);
    LowerAgain(entry);
    LowerKeepsTrimmed(entry);
    assert '@' in lowered <==> '@' in entry by { LowerKeepsMembers(entry); }
    assert (exists c :: c in lowered && IsWhitespace(c)) <==> (exists c :: c in entry && IsWhitespace(c)) by {
      LowerKeepsMembers(entry);
    }
  }

  lemma LowerKeepsMembers(text: string)
    ensures '@' in Lower(text) <==> '@' in text
    ensures (exists c :: c in Lower(text) && IsWhitespace(c)) <==> (exists c :: c in text && IsWhitespace(c))
  {
    hide Lower, IsWhitespace;
    var lowered := Lower(text);
    forall i | 0 <= i < |text|
      ensures IsWhitespace(lowered[i]) == IsWhitespace(text[i]) && (lowered[i] == '@') == (text[i] == '@')
    {
      LowerKeeps(text[i]);
    }
    if c :| c in lowered && IsWhitespace(c) {
      var i :| 0 <= i < |lowered| && lowered[i] == c;
      assert text[i] in text;
    }
    if c :| c in text && IsWhitespace(c) {
      var i :| 0 <= i < |text| && text[i] == c;
      assert lowered[i] in lowered;
    }
  }

  lemma {:induction false} TrimmedEnds(text: string)
    ensures Trim(text) == text <==>
            text == "" || (!IsWhitespace(text[0]) && !IsWhitespace(text[|text| - 1]))
  {
    hide IsWhitespace;
    NoLonger(text);
    if text != "" && !IsWhitespace(text[0]) {
      assert TrimStart(text) == text;
    }
  }

  lemma {:induction false} NoLonger(text: string)
    ensures |TrimStart(text)| <= |text| && |TrimEnd(TrimStart(text))| <= |TrimStart(text)|
    ensures text != "" && IsWhitespace(text[0]) ==> |TrimStart(text)| < |text|
    ensures text != "" && IsWhitespace(text[|text| - 1]) ==> |Trim(text)| < |text|
  {
    StartNoLonger(text);
    EndNoLonger(TrimStart(text));
    if text != "" {
      StartNoLonger(text[1..]);
      var start := TrimStart(text);
      if start != "" {
        assert start[|start| - 1] == text[|text| - 1];
        EndNoLonger(start[..|start| - 1]);
      }
    }
  }

  lemma {:induction false} StartNoLonger(text: string)
    ensures |TrimStart(text)| <= |text|
    ensures TrimStart(text) == text[|text| - |TrimStart(text)|..]
    decreases text
  {
    if text != "" && IsWhitespace(text[0]) { StartNoLonger(text[1..]); }
  }

  lemma {:induction false} EndNoLonger(text: string)
    ensures |TrimEnd(text)| <= |text|
    decreases text
  {
    if text != "" && IsWhitespace(text[|text| - 1]) { EndNoLonger(text[..|text| - 1]); }
  }

  lemma LowerKeepsTrimmed(text: string)
    ensures Trim(Lower(text)) == Lower(text) <==> Trim(text) == text
  {
    hide Lower, Trim, IsWhitespace;
    TrimmedEnds(text);
    TrimmedEnds(Lower(text));
    if text != "" {
      LowerKeeps(text[0]);
      LowerKeeps(text[|text| - 1]);
    }
  }

  /** The dot of the root behind a name is read as if it were not there; behind a lone star it is not. */
  lemma RootDot(readers: Readers, name: string, rulePort: Option<Port>)
    requires !HasEmptyLabel(name) && name != "*"
    ensures ParseHostText(readers, name + ".", rulePort) == ParseHostText(readers, name, rulePort)
  {
    hide HasEmptyLabel, DeadBody;
    LastNotDot(name);
    var dotted := name + ".";
    assert StripDot(dotted) == name && StripDot(name) == name;
    RootDotPrefix(name);
    if StartsWith(name, "*.") {
      assert dotted[2..] == name[2..] + ".";
      assert StripDot(dotted[2..]) == name[2..];
      LastOfRest(name);
    }
  }

  lemma LastOfRest(name: string)
    requires StartsWith(name, "*.") && name[|name| - 1] != '.'
    ensures StripDot(name[2..]) == name[2..]
  {
    assert name[1] == "*."[1];
  }

  lemma RootDotPrefix(name: string)
    requires name != "" && name[0] != '.' && name[|name| - 1] != '.' && name != "*"
    ensures StartsWith(name + ".", "*.") <==> StartsWith(name, "*.")
    ensures !StartsWith(name + ".", ".") && !StartsWith(name, ".")
  {
    FirstOf(name + ".", ".");
    FirstOf(name + ".", "*.");
    assert |name| == 1 ==> name == [name[0]];
  }

  lemma FirstOf(text: string, prefix: string)
    ensures prefix != "" && StartsWith(text, prefix) ==> text != "" && text[0] == prefix[0]
  {
  }

  // --------------------------------------------------------------- no rule, and refused ones

  lemma NothingFromHost(readers: Readers, port: Option<Port>)
    requires Lawful(readers)
    ensures ParseHostText(readers, "", port) == Nothing
    ensures ParseHostText(readers, ".", port) == Nothing
    ensures ParseHostText(readers, "..", port) == Nothing
    ensures ParseHostText(readers, "*.", port) == Nothing
  {
    hide Lawful;
    ReadsOf(readers, ".");
    assert "."[1..] == "" && ".."[1..] == "." && "*."[2..] == "";
    assert StripDot(".") == "" && StripDot("..") == ".";
    FirstOf(".", "*.");
    FirstOf("..", "*.");
  }

  /** What has no host left to match makes no rule: a port alone, dots alone, a star and a dot. */
  lemma NoRuleEntries(readers: Readers, port: Port)
    requires Lawful(readers)
    ensures ParseEntry(readers, "") == Nothing
    ensures ParseEntry(readers, ":" + Decimal(port)) == Nothing
    ensures ParseEntry(readers, ".") == Nothing
    ensures ParseEntry(readers, "..") == Nothing
    ensures ParseEntry(readers, "*.") == Nothing
  {
    hide Lawful, ParseHostText, ParseEntry, Decimal, HostChars, OneColon;
    NothingFromHost(readers, None);
    NothingFromHost(readers, Some(port));
    EmptyEntry(readers);
    PortAlone(readers, port);
    DotsAreHostChars();
    NoColon(".");
    NoColon("..");
    NoColon("*.");
    PrintedIsParsed(readers, ".", None);
    PrintedIsParsed(readers, "..", None);
    PrintedIsParsed(readers, "*.", None);
  }

  lemma EmptyEntry(readers: Readers)
    ensures ParseEntry(readers, "") == Nothing
  {
    assert Trim("") == "";
  }

  lemma DotsAreHostChars()
    ensures HostChars(".") && HostChars("..") && HostChars("*.")
  {
  }

  lemma PortAlone(readers: Readers, port: Port)
    requires Lawful(readers)
    ensures ParseEntry(readers, ":" + Decimal(port)) == ParseHostText(readers, "", Some(port))
  {
    hide Lawful, ParseHostText, ParseEntry, SplitHostPort, Decimal, IsWhitespace, PortFromDigits, IsForbiddenHostChar;
    var text := ":" + Decimal(port);
    PortReadsBack(port);
    PortText("", Some(port));
    assert WithPort("", Some(port)) == text by { assert "" + ":" == ":"; }
    PastTheGuards(readers, text);
    SplitsPort(port);
  }

  lemma SplitsPort(port: Port)
    ensures SplitHostPort(":" + Decimal(port)) == HostPort("", Some(port))
  {
    hide PortFromDigits, Decimal;
    PortReadsBack(port);
    var digits := Decimal(port);
    FoundLast("", ':', digits);
    var text := "" + [':'] + digits;
    assert text == ":" + digits;
    assert text[..0] == "" && text[1..] == digits;
  }

  /**
   An entry is refused for an `@` or whitespace inside it, for naming a scheme, and for a slash that
   makes no block.
   */
  lemma RefusedEntries(readers: Readers, entry: string)
    ensures '@' in Trim(entry) ==> ParseEntry(readers, entry) == Refused
    ensures (exists c :: c in Trim(entry) && IsWhitespace(c)) ==> ParseEntry(readers, entry) == Refused
    ensures Find(Lower(Trim(entry)), "://").Some? ==> ParseEntry(readers, entry) == Refused
    ensures '/' in Lower(Trim(entry)) && ReadBlock(readers, Lower(Trim(entry))).None? ==>
              ParseEntry(readers, entry) == Refused
  {
    hide Lower, Trim, Find, IsWhitespace, ReadBlock, SplitHostPort, ParseHost;
    var trimmed := Trim(entry);
    LowerKeepsMembers(trimmed);
    TokensArePlain();
    NoneIn(trimmed);
    FindInEmpty();
  }

  lemma NoneIn(text: string)
    ensures text == "" ==> '@' !in text && !(exists c :: c in text && IsWhitespace(c)) && Lower(text) == ""
  {
  }

  lemma FindInEmpty()
    ensures Find("", "://").None?
  {
  }

  predicate HoldsNothingRefused(text: string) {
    '@' !in text && '/' !in text && !(exists c :: c in text && IsWhitespace(c)) && Find(text, "://").None?
  }

  lemma PlainToken(text: string)
    requires forall i :: 0 <= i < |text| ==> text[i] != '@' && text[i] != '/' && !IsWhitespace(text[i])
    ensures HoldsNothingRefused(text)
  {
    NoScheme(text);
  }

  /** The three tokens hold nothing an entry is refused for. */
  lemma TokensArePlain()
    ensures HoldsNothingRefused("*") && HoldsNothingRefused(LOCAL_TOKEN) && HoldsNothingRefused(NO_LOOPBACK_TOKEN)
  {
    hide HoldsNothingRefused;
    PlainToken("*");
    PlainToken(LOCAL_TOKEN);
    PlainToken(NO_LOOPBACK_TOKEN);
  }

  /** What no host may hold: controls, and the marks that the URL Standard forbids in a domain. */
  predicate Forbidden(c: char) {
    c as int < 0x20 || 0x7F <= c as int < 0xA0 || c in {'#', '%', '<', '>', '?', '[', '\\', ']', '^', '|'}
  }

  lemma ForbiddenIn(host: string)
    ensures (exists c :: c in host && Forbidden(c)) <==> (exists c :: c in host && IsForbiddenHostChar(c))
  {
    assert forall c :: Forbidden(c) <==> IsForbiddenHostChar(c);
  }

  lemma Bare(host: string)
    requires host != "" && host[0] != '['
    ensures StripBrackets(host) == host
  {
  }

  /** A text past the first guards is refused for what its host part cannot be. */
  lemma RefusedHosts(readers: Readers, host: string, port: Option<Port>)
    requires Lawful(readers) && host != "" && host[0] != '['
    ensures (exists c :: c in host && Forbidden(c)) ==> ParseHost(readers, host, port) == Refused
    ensures Labels(host) != "" && HasEmptyLabel(Labels(host)) ==> ParseHostText(readers, host, port) == Refused
    ensures readers.host(host).Unreadable? && NameText(host) ==> ParseHostText(readers, host, port) == Refused
  {
    hide HasEmptyLabel, DeadBody, Lawful, IsForbiddenHostChar, Forbidden;
    ForbiddenIn(host);
    if NameText(host) && readers.host(host).Unreadable? {
      NameGuards(host);
      NameAgain(host);
      ReadsOf(readers, host);
    }
  }

  /** A host that holds none of that is read for its labels; one not in ASCII, for its ASCII spelling's. */
  lemma OtherHosts(readers: Readers, host: string, port: Option<Port>)
    requires Lawful(readers) && host != "" && host[0] != '[' && Guarded(host)
    requires forall c :: c in host ==> !Forbidden(c)
    ensures (forall c :: c in host ==> c as int < 0x80) ==>
              ParseHost(readers, host, port) == ParseHostText(readers, host, port)
    ensures !(forall c :: c in host ==> c as int < 0x80) ==>
              ParseHost(readers, host, port) ==
              match readers.ascii(host)
              case None => Refused
              case Some(spelling) => ParseHost(readers, spelling, port)
  {
    hide ParseHostText, Lawful, IsForbiddenHostChar, Forbidden, StripBrackets;
    ForbiddenIn(host);
    Bare(host);
    AsciiIs(host);
    if !IsAscii(host) && readers.ascii(host).Some? {
      ReadsOf(readers, host);
      SpellingIsPlain(readers.ascii(host).value);
    }
  }

  lemma AsciiIs(host: string)
    ensures IsAscii(host) <==> forall c :: c in host ==> c as int < 0x80
  {
    assert forall i :: 0 <= i < |host| ==> host[i] in host;
  }

  lemma SpellingIsPlain(spelling: string)
    requires HostChars(spelling)
    ensures StripBrackets(spelling) == spelling && IsAscii(spelling)
    ensures !exists c :: c in spelling && IsForbiddenHostChar(c)
  {
    if |spelling| > 0 {
      assert HostChar(spelling[0]) && IsForbiddenHostChar('[');
    }
  }

  /** An address has no subdomains: behind a dot, or a star and a dot, it is refused. */
  lemma SubdomainOfAddress(readers: Readers, address: Address, port: Option<Port>)
    requires Lawful(readers)
    ensures ParseHostText(readers, "." + readers.spell(address), port) == Refused
    ensures ParseHostText(readers, "*." + readers.spell(address), port) == Refused
  {
    hide Lawful, HasEmptyLabel;
    LawfulSpells(readers, address);
    var body := readers.spell(address);
    BodyAgain(body);
    LastNotDot(body);
  }

  /** A port that is no number, or too large a one, refuses the entry that carries it. */
  lemma RefusedPort(host: string, digits: string)
    requires host != "" && host[0] != '[' && ':' !in host && ':' !in digits && digits != ""
    ensures SplitHostPort(host + ":" + digits) ==
            if AllDigits(digits) && DecimalValue(digits) < 0x1_0000
            then HostPort(host, Some(DecimalValue(digits))) else Unsplit
  {
    FoundLast(host, ':', digits);
    var text := host + [':'] + digits;
    assert text == host + ":" + digits;
    assert text[..|host|] == host && text[|host| + 1..] == digits;
  }

  /** Behind a closing bracket only a port may stand, and an opening one has to be closed. */
  lemma BracketedPort(inner: string, rest: string)
    requires ']' !in inner
    ensures SplitHostPort("[" + inner).Unsplit?
    ensures SplitHostPort("[" + inner + "]") == HostPort("[" + inner + "]", None)
    ensures SplitHostPort("[" + inner + "]:") == HostPort("[" + inner + "]", None)
    ensures rest != "" && rest[0] != ':' ==> SplitHostPort("[" + inner + "]" + rest).Unsplit?
    ensures rest != "" ==>
              SplitHostPort("[" + inner + "]:" + rest) ==
              if AllDigits(rest) && DecimalValue(rest) < 0x1_0000
              then HostPort("[" + inner + "]", Some(DecimalValue(rest))) else Unsplit
  {
    hide SplitHostPort, WithParsedPort, AllDigits, DecimalValue;
    var host := "[" + inner + "]";
    Bracketed(inner, "");
    Bracketed(inner, ":");
    Bracketed(inner, rest);
    Bracketed(inner, ":" + rest);
    assert host + "" == host && host + ":" == "[" + inner + "]:" && host + (":" + rest) == "[" + inner + "]:" + rest;
    assert (":" + rest)[1..] == rest && ":"[1..] == "";
    PortOf(host, rest);
  }

  lemma Bracketed(inner: string, rest: string)
    requires ']' !in inner
    ensures SplitHostPort("[" + inner).Unsplit?
    ensures SplitHostPort("[" + inner + "]" + rest) ==
            if rest == "" then HostPort("[" + inner + "]", None)
            else if rest[0] != ':' then Unsplit
            else WithParsedPort("[" + inner + "]", rest[1..])
  {
    hide WithParsedPort, FindFirst;
    var text := ("[" + inner) + [']'] + rest;
    assert ']' !in "[" + inner;
    FoundFirst("[" + inner, ']', rest);
    assert text == "[" + inner + "]" + rest;
    assert text[..2 + |inner|] == "[" + inner + "]" && text[2 + |inner|..] == rest;
  }

  lemma PortOf(host: string, digits: string)
    ensures WithParsedPort(host, "") == HostPort(host, None)
    ensures digits != "" ==>
              WithParsedPort(host, digits) ==
              if AllDigits(digits) && DecimalValue(digits) < 0x1_0000
              then HostPort(host, Some(DecimalValue(digits))) else Unsplit
  {
    hide AllDigits, DecimalValue;
  }

  /** Zeros in front of a port change nothing. */
  lemma {:induction false} PaddedPort(digits: string)
    requires AllDigits(digits)
    ensures AllDigits("0" + digits) && DecimalValue("0" + digits) == DecimalValue(digits)
  {
    var padded := "0" + digits;
    if digits == "" {
      assert padded[..0] == "";
    } else {
      PaddedPort(digits[..|digits| - 1]);
      assert padded[..|padded| - 1] == "0" + digits[..|digits| - 1];
    }
  }

  /** A block whose address is four parts in another spelling is the block of the address they are. */
  lemma FoldedBlockEntry(readers: Readers, name: string, bits: Word32, prefix: Prefix32, net: Net)
    requires Lawful(readers) && NameText(name) && CountDots(name) == 3
    requires readers.address(name).None? && readers.host(name) == Addressed(V4(bits))
    requires readers.block(readers.spell(V4(bits)) + "/" + Decimal(prefix)) == Some(net)
    ensures ParseEntry(readers, name + "/" + Decimal(prefix)) == Rule(Cidr(net))
  {
    hide Lawful, HasEmptyLabel, EntryChars, HostChars, Decimal, AllDigits, Trim, Lower, IsWhitespace;
    hide IsForbiddenHostChar, SplitHostPort, CountDots, Find;
    var digits := Decimal(prefix);
    LastNotDot(name);
    HostCharsAreEntryChars(name);
    SlashText(name, digits);
    var text := name + "/" + digits;
    Untouched(text);
    assert text[|name| + 1..] == digits;
  }

  /** Nothing else is folded: not an address as it stands, and not what is not four parts of one. */
  lemma OnlyFourPartsAreFolded(readers: Readers, address: string, prefix: string)
    requires '/' !in address
    ensures || readers.address(address).Some? || CountDots(address) != 3 || HasEmptyLabel(address)
            || !readers.host(address).Addressed? || !readers.host(address).address.V4?
            || (exists c :: c in address && Forbidden(c))
            ==> ReadBlock(readers, address + "/" + prefix) == readers.block(address + "/" + prefix)
  {
    hide CountDots, HasEmptyLabel, IsForbiddenHostChar, Forbidden;
    ForbiddenIn(address);
    FoundFirst(address, '/', prefix);
    var text := address + ['/'] + prefix;
    assert text == address + "/" + prefix && text[..|address|] == address;
  }

  // ------------------------------------------------------------------- globs over addresses

  /** The text could be four decimal octets as far as its characters and dots go. */
  predicate QuadText(text: string) {
    (forall i :: 0 <= i < |text| ==> IsDigit(text[i]) || text[i] == '.') && CountDots(text) == 3
  }

  lemma {:induction false} GlobDots(pattern: string, text: string)
    requires TextGlob.Glob(pattern, text) && forall i :: 0 <= i < |text| ==> IsDigit(text[i]) || text[i] == '.'
    ensures CountDots(pattern) <= CountDots(text)
    ensures forall i :: 0 <= i < |pattern| ==> IsDigit(pattern[i]) || pattern[i] == '.' || pattern[i] == '*'
    decreases |pattern| + |text|
  {
    if pattern != "" {
      if pattern[0] == '*' {
        if TextGlob.Glob(pattern[1..], text) {
          GlobDots(pattern[1..], text);
        } else {
          GlobDots(pattern, text[1..]);
        }
      } else {
        GlobDots(pattern[1..], text[1..]);
      }
      assert forall i :: 1 <= i < |pattern| ==> pattern[i] == pattern[1..][i - 1];
    }
  }

  /**
   A glob behind a dot whose body is no name is refused only where it could not match an address
   either: no four octets match it.
   */
  lemma RefusedGlobIsDead(readers: Readers, body: string, port: Option<Port>, text: string)
    requires Lawful(readers) && !HasEmptyLabel(body) && '*' in body && readers.host(body).Unreadable?
    requires ParseHostText(readers, "." + body, port) == Refused
    ensures QuadText(text) ==> !TextGlob.Spells("*." + body, text)
  {
    hide Lawful, HasEmptyLabel, TextGlob.Spells, CountDots;
    BodyAgain(body);
    if !DeadBody(readers, body) {
      DottedGlob(readers, body, port);
    }
    assert !FitsADottedQuad(body);
    if QuadText(text) && TextGlob.Spells("*." + body, text) {
      TextGlob.GlobIsSpells("*." + body, text);
      GlobDots("*." + body, text);
      StarDotCounts(body);
      assert false;
    }
  }

  lemma StarDotCounts(body: string)
    ensures CountDots("*." + body) == 1 + CountDots(body)
    ensures forall c :: c in body ==> exists i :: 0 <= i < |"*." + body| && ("*." + body)[i] == c
  {
    forall c | c in body ensures exists i :: 0 <= i < |"*." + body| && ("*." + body)[i] == c {
      var i :| 0 <= i < |body| && body[i] == c;
      assert ("*." + body)[i + 2] == c;
    }
    assert ("*." + body)[1..] == "." + body && ("." + body)[1..] == body;
  }

  // ------------------------------------------------------------------------------- printing

  /** The text of each kind of rule, as the grammar writes it. */
  lemma PrintedForms(readers: Readers, name: string, bits4: Word32, bits6: Word128, net: Net, port: Port)
    ensures Print(readers, All) == "*" && Print(readers, Local) == "<local>"
    ensures Print(readers, SubtractImplicit) == "<-loopback>"
    ensures Print(readers, Suffix("." + name, true, None)) == name
    ensures Print(readers, Suffix("." + name, false, None)) == "." + name
    ensures Print(readers, Wildcard(name, None)) == name
    ensures Print(readers, Suffix("." + name, true, Some(port))) == name + ":" + Decimal(port)
    ensures Print(readers, Exact(Literal(V4(bits4), readers.spell(V4(bits4))), None)) == readers.spell(V4(bits4))
    ensures Print(readers, Exact(Literal(V6(bits6), readers.spell(V6(bits6))), None)) ==
              "[" + readers.spell(V6(bits6)) + "]"
    ensures net.Net4? ==>
              Print(readers, Cidr(net)) == readers.spell(V4(net.addr4)) + "/" + Decimal(net.prefix4)
    ensures net.Net6? ==>
              Print(readers, Cidr(net)) == readers.spell(V6(net.addr6)) + "/" + Decimal(net.prefix6)
  {
    hide Decimal;
    PrintDotted(name);
  }
}
