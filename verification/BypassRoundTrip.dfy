/**
 Writing a rule down and reading it back: the same rule, for every rule an entry can be read
 as, whatever the address and name readers are, as long as they agree with their printers.
 */
module BypassRoundTrip {
  import opened Options
  import opened Strings
  import opened Decimals
  import opened TextGlob
  import opened BypassAddress
  import opened BypassPatterns
  import opened BypassParse

  // ------------------------------------------------------------------------ what is assumed

  /** A character of a lower-case ASCII host text that passed every guard. */
  predicate HostChar(c: char) {
    && c < '\U{0080}' && !('A' <= c <= 'Z') && !IsForbiddenHostChar(c) && !IsWhitespace(c)
    && c != '@' && c != '/'
  }

  predicate HostChars(text: string) {
    forall i :: 0 <= i < |text| ==> HostChar(text[i])
  }

  predicate AddressChar(c: char) {
    IsDigit(c) || 'a' <= c <= 'f' || 'A' <= c <= 'F' || c == ':' || c == '.'
  }

  /** What an address text looks like: digits, colons and dots, no empty piece between dots. */
  predicate AddressText(text: string) {
    && (forall i :: 0 <= i < |text| ==> AddressChar(text[i]))
    && !HasEmptyLabel(text)
  }

  predicate ManyColons(text: string) {
    ':' in text && !OneColon(text)
  }

  /** The printer of an address: lower case, with colons for IPv6 and without for IPv4. */
  ghost predicate Spells(readers: Readers, address: Address) {
    var text := readers.spell(address);
    && readers.address(text) == Some(address)
    && readers.host(text) == Addressed(address)
    && AddressText(text) && HostChars(text)
    && (if address.V4? then ':' !in text else ManyColons(text))
  }

  /** Characters of a lowered entry, once whitespace, `@` and `/` are ruled out. */
  predicate Guarded(text: string) {
    forall i :: 0 <= i < |text| ==>
      !IsWhitespace(text[i]) && text[i] != '@' && text[i] != '/' && !('A' <= text[i] <= 'Z')
  }

  /** A text that passed the guards up to the forbidden characters. */
  predicate Passed(text: string) {
    Guarded(text) && !(exists c :: c in text && IsForbiddenHostChar(c))
  }

  /**
   The readers of a text: an address text holds no `*`, only an address text holds a colon, and
   the ASCII spelling of a name is made of host characters and has the colons the name had.
   */
  ghost predicate Reads(readers: Readers, text: string) {
    && (readers.address(text).Some? ==> AddressText(text) && readers.host(text).Addressed?)
    && (readers.block(text).Some? ==> '/' in text)
    && (Passed(text) && !readers.host(text).Unreadable? && ':' in text ==> readers.address(text).Some?)
    && (Passed(text) && readers.ascii(text).Some? ==>
          && HostChars(readers.ascii(text).value)
          && (':' in text <==> ':' in readers.ascii(text).value)
          && (OneColon(text) <==> OneColon(readers.ascii(text).value)))
  }

  ghost predicate Lawful(readers: Readers) {
    && (forall address :: Spells(readers, address))
    && (forall net :: readers.block(PrintNet(readers, net)) == Some(net))
    && (forall text :: Reads(readers, text))
  }

  // ---------------------------------------------------------------------- the printed base

  predicate NamePattern(pattern: HostPattern) {
    pattern.Suffix? || pattern.Wildcard?
  }

  /** What is printed in front of the port. */
  function Base(pattern: HostPattern): string
    requires NamePattern(pattern)
  {
    match pattern
    case Suffix(suffix, matchSelf, _) => PrintSuffix(suffix, matchSelf)
    case Wildcard(glob, _) => glob
  }

  lemma DotShed(text: string)
    requires text != "" && text[|text| - 1] != '.'
    ensures StripDot(text) == text
  {
  }

  /** A body behind `*.` or `.` once more: what the guards said of it, they say again. */
  lemma BodyAgain(body: string)
    requires !HasEmptyLabel(body)
    ensures SubdomainBody("*." + body) == Some(body) && SubdomainBody("." + body) == Some(body)
    ensures Labels("*." + body) == body && Labels("." + body) == body
    ensures StripDot("." + body) == "." + body && ("*." + body)[2..] == body
    ensures HasEmptyLabel("." + body)
  {
    assert ("*." + body)[2..] == body && ("." + body)[1..] == body;
    assert StartsWith("*." + body, "*.") && StartsWith("." + body, ".");
  }

  predicate Passes(readers: Readers, body: string) {
    !HasEmptyLabel(body) && !DeadBody(readers, body)
  }

  lemma StarDotPlain(readers: Readers, body: string, port: Option<Port>)
    requires Lawful(readers) && Passes(readers, body) && '*' !in body
    ensures ParseHostText(readers, "." + body, port) == Rule(Suffix("." + body, false, port))
  {
    hide HasEmptyLabel, DeadBody;
    BodyAgain(body);
    assert Reads(readers, "." + body);
  }

  lemma StarDotGlob(readers: Readers, body: string, port: Option<Port>)
    requires Passes(readers, body) && '*' in body
    ensures ParseHostText(readers, "*." + body, port) == Rule(Wildcard("*." + body, port))
  {
    hide HasEmptyLabel, DeadBody;
    BodyAgain(body);
    LastNotDot(body);
    DotShed(body);
  }

  lemma LastNotDot(text: string)
    requires !HasEmptyLabel(text)
    ensures text != "" && text[0] != '.' && text[|text| - 1] != '.'
  {
  }

  /** A name with no grammar of its own around it: no leading dot, no `*.`, no trailing dot. */
  lemma NameAgain(name: string)
    requires !HasEmptyLabel(name) && !StartsWith(name, "*.")
    ensures SubdomainBody(name).None? && Labels(name) == name && StripDot(name) == name
  {
  }

  lemma DottedLabels(text: string)
    requires StartsWith(text, ".")
    ensures !StartsWith(text, "*.") && SubdomainBody(text) == Some(text[1..]) && Labels(text) == StripDot(text[1..])
    ensures if Labels(text) == "" then StripDot(text) == "" || StripDot(text) == "."
            else StripDot(text) == "." + Labels(text)
  {
    assert text[0] == "."[0];
    DottedBody(text);
  }

  lemma NotAnAddress(readers: Readers, text: string)
    requires Lawful(readers) && HasEmptyLabel(text)
    ensures readers.address(text).None?
  {
    assert Reads(readers, text);
  }

  /** The rule a host text behind a dot stands for. */
  lemma DottedRule(readers: Readers, text: string, port: Option<Port>)
    requires Lawful(readers) && StartsWith(text, ".") && ParseHostText(readers, text, port).Rule?
    ensures var body := Labels(text);
            && Passes(readers, body)
            && ParseHostText(readers, text, port).pattern ==
                 if '*' in body then Wildcard("*." + body, port) else Suffix("." + body, false, port)
  {
    hide HasEmptyLabel, DeadBody, Lawful, Labels, SubdomainBody, StripDot, StartsWith;
    DottedLabels(text);
    var body, name := Labels(text), StripDot(text);
    DotIsEmptyLabel(name);
    NotAnAddress(readers, name);
    assert body != "" ==> "*" + ("." + body) == "*." + body;
  }

  /** A host text behind a dot: its rule is printed with that dot, or with `*.` for a glob. */
  lemma DottedAgain(readers: Readers, text: string, port: Option<Port>)
    requires Lawful(readers) && StartsWith(text, ".") && ParseHostText(readers, text, port).Rule?
    ensures var rule := ParseHostText(readers, text, port);
            NamePattern(rule.pattern) && ParseHostText(readers, Base(rule.pattern), port) == rule
  {
    hide Lawful, Passes, ParseHostText, Labels, StartsWith;
    DottedRule(readers, text, port);
    var body := Labels(text);
    if '*' in body {
      StarDotGlob(readers, body, port);
    } else {
      StarDotPlain(readers, body, port);
      PrintDotted(body);
    }
  }

  lemma PrintDotted(body: string)
    ensures PrintSuffix("." + body, false) == "." + body && PrintSuffix("." + body, true) == body
  {
  }

  lemma DottedBody(text: string)
    requires StartsWith(text, ".")
    ensures var body := StripDot(text[1..]);
            if body == "" then StripDot(text) == "" || StripDot(text) == "." else StripDot(text) == "." + body
  {
    assert text == "." + text[1..];
    if text != "." {
      assert text[|text| - 1] == text[1..][|text| - 2];
    }
  }

  lemma DotIsEmptyLabel(text: string)
    ensures text == "" || text[0] == '.' ==> HasEmptyLabel(text)
  {
  }

  /** A host text that opens with `*.`. */
  lemma StarredAgain(readers: Readers, text: string, port: Option<Port>)
    requires Lawful(readers) && StartsWith(text, "*.")
    requires ParseHostText(readers, text, port).Rule?
    ensures var rule := ParseHostText(readers, text, port);
            NamePattern(rule.pattern) && ParseHostText(readers, Base(rule.pattern), port) == rule
  {
    hide HasEmptyLabel, DeadBody, Lawful;
    var body := Labels(text);
    if '*' in body {
      StarDotGlob(readers, body, port);
    } else {
      StarDotPlain(readers, body, port);
      assert PrintSuffix("." + body, false) == "." + body;
    }
  }

  /** Without grammar around it, what a host text stands for depends on its name alone. */
  lemma NameDecides(readers: Readers, text: string, port: Option<Port>)
    requires !StartsWith(text, "*.") && !StartsWith(StripDot(text), "*.") && StripDot(StripDot(text)) == StripDot(text)
    ensures Build(readers, StripDot(text), port) == Build(readers, text, port)
  {
    hide StripDot;
  }

  lemma NoStarredPrefix(text: string)
    ensures StartsWith(StripDot(text), "*.") ==> StartsWith(text, "*.")
  {
  }

  /** Any other host text. */
  lemma PlainAgain(readers: Readers, text: string, port: Option<Port>)
    requires !StartsWith(text, "*.") && !StartsWith(text, ".")
    requires ParseHostText(readers, text, port).Rule? && NamePattern(ParseHostText(readers, text, port).pattern)
    ensures var rule := ParseHostText(readers, text, port);
            ParseHostText(readers, Base(rule.pattern), port) == rule
  {
    hide HasEmptyLabel, DeadBody, Build, StripDot, StartsWith, NamePattern, Base;
    var name := Labels(text);
    PlainRule(readers, text, port);
    NoStarredPrefix(text);
    NameAgain(name);
    NameDecides(readers, text, port);
  }

  /** The printed text of a name or a glob stands for the rule it was printed from. */
  lemma BaseAgain(readers: Readers, text: string, port: Option<Port>)
    requires Lawful(readers)
    requires ParseHostText(readers, text, port).Rule? && NamePattern(ParseHostText(readers, text, port).pattern)
    ensures var rule := ParseHostText(readers, text, port);
            ParseHostText(readers, Base(rule.pattern), port) == rule
  {
    hide ParseHostText, Lawful;
    if StartsWith(text, "*.") {
      StarredAgain(readers, text, port);
    } else if StartsWith(text, ".") {
      DottedAgain(readers, text, port);
    } else {
      PlainAgain(readers, text, port);
    }
  }

  // --------------------------------------------------------------------------- whole texts

  /** A character that no guard in front of the host part looks for. */
  predicate EntryChar(c: char) {
    c < '\U{0080}' && !('A' <= c <= 'Z') && !IsWhitespace(c) && c != '@' && c != '<'
  }

  predicate EntryChars(text: string) {
    forall i :: 0 <= i < |text| ==> EntryChar(text[i])
  }

  lemma {:induction false} NothingToTrim(text: string)
    requires forall i :: 0 <= i < |text| ==> !IsWhitespace(text[i])
    ensures Trim(text) == text
  {
  }

  lemma NothingToLower(text: string)
    requires forall i :: 0 <= i < |text| ==> !('A' <= text[i] <= 'Z')
    ensures Lower(text) == text
  {
    hide Lower;
  }

  /** Text that trimming and folding leave alone. */
  lemma Untouched(text: string)
    requires EntryChars(text)
    ensures Trim(text) == text && Lower(text) == text && '@' !in text && !(exists c :: c in text && IsWhitespace(c))
    ensures text != LOCAL_TOKEN && text != NO_LOOPBACK_TOKEN
  {
    hide IsWhitespace;
    NothingToTrim(text);
    NothingToLower(text);
    assert LOCAL_TOKEN[0] == '<' && NO_LOOPBACK_TOKEN[0] == '<';
  }

  lemma SchemeHasSlashes(text: string)
    ensures var found := Find(text, "://");
            found.Some? ==> found.value + 3 <= |text| && text[found.value + 1] == '/' && text[found.value + 2] == '/'
  {
    hide Find;
    var found := Find(text, "://");
    if found.Some? {
      PieceAt(text, found.value, "://", 1);
      PieceAt(text, found.value, "://", 2);
    }
  }

  lemma PieceAt(text: string, at: nat, piece: string, i: nat)
    requires at + |piece| <= |text| && text[at..at + |piece|] == piece && i < |piece|
    ensures text[at + i] == piece[i]
  {
    assert text[at..at + |piece|][i] == text[at + i];
  }

  lemma NoScheme(text: string)
    requires forall k :: 0 <= k < |text| - 1 ==> !(text[k] == '/' && text[k + 1] == '/')
    ensures Find(text, "://").None?
  {
    hide Find;
    SchemeHasSlashes(text);
  }

  /** What a text without a slash goes on to. */
  function ParseAuthority(readers: Readers, text: string): Parsed {
    match SplitHostPort(text)
    case Unsplit => Refused
    case HostPort(host, port) => ParseHost(readers, host, port)
  }

  lemma NoBlock(readers: Readers, text: string)
    requires Lawful(readers) && '/' !in text
    ensures ReadBlock(readers, text).None?
  {
    assert Reads(readers, text);
  }

  lemma PastTheGuards(readers: Readers, text: string)
    requires Lawful(readers) && EntryChars(text) && '/' !in text && text != "" && text != "*"
    ensures ParseEntry(readers, text) == ParseAuthority(readers, text)
  {
    hide EntryChars, ReadBlock, Lawful, SplitHostPort, ParseHost, Trim, Lower, IsWhitespace;
    Untouched(text);
    NoScheme(text);
    NoBlock(readers, text);
  }

  // ------------------------------------------------------------------------ host and port

  lemma NoColon(text: string)
    requires ':' !in text
    ensures FindFirst(text, ':').None? && FindLast(text, ':').None? && !OneColon(text)
  {
  }

  lemma OneColonSplits(text: string)
    requires FindLast(text, ':').Some?
    ensures ':' !in text[..FindLast(text, ':').value] <==> OneColon(text)
  {
    var first, last := FindFirst(text, ':').value, FindLast(text, ':').value;
    assert first < last ==> text[..last][first] == ':';
  }

  lemma PortReadsBack(port: Port)
    ensures PortFromDigits(Decimal(port)) == Some(port) && Decimal(port) != "" && ':' !in Decimal(port)
  {
    DecimalRoundTrip(port);
  }

  /** A host text and its port are told apart again. */
  lemma SplitsAgain(base: string, port: Option<Port>)
    requires base != "" && base[0] != '['
    requires if port.Some? then ':' !in base else !OneColon(base)
    ensures SplitHostPort(WithPort(base, port)) == HostPort(base, port)
  {
    hide PortFromDigits, Decimal, OneColon;
    if port.Some? {
      PortReadsBack(port.value);
      var digits := Decimal(port.value);
      FoundLast(base, ':', digits);
      var whole := base + [':'] + digits;
      assert base + ":" + digits == whole;
      assert whole[..|base|] == base && whole[|base| + 1..] == digits;
    } else if FindLast(base, ':').Some? {
      OneColonSplits(base);
    }
  }

  lemma BracketsSplitAgain(inner: string, port: Option<Port>)
    requires ']' !in inner
    ensures SplitHostPort(WithPort("[" + inner + "]", port)) == HostPort("[" + inner + "]", port)
    ensures StripBrackets("[" + inner + "]") == inner
  {
    hide PortFromDigits, Decimal;
    var host := "[" + inner + "]";
    var rest := if port.Some? then ":" + Decimal(port.value) else "";
    var whole := ("[" + inner) + [']'] + rest;
    assert whole == WithPort(host, port);
    FoundFirst("[" + inner, ']', rest);
    assert whole[..|inner| + 2] == host && whole[|inner| + 2..] == rest;
    if port.Some? {
      PortReadsBack(port.value);
      assert rest[1..] == Decimal(port.value);
    }
  }

  lemma HostCharsAreEntryChars(text: string)
    requires HostChars(text)
    ensures EntryChars(text) && '/' !in text && '[' !in text && ']' !in text && IsAscii(text)
    ensures !(exists c :: c in text && IsForbiddenHostChar(c))
  {
  }

  lemma PortText(base: string, port: Option<Port>)
    requires EntryChars(base) && '/' !in base
    ensures EntryChars(WithPort(base, port)) && '/' !in WithPort(base, port)
  {
  }

  /** A printed base and port are read as that host text with that port. */
  lemma PrintedIsParsed(readers: Readers, base: string, port: Option<Port>)
    requires Lawful(readers) && HostChars(base) && base != ""
    requires if port.Some? then ':' !in base else !OneColon(base) && base != "*"
    ensures ParseEntry(readers, WithPort(base, port)) == ParseHostText(readers, base, port)
  {
    hide Lawful, ParseEntry, ParseHostText, EntryChars, HostChars, IsForbiddenHostChar, OneColon, SplitHostPort;
    HostCharsAreEntryChars(base);
    PortText(base, port);
    assert port.Some? ==> |WithPort(base, port)| > 1;
    PastTheGuards(readers, WithPort(base, port));
    FirstIsNot(base, '[');
    SplitsAgain(base, port);
  }

  lemma FirstIsNot(text: string, c: char)
    requires text != "" && c !in text
    ensures text[0] != c
  {
  }

  // ------------------------------------------------------------------- where a rule is from

  /** A host text and port as the splitting leaves them: no single colon left in the text. */
  predicate Standing(readers: Readers, text: string, port: Option<Port>) {
    && HostChars(text)
    && (readers.address(text).Some? || (if port.Some? then ':' !in text else !OneColon(text)))
  }

  lemma LoweredIsGuarded(trimmed: string)
    requires '@' !in trimmed && !(exists c :: c in trimmed && IsWhitespace(c)) && '/' !in Lower(trimmed)
    ensures Guarded(Lower(trimmed))
  {
    hide Lower, IsWhitespace;
    var lowered := Lower(trimmed);
    forall i | 0 <= i < |lowered|
      ensures !IsWhitespace(lowered[i]) && lowered[i] != '@' && lowered[i] != '/' && !('A' <= lowered[i] <= 'Z')
    {
      LowerKeeps(trimmed[i]);
      assert trimmed[i] in trimmed && lowered[i] in lowered;
    }
  }

  lemma LowerKeeps(c: char)
    ensures IsWhitespace(LowerChar(c)) == IsWhitespace(c)
    ensures (LowerChar(c) == '@') == (c == '@') && !('A' <= LowerChar(c) <= 'Z')
  {
  }

  lemma HostPartIsGuarded(lowered: string)
    requires Guarded(lowered) && SplitHostPort(lowered).HostPort?
    ensures var split := SplitHostPort(lowered);
            && Guarded(split.host) && Guarded(StripBrackets(split.host))
            && (|StripBrackets(split.host)| == |split.host| ==>
                  if split.port.Some? then ':' !in split.host else !OneColon(split.host))
  {
    hide IsWhitespace, OneColon, PortFromDigits;
    var split := SplitHostPort(lowered);
    if lowered != "" && lowered[0] == '[' {
    } else if FindLast(lowered, ':').Some? {
      OneColonSplits(lowered);
      NoColonSplit(lowered);
    } else {
      NoColon(lowered);
    }
  }

  lemma NoColonSplit(lowered: string)
    requires FindLast(lowered, ':').Some?
    ensures ':' !in lowered[..FindLast(lowered, ':').value] ==> !OneColon(lowered[..FindLast(lowered, ':').value])
  {
  }

  lemma GuardedHostChars(text: string)
    requires Guarded(text) && IsAscii(text) && !(exists c :: c in text && IsForbiddenHostChar(c))
    ensures HostChars(text)
  {
    hide IsWhitespace, IsForbiddenHostChar;
    assert forall i :: 0 <= i < |text| ==> text[i] in text;
  }

  lemma AddressIsAscii(text: string)
    requires AddressText(text)
    ensures IsAscii(text)
  {
  }

  /** What the host step hands on stands, whether or not it came out of brackets. */
  lemma HostStands(readers: Readers, host: string, port: Option<Port>) returns (text: string)
    requires Lawful(readers) && ParseHost(readers, host, port).Rule? && Guarded(StripBrackets(host))
    requires |StripBrackets(host)| == |host| ==>
               StripBrackets(host) == host && if port.Some? then ':' !in host else !OneColon(host)
    ensures Standing(readers, text, port) && ParseHost(readers, host, port) == ParseHostText(readers, text, port)
  {
    hide ParseHostText, HostChars, OneColon, IsAscii, AddressText, StripBrackets, Guarded, IsForbiddenHostChar;
    var inner := StripBrackets(host);
    assert Reads(readers, inner);
    if readers.address(inner).Some? { AddressIsAscii(inner); }
    if ':' !in inner { NoColon(inner); }
    if IsAscii(inner) {
      GuardedHostChars(inner);
      text := inner;
    } else {
      text := readers.ascii(inner).value;
      if ':' !in text { NoColon(text); }
    }
  }

  lemma SameLengthSame(host: string)
    ensures |StripBrackets(host)| == |host| ==> StripBrackets(host) == host
  {
  }

  /** Every host rule comes from a host text that stands. */
  lemma Origin(readers: Readers, entry: string) returns (text: string, port: Option<Port>)
    requires Lawful(readers)
    ensures var parsed := ParseEntry(readers, entry);
            parsed.Rule? && (NamePattern(parsed.pattern) || parsed.pattern.Exact?) ==>
              Standing(readers, text, port) && parsed == ParseHostText(readers, text, port)
  {
    hide Lawful, ParseHost, ParseHostText, Guarded, SplitHostPort, ReadBlock, Standing, StripBrackets;
    hide Trim, Lower, IsWhitespace, OneColon;
    text, port := "", None;
    var parsed := ParseEntry(readers, entry);
    if parsed.Rule? && (NamePattern(parsed.pattern) || parsed.pattern.Exact?) {
      var trimmed := Trim(entry);
      var lowered := Lower(trimmed);
      LoweredIsGuarded(trimmed);
      HostPartIsGuarded(lowered);
      var split := SplitHostPort(lowered);
      port := split.port;
      SameLengthSame(split.host);
      text := HostStands(readers, split.host, port);
    }
  }

  // ---------------------------------------------------------------- the base can be printed

  predicate Printable(base: string, port: Option<Port>) {
    && HostChars(base) && base != ""
    && if port.Some? then ':' !in base else !OneColon(base)
  }

  lemma OneColonShed(text: string)
    ensures OneColon(StripDot(text)) == OneColon(text) && (':' in StripDot(text) <==> ':' in text)
  {
    var shed := StripDot(text);
    if shed != text {
      assert text == shed + ".";
      var first, last := FindFirst(shed, ':'), FindLast(shed, ':');
      if first.Some? {
        FirstIsUnique(text, ':', first.value);
        LastIsUnique(text, ':', last.value);
      } else {
        NoColon(shed);
        NoColon(text);
      }
    }
  }

  lemma FirstIsUnique(text: string, c: char, at: nat)
    requires at < |text| && text[at] == c && c !in text[..at]
    ensures FindFirst(text, c) == Some(at)
  {
    FoundFirst(text[..at], c, text[at + 1..]);
    assert text[..at] + [c] + text[at + 1..] == text;
  }

  lemma LastIsUnique(text: string, c: char, at: nat)
    requires at < |text| && text[at] == c && c !in text[at + 1..]
    ensures FindLast(text, c) == Some(at)
  {
    FoundLast(text[..at], c, text[at + 1..]);
    assert text[..at] + [c] + text[at + 1..] == text;
  }

  lemma HostCharsPassed(text: string)
    requires HostChars(text)
    ensures Passed(text)
  {
  }

  lemma LiveBodyHasNoColon(readers: Readers, body: string)
    requires Lawful(readers) && Passes(readers, body) && HostChars(body)
    ensures ':' !in body
  {
    hide Lawful, HasEmptyLabel, HostChars, Passed;
    HostCharsPassed(body);
    ReadsOf(readers, body);
  }

  lemma ReadsOf(readers: Readers, text: string)
    requires Lawful(readers)
    ensures Reads(readers, text)
  {
  }

  lemma DotAndStarAreHostChars()
    ensures HostChar('.') && HostChar('*')
  {
  }

  lemma DottedPrintable(body: string, port: Option<Port>)
    requires HostChars(body) && ':' !in body
    ensures Printable("." + body, port) && Printable("*." + body, port)
  {
    hide OneColon, IsForbiddenHostChar, IsWhitespace;
    DotAndStarAreHostChars();
    NoColon("." + body);
    NoColon("*." + body);
  }

  /** The base of a name or a glob is a host text that splits off its port again. */
  lemma BaseIsPrintable(readers: Readers, text: string, port: Option<Port>)
    requires Lawful(readers) && Standing(readers, text, port)
    requires ParseHostText(readers, text, port).Rule? && NamePattern(ParseHostText(readers, text, port).pattern)
    ensures Printable(Base(ParseHostText(readers, text, port).pattern), port)
  {
    hide Lawful, HostChars, OneColon, Standing, ParseHostText, Passes, Printable;
    if StartsWith(text, "*.") {
      StarredRule(readers, text, port);
    } else if StartsWith(text, ".") {
      DottedRule(readers, text, port);
    } else {
      PlainRule(readers, text, port);
    }
    LabelsKeep(text);
    var body := Labels(text);
    StandingChars(readers, text, port);
    if StartsWith(text, "*.") || StartsWith(text, ".") {
      LiveBodyHasNoColon(readers, body);
      DottedPrintable(body, port);
      PrintDotted(body);
    } else {
      PlainPrintable(readers, text, port);
    }
  }

  lemma StandingChars(readers: Readers, text: string, port: Option<Port>)
    requires Standing(readers, text, port)
    ensures HostChars(text)
  {
  }

  lemma LabelsKeep(text: string)
    ensures HostChars(text) ==> HostChars(Labels(text))
  {
  }

  lemma StarredRule(readers: Readers, text: string, port: Option<Port>)
    requires StartsWith(text, "*.") && ParseHostText(readers, text, port).Rule?
    ensures var body := Labels(text);
            && Passes(readers, body)
            && ParseHostText(readers, text, port).pattern ==
                 if '*' in body then Wildcard("*." + body, port) else Suffix("." + body, false, port)
  {
    hide HasEmptyLabel, DeadBody;
  }

  lemma PlainRule(readers: Readers, text: string, port: Option<Port>)
    requires !StartsWith(text, "*.") && !StartsWith(text, ".")
    requires ParseHostText(readers, text, port).Rule? && NamePattern(ParseHostText(readers, text, port).pattern)
    ensures var name := Labels(text);
            && name == StripDot(text) && !HasEmptyLabel(name) && readers.address(name).None?
            && Base(ParseHostText(readers, text, port).pattern) == name
  {
    hide HasEmptyLabel;
    var name := Labels(text);
    LastNotDot(name);
    PrintDotted(name);
  }

  lemma PlainPrintable(readers: Readers, text: string, port: Option<Port>)
    requires Lawful(readers) && Standing(readers, text, port)
    requires !HasEmptyLabel(StripDot(text)) && readers.address(StripDot(text)).None?
    ensures Printable(StripDot(text), port)
  {
    hide Lawful, HostChars, OneColon;
    ReadsOf(readers, text);
    OneColonShed(text);
    LastNotDot(StripDot(text));
    if readers.address(text).Some? {
      LastNotDot(text);
    }
    assert HostChars(StripDot(text)) by { ShedKeeps(text); }
  }

  lemma ShedKeeps(text: string)
    ensures HostChars(text) ==> HostChars(StripDot(text))
  {
  }

  // ------------------------------------------------------------------ addresses and blocks

  lemma AddressHasNoStar(text: string)
    requires AddressText(text)
    ensures !StartsWith(text, "*.") && ']' !in text
  {
  }

  lemma SpelledIsRead(readers: Readers, address: Address, port: Option<Port>)
    requires Spells(readers, address)
    ensures ParseHostText(readers, readers.spell(address), port) ==
              Rule(Exact(Literal(address, readers.spell(address)), port))
  {
    hide HasEmptyLabel, HostChars;
    var text := readers.spell(address);
    AddressHasNoStar(text);
    NameAgain(text);
    LastNotDot(text);
  }

  lemma BracketedIsParsed(readers: Readers, inner: string, port: Option<Port>)
    requires Lawful(readers) && HostChars(inner) && readers.host(inner).Addressed?
    ensures ParseEntry(readers, WithPort("[" + inner + "]", port)) == ParseHostText(readers, inner, port)
  {
    hide Lawful, ParseEntry, ParseHostText, EntryChars, HostChars, IsForbiddenHostChar, SplitHostPort;
    HostCharsAreEntryChars(inner);
    BracketsAreEntryChars(inner);
    var host := "[" + inner + "]";
    PortText(host, port);
    assert WithPort(host, port) != "" && WithPort(host, port)[0] == '[';
    PastTheGuards(readers, WithPort(host, port));
    BracketsSplitAgain(inner, port);
  }

  lemma BracketsAreEntryChars(inner: string)
    requires EntryChars(inner) && '/' !in inner
    ensures EntryChars("[" + inner + "]") && '/' !in "[" + inner + "]"
  {
  }

  /** An address rule is printed and read back as itself. */
  lemma AddressRoundTrip(readers: Readers, address: Address, port: Option<Port>)
    requires Lawful(readers)
    ensures var rule := Exact(Literal(address, readers.spell(address)), port);
            ParseEntry(readers, Print(readers, rule)) == Rule(rule)
  {
    hide ParseEntry, ParseHostText, HostChars, OneColon, HasEmptyLabel;
    var text := readers.spell(address);
    assert Spells(readers, address);
    SpelledIsRead(readers, address, port);
    if address.V4? {
      NoColon(text);
      assert text != "*" by { AddressChars(text); }
      LastNotDot(text);
      PrintedIsParsed(readers, text, port);
    } else {
      BracketedIsParsed(readers, text, port);
    }
  }

  lemma AddressChars(text: string)
    requires AddressText(text)
    ensures text != "*" && '/' !in text
  {
  }

  function NetAddress(net: Net): Address {
    match net
    case Net4(addr, _) => V4(addr)
    case Net6(addr, _) => V6(addr)
  }

  /** A block's text: one slash, behind the address. */
  lemma NetText(readers: Readers, net: Net)
    requires Spells(readers, NetAddress(net))
    ensures var address, text := readers.spell(NetAddress(net)), PrintNet(readers, net);
            && EntryChars(text) && text != "" && text != "*" && FindFirst(text, '/') == Some(|address|)
            && text[..|address|] == address && Find(text, "://").None?
  {
    hide OneColon, EntryChars, HostChars, Decimal, HasEmptyLabel, AllDigits;
    var address := readers.spell(NetAddress(net));
    var digits := Decimal(if net.Net4? then net.prefix4 else net.prefix6);
    AddressChars(address);
    LastNotDot(address);
    HostCharsAreEntryChars(address);
    SlashText(address, digits);
    assert PrintNet(readers, net) == address + "/" + digits;
  }

  lemma SlashText(address: string, digits: string)
    requires EntryChars(address) && '/' !in address && address != "" && AllDigits(digits)
    ensures var text := address + "/" + digits;
            && EntryChars(text) && text != "" && text != "*" && FindFirst(text, '/') == Some(|address|)
            && text[..|address|] == address && Find(text, "://").None?
  {
    hide IsWhitespace;
    DigitsAreEntryChars();
    FoundFirst(address, '/', digits);
    assert address + "/" + digits == address + ['/'] + digits;
    NoScheme(address + "/" + digits);
  }

  lemma DigitsAreEntryChars()
    ensures forall c :: IsDigit(c) || c == '/' ==> EntryChar(c)
  {
  }

  lemma NetRoundTrip(readers: Readers, net: Net)
    requires Lawful(readers)
    ensures ParseEntry(readers, Print(readers, Cidr(net))) == Rule(Cidr(net))
  {
    hide EntryChars, HasEmptyLabel, PrintNet, Trim, Lower, HostChars, AddressText, OneColon;
    hide IsWhitespace, SplitHostPort;
    assert Spells(readers, NetAddress(net));
    NetText(readers, net);
    Untouched(PrintNet(readers, net));
  }

  // -------------------------------------------------------------------------- the round trip

  lemma TokensRoundTrip(readers: Readers)
    ensures ParseEntry(readers, Print(readers, All)) == Rule(All)
    ensures ParseEntry(readers, Print(readers, Local)) == Rule(Local)
    ensures ParseEntry(readers, Print(readers, SubtractImplicit)) == Rule(SubtractImplicit)
  {
    hide Trim, Lower, IsWhitespace, ReadBlock, SplitHostPort;
    TokensUntouched();
  }

  lemma TokensUntouched()
    ensures Trim("*") == "*" == Lower("*")
    ensures Trim(LOCAL_TOKEN) == LOCAL_TOKEN == Lower(LOCAL_TOKEN)
    ensures Trim(NO_LOOPBACK_TOKEN) == NO_LOOPBACK_TOKEN == Lower(NO_LOOPBACK_TOKEN)
  {
    hide Trim, Lower;
    NothingToTrim("*");
    NothingToTrim(LOCAL_TOKEN);
    NothingToTrim(NO_LOOPBACK_TOKEN);
    NothingToLower("*");
    NothingToLower(LOCAL_TOKEN);
    NothingToLower(NO_LOOPBACK_TOKEN);
  }

  const EVERY_NAME: HostPattern := Wildcard("*", None)

  lemma ExactIsSpelled(readers: Readers, text: string, port: Option<Port>)
    requires ParseHostText(readers, text, port).Rule? && ParseHostText(readers, text, port).pattern.Exact?
    ensures var host := ParseHostText(readers, text, port).pattern.host;
            && host.Literal? && host.text == readers.spell(host.address)
            && ParseHostText(readers, text, port).pattern.port == port
  {
  }

  lemma NamePort(readers: Readers, text: string, port: Option<Port>)
    requires ParseHostText(readers, text, port).Rule? && NamePattern(ParseHostText(readers, text, port).pattern)
    ensures var pattern := ParseHostText(readers, text, port).pattern;
            Print(readers, pattern) == WithPort(Base(pattern), port)
            && (Base(pattern) == "*" && port.None? ==> pattern == EVERY_NAME)
  {
    hide HasEmptyLabel, DeadBody, Labels, StripDot, Decimal;
  }

  /**
   Whatever entry a rule was read from, its text is read back as the same rule, except that
   the glob for every name, when no port restricts it, is read back as the rule for everything.
   */
  lemma RoundTrip(readers: Readers, entry: string)
    requires Lawful(readers)
    ensures var parsed := ParseEntry(readers, entry);
            parsed.Rule? ==>
              ParseEntry(readers, Print(readers, parsed.pattern)) ==
                Rule(if parsed.pattern == EVERY_NAME then All else parsed.pattern)
  {
    hide Lawful, ParseEntry, ParseHostText, Standing, Print, Base;
    var parsed := ParseEntry(readers, entry);
    if parsed.Rule? {
      match parsed.pattern {
        case Cidr(net) => NetRoundTrip(readers, net);
        case Exact(_, _) =>
          var text, port := Origin(readers, entry);
          ExactIsSpelled(readers, text, port);
          AddressRoundTrip(readers, parsed.pattern.host.address, port);
        case Suffix(_, _, _) => NameRoundTrip(readers, entry);
        case Wildcard(_, _) => NameRoundTrip(readers, entry);
        case _ => TokensRoundTrip(readers);
      }
    }
  }

  lemma NameRoundTrip(readers: Readers, entry: string)
    requires Lawful(readers)
    ensures var parsed := ParseEntry(readers, entry);
            parsed.Rule? && NamePattern(parsed.pattern) ==>
              ParseEntry(readers, Print(readers, parsed.pattern)) ==
                Rule(if parsed.pattern == EVERY_NAME then All else parsed.pattern)
  {
    hide Lawful, ParseEntry, ParseHostText, Standing, Print, Base;
    var parsed := ParseEntry(readers, entry);
    if parsed.Rule? && NamePattern(parsed.pattern) {
      var text, port := Origin(readers, entry);
      NamePort(readers, text, port);
      if parsed.pattern == EVERY_NAME {
        TokensRoundTrip(readers);
        EveryNameText(readers);
      } else {
        BaseAgain(readers, text, port);
        BaseIsPrintable(readers, text, port);
        PrintedIsParsed(readers, Base(parsed.pattern), port);
      }
    }
  }

  lemma EveryNameText(readers: Readers)
    ensures Print(readers, EVERY_NAME) == "*" == Print(readers, All)
  {
  }

  lemma {:induction false} StarMatchesAll(text: string)
    ensures Glob("*", text)
  {
    if text != "" { StarMatchesAll(text[1..]); }
  }

  /** That glob is not reached by writing it, but by a port left empty. */
  lemma EmptyPortExample(readers: Readers)
    requires Lawful(readers)
    ensures ParseEntry(readers, "*:") == Rule(EVERY_NAME)
    ensures ParseEntry(readers, Print(readers, EVERY_NAME)) == Rule(All)
  {
    hide Lawful, ParseEntry, ReadBlock;
    PastTheGuards(readers, "*:");
    FoundLast("*", ':', "");
    assert "*:" == "*" + [':'] + "";
    assert SplitHostPort("*:") == HostPort("*", None);
    ReadsOf(readers, "*");
    NameAgain("*");
    assert "*"[0] == '*';
    TokensRoundTrip(readers);
    EveryNameText(readers);
  }

  /** A rule read back matches exactly the destinations and ports it matched. */
  lemma RoundTripMatchesTheSame(
      readers: Readers, entry: string, text: string, ip: Option<Address>, port: Option<Port>, reduce: bool)
    requires Lawful(readers)
    ensures var parsed := ParseEntry(readers, entry);
            parsed.Rule? ==>
              var again := ParseEntry(readers, Print(readers, parsed.pattern));
              && again.Rule?
              && (EntryMatches(again.pattern, text, ip, port, reduce) <==>
                  EntryMatches(parsed.pattern, text, ip, port, reduce))
  {
    hide ParseEntry, Print, Lawful;
    RoundTrip(readers, entry);
    StarMatchesAll(text);
    NothingToLower("*");
  }
}
