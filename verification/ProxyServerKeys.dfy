/**
 Which proxy each request is sent to, read off the text of the ProxyServer string and of the URL:
 what its tokens are, whose they are, and what the endpoint found becomes.
 */
module ProxyServerKeys {
  import opened Options
  import opened Strings
  import opened ProxyModes
  import opened ProxyServer
  import opened ProxyResolve
  import BypassMeaning
  import BypassPatterns
  import BypassVerdict

  // -------------------------------------------------------------------------------- tokens

  predicate Separates(c: char) {
    c == ';' || c == ' ' || c == '\t' || c == '\r' || c == '\n'
  }

  lemma {:induction false} PlainPiece(piece: string)
    requires forall i :: 0 <= i < |piece| ==> !Separates(piece[i])
    ensures Split(piece) == [piece]
  {
    if piece != "" {
      PlainPiece(piece[1..]);
      assert [piece[0]] + piece[1..] == piece;
      assert [piece[1..]][1..] == [];
    }
  }

  /** The string is cut at each separator and nowhere else. */
  lemma {:induction false} CutAtSeparators(before: string, separator: char, after: string)
    requires Separates(separator)
    ensures Split(before + [separator] + after) == Split(before) + Split(after)
    decreases before
  {
    var spec := before + [separator] + after;
    if before == "" {
      assert spec[1..] == after && [""] + Split(after) == Split("") + Split(after);
    } else {
      assert spec[1..] == before[1..] + [separator] + after;
      CutAtSeparators(before[1..], separator, after);
      SplitCons(before[0], before[1..]);
      SplitCons(before[0], before[1..] + [separator] + after);
      assert [before[0]] + before[1..] == before && [before[0]] + spec[1..] == spec;
      HeadGrows(before[0], Split(before[1..]), Split(after));
    }
  }

  /** One more character in front: a piece of its own in front, or the first piece longer by it. */
  function Grown(c: char, pieces: seq<string>): seq<string>
    requires pieces != []
  {
    if Separates(c) then [""] + pieces else [[c] + pieces[0]] + pieces[1..]
  }

  lemma SplitCons(c: char, rest: string)
    ensures Split([c] + rest) == Grown(c, Split(rest))
  {
    assert ([c] + rest)[1..] == rest;
  }

  lemma HeadGrows(c: char, pieces: seq<string>, more: seq<string>)
    requires pieces != []
    ensures Grown(c, pieces + more) == Grown(c, pieces) + more
  {
  }

  lemma {:induction false} TokensConcat(a: seq<string>, b: seq<string>)
    ensures Tokens(a + b) == Tokens(a) + Tokens(b)
  {
    hide Trim;
    if a == [] {
      assert a + b == b;
    } else {
      assert (a + b)[1..] == a[1..] + b;
      TokensConcat(a[1..], b);
    }
  }

  /**
   What stands between two separators is one token, the whitespace around it off, or none when
   nothing else is there; every separator parts the tokens in front of it from those behind.
   */
  lemma TokensOfAString(before: string, separator: char, piece: string)
    requires Separates(separator) && forall i :: 0 <= i < |piece| ==> !Separates(piece[i])
    ensures Tokens(Split(piece)) == if Trim(piece) == "" then [] else [Trim(piece)]
    ensures Tokens(Split(before + [separator] + piece)) == Tokens(Split(before)) + Tokens(Split(piece))
  {
    hide Trim, Split;
    PlainPiece(piece);
    assert [piece][1..] == [];
    CutAtSeparators(before, separator, piece);
    TokensConcat(Split(before), Split(piece));
  }

  // ---------------------------------------------------------------------------------- keys

  /** Text that a key may be: nothing that ends one. */
  predicate KeyText(key: string) {
    forall i :: 0 <= i < |key| ==> key[i] !in ['=', ':', '/', '?', '#']
  }

  lemma {:induction false} BoundaryPast(key: string, rest: string)
    requires KeyText(key)
    ensures KeyBoundary(key + rest) == |key| + KeyBoundary(rest)
  {
    if key == "" {
      assert key + rest == rest;
    } else {
      assert (key + rest)[1..] == key[1..] + rest;
      BoundaryPast(key[1..], rest);
    }
  }

  /** Only an equals sign in front of the first colon, slash, question mark or hash sets off a key. */
  lemma KeyIsSplit(key: string, value: string)
    requires KeyText(key)
    ensures SplitSchemeKey(key + "=" + value) == Some((key, value))
  {
    var token := key + ['='] + value;
    assert token == key + "=" + value == key + ("=" + value);
    FoundFirst(key, '=', value);
    BoundaryPast(key, "=" + value);
    assert KeyBoundary("=" + value) >= 1;
    assert token[..|key|] == key && token[|key| + 1..] == value;
  }

  /** No equals sign, or none in front of the first character that ends a key. */
  predicate Keyless(token: string) {
    forall i :: 0 <= i < |token| && token[i] == '=' ==>
      exists j :: 0 <= j < i && token[j] in [':', '/', '?', '#']
  }

  lemma NoKeyBehind(token: string)
    ensures SplitSchemeKey(token).None? <==> Keyless(token)
  {
    var eq, boundary := FindFirst(token, '='), KeyBoundary(token);
    if eq.Some? && boundary <= eq.value {
      assert boundary < |token| && token[boundary] in [':', '/', '?', '#'] && token[boundary] != '=';
      assert forall i :: 0 <= i < eq.value ==> token[i] == token[..eq.value][i];
    }
  }

  /** The text a slot is named by. */
  function KeyOf(scheme: Scheme): string {
    match scheme
    case Http => "http"
    case Https => "https"
    case Ftp => "ftp"
    case Socks => "socks"
    case All => "all"
  }

  /** The endpoint a `socks` token's value becomes: without a scheme of its own it speaks SOCKS4. */
  function ForSlot(scheme: Scheme, endpoint: ProxyEndpoint): ProxyEndpoint {
    if scheme == Socks && endpoint.schemeHint.None? then endpoint.(schemeHint := Some(Socks4)) else endpoint
  }

  lemma KeyNamesSlot(key: string, scheme: Scheme)
    ensures SchemeFromName(key) == Some(scheme) <==> Lower(Trim(key)) == KeyOf(scheme)
  {
    hide Lower, Trim;
  }

  /** A token with a readable value sets the slot its key names, at port 80, or 1080 for `socks`. */
  lemma TokenSets(key: string, value: string, scheme: Scheme, readers: Readers, endpoint: ProxyEndpoint)
    requires KeyText(key) && Lower(Trim(key)) == KeyOf(scheme) && Trim(value) != ""
    requires readers.endpoint(value, if scheme == Socks then 1080 else 80) == Some(endpoint)
    ensures EffectOf(key + "=" + value, readers) == Sets(scheme, Use(ForSlot(scheme, endpoint)))
  {
    hide Trim, Lower, SplitSchemeKey, SchemeFromName;
    KeyIsSplit(key, value);
    KeyNamesSlot(key, scheme);
  }

  /** A token without a key is the catch-all, and lost to every scheme when it cannot be read. */
  lemma BareTokenSets(token: string, readers: Readers)
    requires Keyless(token)
    ensures EffectOf(token, readers) ==
            match readers.endpoint(token, 80)
            case Some(endpoint) => Sets(All, Use(endpoint))
            case None => Rejects(RejectedValue(InvalidProxyEndpoint, readers.redact(token), Some(All)))
  {
    hide SplitSchemeKey, Keyless;
    NoKeyBehind(token);
  }

  /** With nothing behind its key a token says no proxy for the slot. */
  lemma EmptyTokenDisables(key: string, value: string, scheme: Scheme, readers: Readers)
    requires KeyText(key) && Lower(Trim(key)) == KeyOf(scheme) && Trim(value) == ""
    ensures EffectOf(key + "=" + value, readers) == Sets(scheme, Disabled)
  {
    hide Trim, Lower, SplitSchemeKey, SchemeFromName;
    KeyIsSplit(key, value);
    KeyNamesSlot(key, scheme);
  }

  /** An unreadable value is recorded against its slot, and for `socks` against all it would have covered. */
  lemma UnreadableTokenIsRecorded(key: string, value: string, scheme: Scheme, readers: Readers)
    requires KeyText(key) && Lower(Trim(key)) == KeyOf(scheme) && Trim(value) != ""
    requires readers.endpoint(value, if scheme == Socks then 1080 else 80).None?
    ensures EffectOf(key + "=" + value, readers) ==
              Rejects(RejectedValue(InvalidProxyEndpoint, readers.redact(key + "=" + value),
                                    Some(if scheme == Socks then All else scheme)))
  {
    hide Trim, Lower, SplitSchemeKey, SchemeFromName;
    KeyIsSplit(key, value);
    KeyNamesSlot(key, scheme);
  }

  /** A key that names no slot is recorded against none. */
  lemma UnknownKeyIsRecorded(key: string, value: string, readers: Readers)
    requires KeyText(key) && forall scheme :: Lower(Trim(key)) != KeyOf(scheme)
    ensures EffectOf(key + "=" + value, readers) ==
              Rejects(RejectedValue(UnknownProxyScheme, readers.redact(key + "=" + value), None))
  {
    hide Trim, Lower, SplitSchemeKey, SchemeFromName;
    KeyIsSplit(key, value);
    var scheme := SchemeFromName(key);
    if scheme.Some? { KeyNamesSlot(key, scheme.value); }
  }

  /** A token whose key folds to the slot's own name. */
  predicate IsKeyed(token: string, scheme: Scheme) {
    var split := SplitSchemeKey(token);
    split.Some? && Lower(Trim(split.value.0)) == KeyOf(scheme)
  }

  lemma OnlyKeyedSets(token: string, readers: Readers, scheme: Scheme)
    requires scheme != All && !IsKeyed(token, scheme)
    ensures var effect := EffectOf(token, readers); !(effect.Sets? && effect.scheme == scheme)
  {
    hide Trim, Lower, SplitSchemeKey, SchemeFromName;
    var split := SplitSchemeKey(token);
    if split.Some? {
      KeyNamesSlot(split.value.0, scheme);
    }
  }

  // ------------------------------------------------------------------- from text to answer

  lemma {:induction false} EffectsConcat(a: seq<string>, b: seq<string>, readers: Readers)
    ensures Effects(a + b, readers) == Effects(a, readers) + Effects(b, readers)
  {
    hide EffectOf;
    if a == [] {
      assert a + b == b;
    } else {
      assert (a + b)[1..] == a[1..] + b;
      EffectsConcat(a[1..], b, readers);
    }
  }

  lemma {:induction false} NotSetLater(tokens: seq<string>, readers: Readers, scheme: Scheme)
    requires scheme != All && forall token :: token in tokens ==> !IsKeyed(token, scheme)
    ensures forall effect :: effect in Effects(tokens, readers) ==> !(effect.Sets? && effect.scheme == scheme)
  {
    hide EffectOf, IsKeyed;
    if tokens != [] {
      OnlyKeyedSets(tokens[0], readers, scheme);
      NotSetLater(tokens[1..], readers, scheme);
    }
  }

  lemma LastSetIs(before: seq<Effect>, entry: ProxyEntry, scheme: Scheme, after: seq<Effect>)
    requires forall effect :: effect in after ==> !(effect.Sets? && effect.scheme == scheme)
    ensures LastSet(before + [Sets(scheme, entry)] + after, scheme) == Some(entry)
  {
    hide LastSet;
    var whole := before + [Sets(scheme, entry)] + after;
    assert whole[|before|] == Sets(scheme, entry);
    forall j | |before| < j < |whole| ensures !(whole[j].Sets? && whole[j].scheme == scheme) {
      assert whole[j] == after[j - |before| - 1];
    }
  }

  /**
   The last token with a slot's name for its key, its value readable, is what the slot holds,
   whatever other tokens stand around it.
   */
  lemma KeyedTokenIsTheSlot(
      before: seq<string>, key: string, value: string, after: seq<string>,
      scheme: Scheme, readers: Readers, endpoint: ProxyEndpoint)
    requires scheme != All && KeyText(key) && Lower(Trim(key)) == KeyOf(scheme) && Trim(value) != ""
    requires readers.endpoint(value, if scheme == Socks then 1080 else 80) == Some(endpoint)
    requires forall token :: token in after ==> !IsKeyed(token, scheme)
    ensures var effects := Effects(before + [key + "=" + value] + after, readers);
            FinalSlot(effects, scheme) == Some(Use(ForSlot(scheme, endpoint)))
  {
    hide EffectOf, IsKeyed, Lower, Trim, LastSet;
    var token := key + "=" + value;
    TokenSets(key, value, scheme, readers, endpoint);
    EffectsConcat(before + [token], after, readers);
    EffectsConcat(before, [token], readers);
    assert Effects([token], readers) == [EffectOf(token, readers)] by { OneEffect(token, readers); }
    NotSetLater(after, readers, scheme);
    LastSetIs(Effects(before, readers), Use(ForSlot(scheme, endpoint)), scheme, Effects(after, readers));
  }

  lemma OneEffect(token: string, readers: Readers)
    ensures Effects([token], readers) == [EffectOf(token, readers)]
  {
    assert Effects([token][1..], readers) == [];
  }

  /** The scheme whose slot a URL's own scheme is looked up under. */
  lemma RequestsBySchemeText(request: Request)
    ensures request.scheme == "http" ==> RequestScheme(request) == Http
    ensures request.scheme == "https" ==> RequestScheme(request) == Https
    ensures request.scheme == "ftp" ==> RequestScheme(request) == Ftp
    ensures request.scheme in ["socks", "socks4", "socks4a", "socks5", "socks5h"] ==> RequestScheme(request) == Socks
    ensures request.scheme !in ["http", "https", "ftp", "socks", "socks4", "socks4a", "socks5", "socks5h"] ==>
              RequestScheme(request) == All
  {
  }

  /** What an endpoint is reached by: its own scheme if it has one, plain HTTP if not. */
  function StepFor(endpoint: ProxyEndpoint): ProxyStep {
    match endpoint.schemeHint
    case None => HttpStep(endpoint)
    case Some(hint) =>
      match hint
      case HttpProxy => HttpStep(endpoint)
      case HttpsProxy => HttpsStep(endpoint)
      case Socks4 => Socks4Step(endpoint)
      case Socks4a => Socks4Step(endpoint)
      case Socks5 => Socks5Step(endpoint)
      case Socks5h => Socks5Step(endpoint)
  }

  /**
   From end to end: a request for a URL whose scheme is the key of a token goes to the proxy of the
   last such token, when its value can be read and no bypass takes the request.
   */
  lemma RequestGoesToItsToken(
      before: seq<string>, key: string, value: string, after: seq<string>,
      readers: Readers, endpoint: ProxyEndpoint, bypass: Rules, request: Request)
    requires request.scheme in ["http", "https", "ftp"] && request.host.Some? && !MatchesUrl(bypass, request)
    requires KeyText(key) && Lower(Trim(key)) == request.scheme && Trim(value) != ""
    requires readers.endpoint(value, 80) == Some(endpoint)
    requires forall token :: token in after ==> !IsKeyed(token, RequestScheme(request))
    ensures ResolveMode(WindowsManual(Effects(before + [key + "=" + value] + after, readers), bypass), request) ==
              Steps([StepFor(endpoint)])
  {
    hide EffectOf, IsKeyed, Lower, Trim, LastSet, Effects, MatchesUrl, FinalSlot;
    var tokens := before + [key + "=" + value] + after;
    RequestsBySchemeText(request);
    var scheme := RequestScheme(request);
    KeyedTokenIsTheSlot(before, key, value, after, scheme, readers, endpoint);
    ManualAnswer(tokens, readers, bypass, scheme);
    EntryIsStep(Effects(tokens, readers), bypass, request, endpoint);
  }

  lemma EntryIsStep(effects: seq<Effect>, bypass: Rules, request: Request, endpoint: ProxyEndpoint)
    requires request.scheme in ["http", "https", "ftp"] && request.host.Some? && !MatchesUrl(bypass, request)
    requires EntryFor(WindowsManual(effects, bypass), RequestScheme(request)) == Some(Use(endpoint))
    ensures ResolveMode(WindowsManual(effects, bypass), request) == Steps([StepFor(endpoint)])
  {
    hide ServerSlots, Records, Filed, Drops, EntryIn, MatchesUrl, RequestScheme;
  }

  /** A WebSocket request goes to the proxy of the last `socks` token whose value can be read. */
  lemma WebsocketGoesToSocks(
      before: seq<string>, key: string, value: string, after: seq<string>,
      readers: Readers, endpoint: ProxyEndpoint, bypass: Rules, request: Request)
    requires request.scheme in ["ws", "wss"] && request.host.Some? && !MatchesUrl(bypass, request)
    requires KeyText(key) && Lower(Trim(key)) == "socks" && Trim(value) != ""
    requires readers.endpoint(value, 1080) == Some(endpoint)
    requires forall token :: token in after ==> !IsKeyed(token, Socks)
    ensures ResolveMode(WindowsManual(Effects(before + [key + "=" + value] + after, readers), bypass), request) ==
              Steps([StepFor(ForSlot(Socks, endpoint))])
  {
    hide EffectOf, IsKeyed, Lower, Trim, LastSet, Effects, MatchesUrl, FinalSlot, WebsocketEntry, ForSlot;
    var tokens := before + [key + "=" + value] + after;
    var effects := Effects(tokens, readers);
    KeyedTokenIsTheSlot(before, key, value, after, Socks, readers, endpoint);
    WebsocketAnswer(tokens, readers, bypass);
    assert SaidForWebsocket(effects) == FinalSlot(effects, Socks);
    WebsocketEntryIsStep(effects, bypass, request, ForSlot(Socks, endpoint));
  }

  lemma WebsocketEntryIsStep(effects: seq<Effect>, bypass: Rules, request: Request, endpoint: ProxyEndpoint)
    requires request.scheme in ["ws", "wss"] && request.host.Some? && !MatchesUrl(bypass, request)
    requires WebsocketEntry(WindowsManual(effects, bypass)) == Some(Use(endpoint))
    ensures ResolveMode(WindowsManual(effects, bypass), request) == Steps([StepFor(endpoint)])
  {
    hide ServerSlots, Records, Filed, Drops, WebsocketIn, MatchesUrl;
  }

  /** What takes a request off the proxy before any entry is asked. */
  lemma DirectWithoutAsking(effects: seq<Effect>, bypass: Rules, request: Request)
    requires request.host.None? || MatchesUrl(bypass, request)
    ensures ResolveMode(WindowsManual(effects, bypass), request) == Steps([DirectStep])
  {
    hide ServerSlots, Records, Filed, Drops, MatchesUrl;
  }

  /** The automatic modes are refused by name, for every request. */
  lemma AutomaticModesAreRefused(request: Request, url: string, script: string, rejected: seq<RejectedValue>)
    ensures ResolveMode(Pac(url, rejected), request) == PacNotSupported("pac")
    ensures ResolveMode(PacInline(script, rejected), request) == PacNotSupported("pac-inline")
    ensures ResolveMode(WpadAutoDetect, request) == PacNotSupported("wpad")
    ensures ResolveMode(Direct, request) == Steps([DirectStep])
  {
  }

  /** A lost entry is named by the slot it was filed under. */
  lemma LostEntryIsNamed(effects: seq<Effect>, bypass: Rules, request: Request, record: RejectedValue)
    requires request.scheme in ["http", "https", "ftp"] && request.host.Some? && !MatchesUrl(bypass, request)
    requires EntryFor(WindowsManual(effects, bypass), RequestScheme(request)) == Some(Unusable(record))
    ensures ResolveMode(WindowsManual(effects, bypass), request) ==
              ProxyEntryUnusable(if record.affected.Some? then record.affected.value else All, record)
  {
    hide ServerSlots, Records, Filed, Drops, EntryIn, MatchesUrl, RequestScheme;
  }

  /**
   A bypass rule with a port is asked about the port the URL writes when the source wants an explicit
   one, and otherwise about its scheme's default where it writes none.
   */
  lemma PortAskedAbout(rules: Rules, domain: string, rulePort: Port, request: Request)
    requires domain != "" && domain[0] != '.' && Lower(domain) == domain && domain[|domain| - 1] != '.'
    requires rules.patterns == [BypassPatterns.Suffix("." + domain, true, Some(rulePort))]
    requires !rules.reversedExceptions && !rules.excludeSimpleHostnames && rules.implicit.Empty?
    requires request.host == Some(BypassPatterns.Domain(domain))
    ensures MatchesUrl(rules, request) <==>
            (if rules.requireExplicitPort then request.port else request.portOrDefault) == Some(rulePort)
  {
    hide Lower, BypassPatterns.EntryMatches, BypassVerdict.Verdict;
    var host := request.host.value;
    var port := if rules.requireExplicitPort then request.port else request.portOrDefault;
    BypassMeaning.VerdictInFull(rules, host, port);
    BypassMeaning.DomainRule(domain, true, Some(rulePort), domain, None, port, rules.ipv4MappedAsIpv4);
    assert BypassPatterns.StripDot(domain) == domain;
    assert BypassMeaning.NamesAt(rules, host, port, 0) <==> port == Some(rulePort);
  }
}
