/** Resolving a request against a mode, and what a dropped ProxyServer token can never become. */
module ProxyResolve {
  import opened Options
  import opened Strings
  import opened ProxyModes
  import opened ProxyServer

  /** A request URL: its host, the port it wrote, and that port or its scheme's default. */
  datatype Request = Request(scheme: string, host: Option<Host>, port: Option<Port>, portOrDefault: Option<Port>)

  datatype ProxyStep =
    | DirectStep
    | HttpStep(endpoint: ProxyEndpoint)
    | HttpsStep(endpoint: ProxyEndpoint)
    | Socks4Step(endpoint: ProxyEndpoint)
    | Socks5Step(endpoint: ProxyEndpoint)

  datatype Resolution =
    | Steps(steps: seq<ProxyStep>)
    | PacNotSupported(mode: string)
    | ProxyEntryUnusable(scheme: Scheme, rejected: RejectedValue)

  function FromEndpoint(endpoint: ProxyEndpoint): ProxyStep {
    match endpoint.schemeHint
    case None => HttpStep(endpoint)
    case Some(HttpProxy) => HttpStep(endpoint)
    case Some(HttpsProxy) => HttpsStep(endpoint)
    case Some(Socks4) => Socks4Step(endpoint)
    case Some(Socks4a) => Socks4Step(endpoint)
    case Some(Socks5) => Socks5Step(endpoint)
    case Some(Socks5h) => Socks5Step(endpoint)
  }

  function RequestScheme(request: Request): Scheme {
    if request.scheme == "http" then Http
    else if request.scheme == "https" then Https
    else if request.scheme == "ftp" then Ftp
    else if request.scheme in ["socks", "socks4", "socks4a", "socks5", "socks5h"] then Socks
    else All
  }

  predicate IsWebsocket(request: Request) {
    request.scheme == "ws" || request.scheme == "wss"
  }

  predicate MatchesUrl(rules: Rules, request: Request) {
    && request.host.Some?
    && BypassVerdict.Verdict(rules, request.host.value,
                             if rules.requireExplicitPort then request.port else request.portOrDefault)
  }

  function Answered(entry: Option<ProxyEntry>): Resolution {
    match entry
    case Some(Use(endpoint)) => Steps([FromEndpoint(endpoint)])
    case Some(Disabled) => Steps([DirectStep])
    case Some(Unusable(record)) =>
      ProxyEntryUnusable(if record.affected.Some? then record.affected.value else All, record)
    case None => Steps([DirectStep])
  }

  function ResolveMode(mode: ProxyMode, request: Request): Resolution {
    match mode
    case Direct => Steps([DirectStep])
    case Pac(_, _) => PacNotSupported("pac")
    case PacInline(_, _) => PacNotSupported("pac-inline")
    case WpadAutoDetect => PacNotSupported("wpad")
    case Manual(_, bypass, _) =>
      if request.host.None? || MatchesUrl(bypass, request) then Steps([DirectStep])
      else Answered(if IsWebsocket(request) then WebsocketEntry(mode) else EntryFor(mode, RequestScheme(request)))
  }

  function WindowsManual(effects: seq<Effect>, bypass: Rules): ProxyMode {
    if ServerSlots(effects) == map[] && Records(effects) == [] then Direct
    else WithRejected(ManualMode(ServerSlots(effects), bypass), Records(effects))
  }

  // ------------------------------------------------------------------- what is answered

  /** A token was dropped whose loss took the scheme's answer away. */
  predicate Lost(effects: seq<Effect>, scheme: Scheme) {
    exists i :: 0 <= i < |effects| && effects[i].Rejects? && effects[i].record.affected in {Some(scheme), Some(All)}
  }

  /** What the tokens that could be read say of the scheme: its own slot, then the catch-all. */
  function Said(effects: seq<Effect>, scheme: Scheme): Option<ProxyEntry> {
    if FinalSlot(effects, scheme).Some? then FinalSlot(effects, scheme) else FinalSlot(effects, All)
  }

  lemma {:induction false} RecordOfEffect(effects: seq<Effect>, record: RejectedValue)
    ensures record in Records(effects) <==> Rejects(record) in effects
  {
    if effects != [] {
      RecordOfEffect(effects[1..], record);
    }
  }

  lemma NamedRecord(effects: seq<Effect>, scheme: Scheme)
    ensures FirstRecord(Records(effects), scheme).Some? <==>
            exists i :: 0 <= i < |effects| && effects[i].Rejects? && effects[i].record.affected == Some(scheme)
  {
    var records := Records(effects);
    if FirstRecord(records, scheme).Some? {
      RecordOfEffect(effects, FirstRecord(records, scheme).value);
    }
    if i :| 0 <= i < |effects| && effects[i].Rejects? && effects[i].record.affected == Some(scheme) {
      RecordOfEffect(effects, effects[i].record);
      assert effects[i] == Rejects(effects[i].record);
    }
  }

  lemma LostIsRecorded(effects: seq<Effect>, scheme: Scheme)
    ensures Lost(effects, scheme) <==>
            FirstRecord(Records(effects), scheme).Some? || FirstRecord(Records(effects), All).Some?
  {
    NamedRecord(effects, scheme);
    NamedRecord(effects, All);
  }

  /** A record filed under the request's scheme or the catch-all, of those the string left empty. */
  function LostRecord(effects: seq<Effect>, scheme: Scheme): Option<RejectedValue> {
    EarliestLost(ServerSlots(effects), Records(effects), [scheme, All])
  }

  /** What a mode read from tokens answers a scheme's requests: what was said, else what was lost. */
  lemma ManualAnswer(tokens: seq<string>, readers: Readers, bypass: Rules, scheme: Scheme)
    ensures var effects := Effects(tokens, readers);
            EntryFor(WindowsManual(effects, bypass), scheme) ==
            if Said(effects, scheme).Some? then Said(effects, scheme)
            else LostEntry(LostRecord(effects, scheme))
  {
    hide ServerSlots, Records, FinalSlot, Filed, Drops;
    var effects := Effects(tokens, readers);
    var slots, records := ServerSlots(effects), Records(effects);
    ServerHasNoDrops(tokens, readers);
    RecordsKeepAnswers(slots, records, scheme);
    SlotsInTheEnd(effects, scheme);
    SlotsInTheEnd(effects, All);
    SlotThenAll(slots, scheme);
    if slots == map[] && records == [] {
      LostOfTwo(slots, records, scheme, All);
    }
  }

  lemma SlotThenAll(slots: EntryMap, scheme: Scheme)
    requires NoDrops(slots)
    ensures EntryIn(slots, scheme) == if Slot(slots, scheme).Some? then Slot(slots, scheme) else Slot(slots, All)
  {
    assert [scheme][1..] == [];
    ChainStep(slots, [scheme], false);
    assert Chain(slots, [], false) + Listed(Slot(slots, All)) == Listed(Slot(slots, All));
  }

  lemma LostOfTwo(slots: EntryMap, records: seq<RejectedValue>, one: Scheme, two: Scheme)
    ensures EarliestLost(slots, records, [one, two]) ==
            if one !in slots && FirstRecord(records, one).Some? then FirstRecord(records, one)
            else if two !in slots && FirstRecord(records, two).Some? then FirstRecord(records, two)
            else None
  {
    assert [one, two][1..] == [two];
    assert EarliestLost(slots, records, [two][1..]) == None;
  }

  /**
   When a request with a host and no bypass goes direct: the tokens said no proxy, or they said
   nothing of its scheme and lost nothing that would have covered it.
   */
  lemma DirectExactlyWhen(tokens: seq<string>, readers: Readers, bypass: Rules, request: Request)
    requires request.host.Some? && !MatchesUrl(bypass, request) && request.scheme !in ["ws", "wss"]
    ensures var effects := Effects(tokens, readers);
            var scheme := RequestScheme(request);
            ResolveMode(WindowsManual(effects, bypass), request) == Steps([DirectStep]) <==>
            || Said(effects, scheme) == Some(Disabled)
            || (Said(effects, scheme).None? && !Lost(effects, scheme))
  {
    hide Effects, RequestScheme, ResolveMode, EntryFor, WindowsManual, LostRecord, Said, Lost;
    var effects, scheme := Effects(tokens, readers), RequestScheme(request);
    ManualAnswer(tokens, readers, bypass, scheme);
    DirectByEntry(effects, bypass, request);
    if Said(effects, scheme).None? {
      LostIsReported(effects, scheme);
    }
  }

  /** Only no entry and a disabling one make a request direct. */
  lemma DirectByEntry(effects: seq<Effect>, bypass: Rules, request: Request)
    requires request.host.Some? && !MatchesUrl(bypass, request) && request.scheme !in ["ws", "wss"]
    ensures var mode := WindowsManual(effects, bypass);
            ResolveMode(mode, request) == Steps([DirectStep]) <==>
            EntryFor(mode, RequestScheme(request)) in {None, Some(Disabled)}
  {
    hide ServerSlots, Records, Filed, Drops, RequestScheme, EntryIn, MatchesUrl;
    DirectAnswer(EntryFor(WindowsManual(effects, bypass), RequestScheme(request)));
  }

  lemma DirectAnswer(entry: Option<ProxyEntry>)
    ensures Answered(entry) == Steps([DirectStep]) <==> entry in {None, Some(Disabled)}
  {
  }

  /** Where nothing was said of the scheme, a record is left for it exactly when a token was lost. */
  lemma LostIsReported(effects: seq<Effect>, scheme: Scheme)
    requires Said(effects, scheme).None?
    ensures LostRecord(effects, scheme).Some? <==> Lost(effects, scheme)
  {
    hide ServerSlots, Records, FinalSlot, Lost, FirstRecord, EarliestLost;
    LostIsRecorded(effects, scheme);
    LostOfTwo(ServerSlots(effects), Records(effects), scheme, All);
    SlotsInTheEnd(effects, scheme);
    SlotsInTheEnd(effects, All);
  }

  /**
   A dropped token never silently becomes a direct connection: where one that would have covered
   the request was dropped, the request goes direct only if an empty token said so.
   */
  lemma DroppedTokenIsNeverDirect(tokens: seq<string>, readers: Readers, bypass: Rules, request: Request)
    requires request.host.Some? && !MatchesUrl(bypass, request) && request.scheme !in ["ws", "wss"]
    requires Lost(Effects(tokens, readers), RequestScheme(request))
    requires ResolveMode(WindowsManual(Effects(tokens, readers), bypass), request) == Steps([DirectStep])
    ensures exists i :: 0 <= i < |tokens|
              && EffectOf(tokens[i], readers) in {Sets(RequestScheme(request), Disabled), Sets(All, Disabled)}
              && SplitSchemeKey(tokens[i]).Some? && Trim(SplitSchemeKey(tokens[i]).value.1) == ""
  {
    hide ServerSlots, Records, ResolveMode, WindowsManual, RequestScheme;
    hide LastSet, EffectOf, Effects, Lost, SplitSchemeKey;
    var effects, scheme := Effects(tokens, readers), RequestScheme(request);
    DirectExactlyWhen(tokens, readers, bypass, request);
    var owner := if LastSet(effects, scheme) == Some(Disabled) then scheme else All;
    LostIsNotSaid(effects, scheme);
    var i :| 0 <= i < |effects| && effects[i] == Sets(owner, Disabled);
    EffectAt(tokens, readers, i);
    DisabledToken(tokens[i], readers, owner);
  }

  lemma LostIsNotSaid(effects: seq<Effect>, scheme: Scheme)
    ensures Said(effects, scheme) == Some(Disabled) ==>
              LastSet(effects, scheme) == Some(Disabled) || LastSet(effects, All) == Some(Disabled)
  {
  }

  /** Only an empty token sets a slot to no proxy. */
  lemma DisabledToken(token: string, readers: Readers, scheme: Scheme)
    requires EffectOf(token, readers) == Sets(scheme, Disabled)
    ensures SplitSchemeKey(token).Some? && Trim(SplitSchemeKey(token).value.1) == ""
  {
    hide Trim, SplitSchemeKey, SchemeFromName;
  }

  /** A WebSocket request takes the first proxy of socks, https and http, then the catch-all. */
  function SaidForWebsocket(effects: seq<Effect>): Option<ProxyEntry> {
    var socks, https, http := FinalSlot(effects, Socks), FinalSlot(effects, Https), FinalSlot(effects, Http);
    if socks.Some? && socks.value.Use? then socks
    else if https.Some? && https.value.Use? then https
    else if http.Some? && http.value.Use? then http
    else FinalSlot(effects, All)
  }

  lemma WebsocketOrder(slots: EntryMap)
    requires NoDrops(slots)
    ensures WebsocketIn(slots) ==
            var socks, https, http := Slot(slots, Socks), Slot(slots, Https), Slot(slots, Http);
            if socks.Some? && socks.value.Use? then socks
            else if https.Some? && https.value.Use? then https
            else if http.Some? && http.value.Use? then http
            else Slot(slots, All)
  {
    var order := [Socks, Https, Http];
    assert order[1..] == [Https, Http] && [Https, Http][1..] == [Http] && [Http][1..] == [];
    ChainStep(slots, order, true);
    ChainStep(slots, [Https, Http], true);
    ChainStep(slots, [Http], true);
    assert Chain(slots, [], true) + Listed(Slot(slots, All)) == Listed(Slot(slots, All));
  }

  const WEBSOCKET_ORDER: seq<Scheme> := [Socks, Https, Http, All]

  /** The entry of a WebSocket request: what was said, else the first record lost on its order. */
  lemma WebsocketAnswer(tokens: seq<string>, readers: Readers, bypass: Rules)
    ensures var effects := Effects(tokens, readers);
            WebsocketEntry(WindowsManual(effects, bypass)) ==
            if SaidForWebsocket(effects).Some? then SaidForWebsocket(effects)
            else LostEntry(EarliestLost(ServerSlots(effects), Records(effects), WEBSOCKET_ORDER))
  {
    hide ServerSlots, Records, FinalSlot, Filed, Drops;
    var effects := Effects(tokens, readers);
    var slots, records := ServerSlots(effects), Records(effects);
    ServerHasNoDrops(tokens, readers);
    RecordsKeepAnswers(slots, records, All);
    WebsocketOrder(slots);
    SlotsInTheEnd(effects, Socks);
    SlotsInTheEnd(effects, Https);
    SlotsInTheEnd(effects, Http);
    SlotsInTheEnd(effects, All);
    if records == [] {
      NothingLost(slots, WEBSOCKET_ORDER);
    }
  }

  /** A token was dropped that named a slot on the WebSocket order which nothing else filled. */
  predicate LostForWebsocket(effects: seq<Effect>) {
    exists scheme, i ::
      && scheme in WEBSOCKET_ORDER && FinalSlot(effects, scheme).None?
      && 0 <= i < |effects| && effects[i].Rejects? && effects[i].record.affected == Some(scheme)
  }

  lemma {:induction false} SomethingLost(slots: EntryMap, records: seq<RejectedValue>, order: seq<Scheme>)
    ensures EarliestLost(slots, records, order).Some? <==>
            exists scheme :: scheme in order && scheme !in slots && FirstRecord(records, scheme).Some?
    decreases order
  {
    if order != [] {
      hide FirstRecord;
      SomethingLost(slots, records, order[1..]);
      assert forall scheme :: scheme in order <==> scheme == order[0] || scheme in order[1..];
    }
  }

  lemma LostForWebsocketIsReported(effects: seq<Effect>)
    ensures LostForWebsocket(effects) <==> EarliestLost(ServerSlots(effects), Records(effects), WEBSOCKET_ORDER).Some?
  {
    hide ServerSlots, Records, FinalSlot, FirstRecord, EarliestLost;
    var slots, records := ServerSlots(effects), Records(effects);
    SomethingLost(slots, records, WEBSOCKET_ORDER);
    forall scheme ensures scheme !in slots <==> FinalSlot(effects, scheme).None? {
      SlotsInTheEnd(effects, scheme);
    }
    forall scheme
      ensures FirstRecord(records, scheme).Some? <==>
              exists i :: 0 <= i < |effects| && effects[i].Rejects? && effects[i].record.affected == Some(scheme)
    {
      NamedRecord(effects, scheme);
    }
  }

  /**
   When a WebSocket request with a host and no bypass goes direct: an answer on its order said no
   proxy, or none was said and nothing was lost on it. A token lost on the order beside an empty
   catch-all does go direct, since the catch-all is an answer.
   */
  lemma WebsocketDirectExactlyWhen(tokens: seq<string>, readers: Readers, bypass: Rules, request: Request)
    requires request.host.Some? && !MatchesUrl(bypass, request) && request.scheme in ["ws", "wss"]
    ensures var effects := Effects(tokens, readers);
            ResolveMode(WindowsManual(effects, bypass), request) == Steps([DirectStep]) <==>
            || SaidForWebsocket(effects) == Some(Disabled)
            || (SaidForWebsocket(effects).None? && !LostForWebsocket(effects))
  {
    hide Effects, WebsocketEntry, WindowsManual, SaidForWebsocket, LostForWebsocket, EarliestLost, ServerSlots, Records;
    var effects := Effects(tokens, readers);
    WebsocketAnswer(tokens, readers, bypass);
    LostForWebsocketIsReported(effects);
    WebsocketByEntry(effects, bypass, request);
  }

  lemma WebsocketByEntry(effects: seq<Effect>, bypass: Rules, request: Request)
    requires request.host.Some? && !MatchesUrl(bypass, request) && request.scheme in ["ws", "wss"]
    ensures var mode := WindowsManual(effects, bypass);
            ResolveMode(mode, request) == Steps([DirectStep]) <==> WebsocketEntry(mode) in {None, Some(Disabled)}
  {
    hide ServerSlots, Records, Filed, Drops, WebsocketIn, MatchesUrl;
    DirectAnswer(WebsocketEntry(WindowsManual(effects, bypass)));
  }

  lemma {:induction false} NothingLost(slots: EntryMap, order: seq<Scheme>)
    ensures EarliestLost(slots, [], order) == None
    decreases order
  {
    if order != [] {
      NothingLost(slots, order[1..]);
    }
  }

  lemma {:induction false} EffectAt(tokens: seq<string>, readers: Readers, i: nat)
    requires i < |Effects(tokens, readers)|
    ensures i < |tokens| && Effects(tokens, readers)[i] == EffectOf(tokens[i], readers)
    decreases i
  {
    if i > 0 {
      EffectAt(tokens[1..], readers, i - 1);
    }
  }
}
