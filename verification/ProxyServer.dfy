/**
 The Windows ProxyServer string: its tokens, the slots they fill, the drops they leave, and what
 a request is answered in the end.
 */
module ProxyServer {
  import opened Options
  import opened Strings
  import opened ProxyModes

  const WINDOWS_DEFAULT_PORT: Port := 80
  const SOCKS_DEFAULT_PORT: Port := 1080

  /** The endpoint parser and the redaction of what it refuses, which have modules of their own. */
  datatype Readers = Readers(endpoint: (string, Port) -> Option<ProxyEndpoint>, redact: string -> string)

  // -------------------------------------------------------------------------------- tokens

  predicate IsSeparator(c: char) {
    c == ';' || c == ' ' || c == '\t' || c == '\r' || c == '\n'
  }

  /** The pieces between separators, in order, empty ones included. */
  function Split(spec: string): (pieces: seq<string>)
    ensures pieces != []
  {
    if spec == "" then [""]
    else
      var rest := Split(spec[1..]);
      if IsSeparator(spec[0]) then [""] + rest else [[spec[0]] + rest[0]] + rest[1..]
  }

  /** The pieces trimmed, those left empty skipped. */
  function Tokens(pieces: seq<string>): seq<string> {
    if pieces == [] then []
    else (if Trim(pieces[0]) == "" then [] else [Trim(pieces[0])]) + Tokens(pieces[1..])
  }

  predicate EndsKey(c: char) {
    c == ':' || c == '/' || c == '?' || c == '#'
  }

  /** Where the first character that ends a key stands, or the length. */
  function KeyBoundary(token: string): (at: nat)
    ensures at <= |token|
    ensures forall i :: 0 <= i < at ==> !EndsKey(token[i])
    ensures at < |token| ==> EndsKey(token[at])
  {
    if token == "" || EndsKey(token[0]) then 0
    else
      var rest := KeyBoundary(token[1..]);
      assert forall i :: 1 <= i < rest + 1 ==> token[i] == token[1..][i - 1];
      rest + 1
  }

  function SplitSchemeKey(token: string): Option<(string, string)> {
    var eq := FindFirst(token, '=');
    if eq.Some? && eq.value < KeyBoundary(token) then Some((token[..eq.value], token[eq.value + 1..])) else None
  }

  function SchemeFromName(name: string): Option<Scheme> {
    var key := Lower(Trim(name));
    if key == "http" then Some(Http)
    else if key == "https" then Some(Https)
    else if key == "ftp" then Some(Ftp)
    else if key == "socks" then Some(Socks)
    else if key == "all" then Some(All)
    else None
  }

  /** What one token does: it sets a slot, or it is dropped and leaves a record. */
  datatype Effect = Sets(scheme: Scheme, entry: ProxyEntry) | Rejects(record: RejectedValue)

  function DefaultPort(scheme: Scheme): Port {
    if scheme == Socks then SOCKS_DEFAULT_PORT else WINDOWS_DEFAULT_PORT
  }

  function EffectOf(token: string, readers: Readers): Effect {
    match SplitSchemeKey(token)
    case Some((key, value)) =>
      (match SchemeFromName(key)
       case None => Rejects(RejectedValue(UnknownProxyScheme, readers.redact(token), None))
       case Some(scheme) =>
         if Trim(value) == "" then Sets(scheme, Disabled)
         else
           match readers.endpoint(value, DefaultPort(scheme))
           case Some(endpoint) =>
             var hinted := if scheme == Socks && endpoint.schemeHint.None?
                           then endpoint.(schemeHint := Some(Socks4)) else endpoint;
             Sets(scheme, Use(hinted))
           case None =>
             Rejects(RejectedValue(InvalidProxyEndpoint, readers.redact(token),
                                   Some(if scheme == Socks then All else scheme))))
    case None =>
      match readers.endpoint(token, WINDOWS_DEFAULT_PORT)
      case Some(endpoint) => Sets(All, Use(endpoint))
      case None => Rejects(RejectedValue(InvalidProxyEndpoint, readers.redact(token), Some(All)))
  }

  function Effects(tokens: seq<string>, readers: Readers): seq<Effect> {
    if tokens == [] then [] else [EffectOf(tokens[0], readers)] + Effects(tokens[1..], readers)
  }

  // ------------------------------------------------------------------- filling the slots

  function Filled(slots: EntryMap, effects: seq<Effect>): EntryMap
    decreases effects
  {
    if effects == [] then slots
    else Filled(if effects[0].Sets? then slots[effects[0].scheme := effects[0].entry] else slots, effects[1..])
  }

  function Records(effects: seq<Effect>): seq<RejectedValue> {
    if effects == [] then []
    else (if effects[0].Rejects? then [effects[0].record] else []) + Records(effects[1..])
  }

  function FillGaps(slots: EntryMap, gaps: seq<Scheme>, entry: ProxyEntry): EntryMap
    decreases gaps
  {
    if gaps == [] then slots
    else FillGaps(if gaps[0] in slots then slots else slots[gaps[0] := entry], gaps[1..], entry)
  }

  /** A SOCKS proxy covers every slot left unset, unless the string set the catch-all itself. */
  function SocksCatchAll(slots: EntryMap): EntryMap {
    if All in slots || Socks !in slots || !slots[Socks].Use? then slots
    else FillGaps(slots, [Http, Https, Ftp, All], slots[Socks])
  }

  function ServerSlots(effects: seq<Effect>): EntryMap {
    SocksCatchAll(Filled(map[], effects))
  }

  method ApplySocksCatchAll(slots: EntryMap) returns (covered: EntryMap)
    ensures covered == SocksCatchAll(slots)
  {
    covered := slots;
    if All in slots || Socks !in slots || !slots[Socks].Use? {
      return;
    }
    var gaps := [Http, Https, Ftp, All];
    assert gaps[0..] == gaps;
    for i := 0 to |gaps|
      invariant FillGaps(covered, gaps[i..], slots[Socks]) == FillGaps(slots, gaps, slots[Socks])
    {
      assert gaps[i..][0] == gaps[i] && gaps[i..][1..] == gaps[i + 1..];
      if gaps[i] !in covered {
        covered := covered[gaps[i] := slots[Socks]];
      }
    }
  }

  function EffectsOfPieces(pieces: seq<string>, readers: Readers): seq<Effect> {
    Effects(Tokens(pieces), readers)
  }

  lemma PieceByPiece(pieces: seq<string>, readers: Readers)
    requires pieces != []
    ensures EffectsOfPieces(pieces, readers) ==
            var token, rest := Trim(pieces[0]), EffectsOfPieces(pieces[1..], readers);
            if token == "" then rest else [EffectOf(token, readers)] + rest
  {
    hide Trim, EffectOf;
    var token, rest := Trim(pieces[0]), Tokens(pieces[1..]);
    if token != "" {
      assert ([token] + rest)[1..] == rest;
    } else {
      assert Tokens(pieces) == rest;
    }
  }

  /** Carry out one effect first, and the rest after it. */
  lemma EffectByEffect(slots: EntryMap, effect: Effect, rest: seq<Effect>)
    ensures Filled(slots, [effect] + rest) ==
            Filled(if effect.Sets? then slots[effect.scheme := effect.entry] else slots, rest)
    ensures Records([effect] + rest) == (if effect.Rejects? then [effect.record] else []) + Records(rest)
  {
    assert ([effect] + rest)[1..] == rest;
  }

  /** The string read token by token; what is dropped is recorded in the order met. */
  method ProxyServerWithRejected(spec: string, readers: Readers) returns (slots: EntryMap, rejected: seq<RejectedValue>)
    ensures slots == ServerSlots(EffectsOfPieces(Split(spec), readers))
    ensures rejected == Records(EffectsOfPieces(Split(spec), readers))
  {
    hide Split, Trim, EffectOf, Effects, Tokens, Filled, Records, SocksCatchAll, EffectsOfPieces;
    slots, rejected := map[], [];
    var pieces := Split(spec);
    assert pieces[0..] == pieces;
    for i := 0 to |pieces|
      invariant Filled(slots, EffectsOfPieces(pieces[i..], readers)) == Filled(map[], EffectsOfPieces(pieces, readers))
      invariant rejected + Records(EffectsOfPieces(pieces[i..], readers)) == Records(EffectsOfPieces(pieces, readers))
    {
      assert pieces[i..][0] == pieces[i] && pieces[i..][1..] == pieces[i + 1..];
      PieceByPiece(pieces[i..], readers);
      var token := Trim(pieces[i]);
      if token != "" {
        var effect := EffectOf(token, readers);
        EffectByEffect(slots, effect, EffectsOfPieces(pieces[i + 1..], readers));
        if effect.Sets? {
          slots := slots[effect.scheme := effect.entry];
        } else {
          rejected := rejected + [effect.record];
        }
      }
    }
    NoPieces(slots, readers);
    assert pieces[|pieces|..] == [];
    slots := ApplySocksCatchAll(slots);
  }

  lemma NoPieces(slots: EntryMap, readers: Readers)
    ensures Filled(slots, EffectsOfPieces([], readers)) == slots
    ensures Records(EffectsOfPieces([], readers)) == []
  {
  }

  // --------------------------------------------------------- the slots, in closed form

  /** The entry of the last token that set the scheme. */
  function LastSet(effects: seq<Effect>, scheme: Scheme): (last: Option<ProxyEntry>)
    ensures last.None? <==> forall i :: 0 <= i < |effects| ==> !(effects[i].Sets? && effects[i].scheme == scheme)
    ensures last.Some? ==>
              exists i :: 0 <= i < |effects| && effects[i] == Sets(scheme, last.value)
                && forall j :: i < j < |effects| ==> !(effects[j].Sets? && effects[j].scheme == scheme)
  {
    if effects == [] then None
    else
      var end, before := effects[|effects| - 1], effects[..|effects| - 1];
      if end.Sets? && end.scheme == scheme then Some(end.entry)
      else
        assert forall i :: 0 <= i < |before| ==> before[i] == effects[i];
        LastSet(before, scheme)
  }

  lemma {:induction false} FilledConcat(slots: EntryMap, effects: seq<Effect>, last: Effect)
    ensures Filled(slots, effects + [last]) ==
            var filled := Filled(slots, effects);
            if last.Sets? then filled[last.scheme := last.entry] else filled
    decreases effects
  {
    if effects == [] {
      assert effects + [last] == [last];
      assert [last][1..] == [];
    } else {
      assert (effects + [last])[1..] == effects[1..] + [last];
      FilledConcat(
        if effects[0].Sets? then slots[effects[0].scheme := effects[0].entry] else slots,
        effects[1..], last);
    }
  }

  /** The last token for a key that could be read is the one that stands. */
  lemma {:induction false} LastTokenWins(effects: seq<Effect>, scheme: Scheme)
    ensures Slot(Filled(map[], effects), scheme) == LastSet(effects, scheme)
  {
    if effects != [] {
      var before := effects[..|effects| - 1];
      assert effects == before + [effects[|effects| - 1]];
      FilledConcat(map[], before, effects[|effects| - 1]);
      LastTokenWins(before, scheme);
    }
  }

  lemma {:induction false} FillGapsSlot(slots: EntryMap, gaps: seq<Scheme>, entry: ProxyEntry, scheme: Scheme)
    ensures Slot(FillGaps(slots, gaps, entry), scheme) ==
            if scheme in slots then Slot(slots, scheme)
            else if scheme in gaps then Some(entry)
            else None
    decreases gaps
  {
    if gaps != [] {
      FillGapsSlot(if gaps[0] in slots then slots else slots[gaps[0] := entry], gaps[1..], entry, scheme);
    }
  }

  /** The slot in the end: the last token for it, or the SOCKS proxy where nothing and no catch-all was set. */
  function FinalSlot(effects: seq<Effect>, scheme: Scheme): Option<ProxyEntry> {
    var own, socks := LastSet(effects, scheme), LastSet(effects, Socks);
    if own.Some? then own
    else if LastSet(effects, All).None? && socks.Some? && socks.value.Use? then socks
    else None
  }

  lemma SlotsInTheEnd(effects: seq<Effect>, scheme: Scheme)
    ensures Slot(ServerSlots(effects), scheme) == FinalSlot(effects, scheme)
  {
    hide Filled, LastSet;
    var filled := Filled(map[], effects);
    LastTokenWins(effects, scheme);
    LastTokenWins(effects, All);
    LastTokenWins(effects, Socks);
    if All !in filled && Socks in filled && filled[Socks].Use? {
      FillGapsSlot(filled, [Http, Https, Ftp, All], filled[Socks], scheme);
    }
  }

  lemma {:induction false} FilledHasNoDrops(slots: EntryMap, tokens: seq<string>, readers: Readers)
    requires NoDrops(slots)
    ensures NoDrops(Filled(slots, Effects(tokens, readers)))
    decreases tokens
  {
    if tokens != [] {
      var effect := EffectOf(tokens[0], readers);
      var rest := Effects(tokens[1..], readers);
      assert ([effect] + rest)[1..] == rest;
      FilledHasNoDrops(if effect.Sets? then slots[effect.scheme := effect.entry] else slots, tokens[1..], readers);
    }
  }

  lemma ServerHasNoDrops(tokens: seq<string>, readers: Readers)
    ensures NoDrops(ServerSlots(Effects(tokens, readers)))
  {
    var effects := Effects(tokens, readers);
    FilledHasNoDrops(map[], tokens, readers);
    var filled := Filled(map[], effects);
    forall scheme | scheme in ServerSlots(effects) ensures !ServerSlots(effects)[scheme].Unusable? {
      if All !in filled && Socks in filled && filled[Socks].Use? {
        FillGapsSlot(filled, [Http, Https, Ftp, All], filled[Socks], scheme);
      }
      assert Slot(ServerSlots(effects), scheme).Some?;
      assert scheme in filled ==> Slot(filled, scheme) == Some(filled[scheme]);
    }
  }
}
