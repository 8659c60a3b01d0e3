/** What a source says about proxying, the lookups over it, and the record of dropped values. */
module ProxyModes {
  import opened Options
  import BypassPatterns
  import BypassVerdict
  import Credentials

  type Host = BypassPatterns.Host
  type Port = BypassPatterns.Port
  type Rules = BypassVerdict.Rules

  datatype Scheme = Http | Https | Ftp | Socks | All

  const ALL_SCHEMES: seq<Scheme> := [Http, Https, Ftp, Socks, All]

  datatype ProxyScheme = HttpProxy | HttpsProxy | Socks4 | Socks4a | Socks5 | Socks5h

  datatype ProxyEndpoint = ProxyEndpoint(
    schemeHint: Option<ProxyScheme>,
    host: Host,
    port: Port,
    auth: Option<Credentials.Auth>)

  datatype RejectionKind = InvalidProxyEndpoint | UnknownProxyScheme | UnsupportedMapping

  /** One value that was dropped, and the requests it took an answer away from. */
  datatype RejectedValue = RejectedValue(kind: RejectionKind, redactedInput: string, affected: Option<Scheme>)

  datatype ProxyEntry =
    | Use(endpoint: ProxyEndpoint)
    | Disabled
    | Unusable(rejected: RejectedValue)

  type EntryMap = map<Scheme, ProxyEntry>

  datatype ProxyMode =
    | Direct
    | Manual(perScheme: EntryMap, bypass: Rules, rejected: seq<RejectedValue>)
    | Pac(url: string, rejected: seq<RejectedValue>)
    | PacInline(script: string, rejected: seq<RejectedValue>)
    | WpadAutoDetect

  // ------------------------------------------------------------------------------- lookups

  function Slot(slots: EntryMap, scheme: Scheme): Option<ProxyEntry> {
    if scheme in slots then Some(slots[scheme]) else None
  }

  function Listed(entry: Option<ProxyEntry>): seq<ProxyEntry> {
    if entry.Some? then [entry.value] else []
  }

  /**
   The entries a lookup walks, in order. The WebSocket order passes over a slot that says no
   proxy; the ordinary one stops there.
   */
  function Chain(slots: EntryMap, order: seq<Scheme>, passDisabled: bool): seq<ProxyEntry> {
    if order == [] then []
    else
      var entry := Slot(slots, order[0]);
      (if entry.Some? && !(passDisabled && entry.value.Disabled?) then [entry.value] else [])
      + Chain(slots, order[1..], passDisabled)
  }

  /** The first entry that answers, and failing that the first record of a drop. */
  function FirstAnswer(chain: seq<ProxyEntry>): (found: Option<ProxyEntry>)
    ensures found.None? <==> chain == []
    ensures found.Some? ==> found.value in chain
  {
    if chain == [] then None
    else if !chain[0].Unusable? then Some(chain[0])
    else
      var later := FirstAnswer(chain[1..]);
      if later.Some? && !later.value.Unusable? then later else Some(chain[0])
  }

  /** An answer wherever it stands beats every drop, the earlier of two of a kind the later. */
  lemma {:induction false} FirstAnswerMeaning(chain: seq<ProxyEntry>)
    requires chain != []
    ensures exists i :: 0 <= i < |chain| && FirstAnswer(chain) == Some(chain[i])
              && (forall j :: 0 <= j < i ==> chain[j].Unusable?)
              && (chain[i].Unusable? ==> i == 0 && forall j :: 0 <= j < |chain| ==> chain[j].Unusable?)
    decreases |chain|
  {
    if chain[0].Unusable? && chain[1..] != [] {
      FirstAnswerMeaning(chain[1..]);
      var i :| 0 <= i < |chain[1..]| && FirstAnswer(chain[1..]) == Some(chain[1..][i])
               && (forall j :: 0 <= j < i ==> chain[1..][j].Unusable?)
               && (chain[1..][i].Unusable? ==> i == 0 && forall j :: 0 <= j < |chain[1..]| ==> chain[1..][j].Unusable?);
      assert forall j :: 1 <= j < |chain| ==> chain[j] == chain[1..][j - 1];
      if !chain[i + 1].Unusable? {
        assert FirstAnswer(chain) == Some(chain[i + 1]);
      } else {
        assert FirstAnswer(chain) == Some(chain[0]);
      }
    } else {
      assert FirstAnswer(chain) == Some(chain[0]);
    }
  }

  method FindFirstAnswer(chain: seq<ProxyEntry>) returns (found: Option<ProxyEntry>)
    ensures found == FirstAnswer(chain)
  {
    var dropped: Option<ProxyEntry> := None;
    assert chain[0..] == chain;
    for i := 0 to |chain|
      invariant dropped.Some? ==> dropped.value.Unusable?
      invariant FirstAnswer(chain) ==
                var later := FirstAnswer(chain[i..]);
                if later.Some? && (dropped.None? || !later.value.Unusable?) then later else dropped
    {
      assert chain[i..][0] == chain[i] && chain[i..][1..] == chain[i + 1..];
      if chain[i].Unusable? {
        dropped := if dropped.Some? then dropped else Some(chain[i]);
      } else {
        return Some(chain[i]);
      }
    }
    found := dropped;
  }

  function EntryIn(slots: EntryMap, scheme: Scheme): Option<ProxyEntry> {
    FirstAnswer(Chain(slots, [scheme], false) + Listed(Slot(slots, All)))
  }

  function WebsocketIn(slots: EntryMap): Option<ProxyEntry> {
    FirstAnswer(Chain(slots, [Socks, Https, Http], true) + Listed(Slot(slots, All)))
  }

  function EntryFor(mode: ProxyMode, scheme: Scheme): Option<ProxyEntry> {
    if mode.Manual? then EntryIn(mode.perScheme, scheme) else None
  }

  function WebsocketEntry(mode: ProxyMode): Option<ProxyEntry> {
    if mode.Manual? then WebsocketIn(mode.perScheme) else None
  }

  // ---------------------------------------------------------------- building a manual mode

  function Drops(slots: EntryMap, schemes: seq<Scheme>): seq<RejectedValue> {
    if schemes == [] then []
    else
      var entry := Slot(slots, schemes[0]);
      (if entry.Some? && entry.value.Unusable? then [entry.value.rejected] else []) + Drops(slots, schemes[1..])
  }

  function ManualMode(slots: EntryMap, bypass: Rules): ProxyMode {
    Manual(slots, bypass, Drops(slots, ALL_SCHEMES))
  }

  /** The records filed, each into the slot it names unless something is there already. */
  function Filed(slots: EntryMap, records: seq<RejectedValue>): EntryMap
    decreases records
  {
    if records == [] then slots
    else
      var record := records[0];
      Filed(
        if record.affected.None? || record.affected.value in slots then slots
        else slots[record.affected.value := Unusable(record)],
        records[1..])
  }

  function WithRejected(mode: ProxyMode, records: seq<RejectedValue>): ProxyMode {
    match mode
    case Manual(slots, bypass, _) => Manual(Filed(slots, records), bypass, records)
    case Pac(url, _) => Pac(url, records)
    case PacInline(script, _) => PacInline(script, records)
    case Direct => Direct
    case WpadAutoDetect => WpadAutoDetect
  }

  /** The loop that files them, in the order recorded. */
  method FileRejected(slots: EntryMap, records: seq<RejectedValue>) returns (filed: EntryMap)
    ensures filed == Filed(slots, records)
  {
    filed := slots;
    assert records[0..] == records;
    for i := 0 to |records|
      invariant Filed(filed, records[i..]) == Filed(slots, records)
    {
      assert records[i..][0] == records[i] && records[i..][1..] == records[i + 1..];
      if records[i].affected.Some? && records[i].affected.value !in filed {
        filed := filed[records[i].affected.value := Unusable(records[i])];
      }
    }
  }

  /** The first record that names the scheme. */
  function FirstRecord(records: seq<RejectedValue>, scheme: Scheme): (first: Option<RejectedValue>)
    ensures first.Some? ==> first.value in records && first.value.affected == Some(scheme)
    ensures first.None? <==> forall i :: 0 <= i < |records| ==> records[i].affected != Some(scheme)
  {
    if records == [] then None
    else if records[0].affected == Some(scheme) then Some(records[0])
    else
      var rest := FirstRecord(records[1..], scheme);
      assert forall i :: 1 <= i < |records| ==> records[i] == records[1..][i - 1];
      rest
  }

  /** An occupied slot stands; an empty one gets the first record that names it, if any does. */
  lemma {:induction false} FiledSlot(slots: EntryMap, records: seq<RejectedValue>, scheme: Scheme)
    ensures Slot(Filed(slots, records), scheme) ==
            if scheme in slots then Slot(slots, scheme)
            else
              var first := FirstRecord(records, scheme);
              if first.Some? then Some(Unusable(first.value)) else None
    decreases records
  {
    if records != [] {
      var record := records[0];
      FiledSlot(
        if record.affected.None? || record.affected.value in slots then slots
        else slots[record.affected.value := Unusable(record)],
        records[1..], scheme);
    }
  }

  // -------------------------------------------------------- what the records may change

  predicate NoDrops(slots: EntryMap) {
    forall scheme :: scheme in slots ==> !slots[scheme].Unusable?
  }

  /** The first record filed under the earliest slot, of those in order, that was empty. */
  function EarliestLost(slots: EntryMap, records: seq<RejectedValue>, order: seq<Scheme>): Option<RejectedValue> {
    if order == [] then None
    else if order[0] !in slots && FirstRecord(records, order[0]).Some? then FirstRecord(records, order[0])
    else EarliestLost(slots, records, order[1..])
  }

  function LostEntry(lost: Option<RejectedValue>): Option<ProxyEntry> {
    if lost.Some? then Some(Unusable(lost.value)) else None
  }

  /** An entry before the others answers, or is the answer only when none of them does. */
  lemma AnswerOfCons(first: ProxyEntry, rest: seq<ProxyEntry>)
    ensures FirstAnswer([first] + rest) ==
            if !first.Unusable? then Some(first)
            else if FirstAnswer(rest).Some? && !FirstAnswer(rest).value.Unusable? then FirstAnswer(rest)
            else Some(first)
  {
    assert ([first] + rest)[1..] == rest;
  }

  lemma NothingBeforeAll(slots: EntryMap, records: seq<RejectedValue>, passDisabled: bool)
    requires NoDrops(slots)
    ensures var before := FirstAnswer(Chain(slots, [], passDisabled) + Listed(Slot(slots, All)));
            var filed := Filed(slots, records);
            && (before.Some? ==> !before.value.Unusable?)
            && FirstAnswer(Chain(filed, [], passDisabled) + Listed(Slot(filed, All))) ==
               if before.Some? then before else LostEntry(EarliestLost(slots, records, [] + [All]))
  {
    hide Filed, FirstRecord;
    var filed := Filed(slots, records);
    FiledSlot(slots, records, All);
    assert [] + Listed(Slot(slots, All)) == Listed(Slot(slots, All));
    assert [] + Listed(Slot(filed, All)) == Listed(Slot(filed, All));
    assert [] + [All] == [All] && [All][1..] == [];
  }

  lemma EarliestLostStep(slots: EntryMap, records: seq<RejectedValue>, order: seq<Scheme>)
    requires order != []
    ensures EarliestLost(slots, records, order + [All]) ==
            if order[0] !in slots && FirstRecord(records, order[0]).Some? then FirstRecord(records, order[0])
            else EarliestLost(slots, records, order[1..] + [All])
  {
    assert (order + [All])[1..] == order[1..] + [All];
  }

  lemma {:induction false} LostBeforeAll(
      slots: EntryMap, records: seq<RejectedValue>, order: seq<Scheme>, passDisabled: bool)
    requires NoDrops(slots)
    ensures var before := FirstAnswer(Chain(slots, order, passDisabled) + Listed(Slot(slots, All)));
            var filed := Filed(slots, records);
            && (before.Some? ==> !before.value.Unusable?)
            && FirstAnswer(Chain(filed, order, passDisabled) + Listed(Slot(filed, All))) ==
               if before.Some? then before else LostEntry(EarliestLost(slots, records, order + [All]))
    decreases order
  {
    hide Filed, FirstRecord, Chain, FirstAnswer, EarliestLost;
    var filed := Filed(slots, records);
    if order == [] {
      NothingBeforeAll(slots, records, passDisabled);
    } else {
      LostBeforeAll(slots, records, order[1..], passDisabled);
      FiledSlot(slots, records, order[0]);
      ChainStep(slots, order, passDisabled);
      ChainStep(filed, order, passDisabled);
      EarliestLostStep(slots, records, order);
    }
  }

  lemma ChainStep(slots: EntryMap, order: seq<Scheme>, passDisabled: bool)
    requires order != []
    ensures var rest := Chain(slots, order[1..], passDisabled) + Listed(Slot(slots, All));
            var entry := Slot(slots, order[0]);
            FirstAnswer(Chain(slots, order, passDisabled) + Listed(Slot(slots, All))) ==
            if entry.None? || (passDisabled && entry.value.Disabled?) then FirstAnswer(rest)
            else if !entry.value.Unusable? then entry
            else if FirstAnswer(rest).Some? && !FirstAnswer(rest).value.Unusable? then FirstAnswer(rest)
            else entry
  {
    var rest := Chain(slots, order[1..], passDisabled) + Listed(Slot(slots, All));
    var entry := Slot(slots, order[0]);
    if entry.None? || (passDisabled && entry.value.Disabled?) {
      assert Chain(slots, order, passDisabled) == Chain(slots, order[1..], passDisabled);
    } else {
      AnswerOfCons(entry.value, rest);
      assert Chain(slots, order, passDisabled) + Listed(Slot(slots, All)) == [entry.value] + rest;
    }
  }

  /**
   Records never change an answer that was there. Where there was none they can only turn it
   into the first record of the earliest lost slot in the lookup's own order.
   */
  lemma RecordsKeepAnswers(slots: EntryMap, records: seq<RejectedValue>, scheme: Scheme)
    requires NoDrops(slots)
    ensures EntryIn(Filed(slots, records), scheme) ==
            if EntryIn(slots, scheme).Some? then EntryIn(slots, scheme)
            else LostEntry(EarliestLost(slots, records, [scheme, All]))
    ensures WebsocketIn(Filed(slots, records)) ==
            if WebsocketIn(slots).Some? then WebsocketIn(slots)
            else LostEntry(EarliestLost(slots, records, [Socks, Https, Http, All]))
  {
    LostBeforeAll(slots, records, [scheme], false);
    LostBeforeAll(slots, records, [Socks, Https, Http], true);
    assert [scheme] + [All] == [scheme, All];
    assert [Socks, Https, Http] + [All] == [Socks, Https, Http, All];
  }

  /** Every drop a lookup can reach is in the list, filed under the scheme it names. */
  lemma DropsAreListed(mode: ProxyMode, records: seq<RejectedValue>, scheme: Scheme)
    requires mode.Manual? && NoDrops(mode.perScheme)
    ensures var filed := WithRejected(mode, records);
            scheme in filed.perScheme && filed.perScheme[scheme].Unusable? ==>
              var record := filed.perScheme[scheme].rejected;
              record in filed.rejected && record.affected == Some(scheme)
  {
    FiledSlot(mode.perScheme, records, scheme);
  }

  /** A map that already holds drops gets them back as its list, each from its own slot. */
  lemma {:induction false} ManualRecoversDrops(slots: EntryMap, schemes: seq<Scheme>, record: RejectedValue)
    ensures record in Drops(slots, schemes) <==>
            exists i :: 0 <= i < |schemes| && Slot(slots, schemes[i]) == Some(Unusable(record))
    decreases schemes
  {
    if schemes != [] {
      ManualRecoversDrops(slots, schemes[1..], record);
      if i :| 0 <= i < |schemes[1..]| && Slot(slots, schemes[1..][i]) == Some(Unusable(record)) {
        assert Slot(slots, schemes[i + 1]) == Some(Unusable(record));
      }
      if i :| 0 <= i < |schemes| && Slot(slots, schemes[i]) == Some(Unusable(record)) {
        assert i > 0 ==> Slot(slots, schemes[1..][i - 1]) == Some(Unusable(record));
      }
    }
  }

  /** The drops are those of the schemes, once each and in the schemes' order, `at` saying whose. */
  predicate ListsDrops(slots: EntryMap, schemes: seq<Scheme>, at: seq<nat>, drops: seq<RejectedValue>) {
    && |at| == |drops|
    && (forall k :: 0 <= k < |at| ==> at[k] < |schemes| && Slot(slots, schemes[at[k]]) == Some(Unusable(drops[k])))
    && (forall j, k :: 0 <= j < k < |at| ==> at[j] < at[k])
    && (forall i :: 0 <= i < |schemes| && IsDrop(Slot(slots, schemes[i])) ==> i in at)
  }

  predicate IsDrop(entry: Option<ProxyEntry>) {
    entry.Some? && entry.value.Unusable?
  }

  /** The places in the list behind the first scheme, counted from the first. */
  function Later(at: seq<nat>): (later: seq<nat>)
    ensures |later| == |at| && forall k :: 0 <= k < |at| ==> later[k] == at[k] + 1
  {
    if at == [] then [] else [at[0] + 1] + Later(at[1..])
  }

  lemma LaterHolds(at: seq<nat>, i: nat)
    requires i in at
    ensures i + 1 in Later(at)
  {
    var k :| 0 <= k < |at| && at[k] == i;
    assert Later(at)[k] == i + 1;
  }

  lemma ListedBehind(slots: EntryMap, schemes: seq<Scheme>, at: seq<nat>, drops: seq<RejectedValue>)
    requires schemes != [] && ListsDrops(slots, schemes[1..], at, drops)
    ensures !IsDrop(Slot(slots, schemes[0])) ==> ListsDrops(slots, schemes, Later(at), drops)
    ensures IsDrop(Slot(slots, schemes[0])) ==>
              ListsDrops(slots, schemes, [0] + Later(at), [Slot(slots, schemes[0]).value.rejected] + drops)
  {
    hide IsDrop, Later, Slot;
    assert forall i :: 0 < i < |schemes| ==> schemes[i] == schemes[1..][i - 1];
    forall i | 0 < i < |schemes| && IsDrop(Slot(slots, schemes[i])) ensures i in Later(at) {
      assert IsDrop(Slot(slots, schemes[1..][i - 1]));
      LaterHolds(at, i - 1);
    }
    if IsDrop(Slot(slots, schemes[0])) {
      DropIs(Slot(slots, schemes[0]));
    }
  }

  lemma DropIs(entry: Option<ProxyEntry>)
    requires IsDrop(entry)
    ensures entry == Some(Unusable(entry.value.rejected))
  {
  }

  lemma {:induction false} DropPlaces(slots: EntryMap, schemes: seq<Scheme>) returns (at: seq<nat>)
    ensures ListsDrops(slots, schemes, at, Drops(slots, schemes))
    decreases schemes
  {
    at := [];
    if schemes != [] {
      hide ListsDrops;
      var rest := DropPlaces(slots, schemes[1..]);
      ListedBehind(slots, schemes, rest, Drops(slots, schemes[1..]));
      at := (if IsDrop(Slot(slots, schemes[0])) then [0] else []) + Later(rest);
      assert [] + Later(rest) == Later(rest) && [] + Drops(slots, schemes[1..]) == Drops(slots, schemes[1..]);
    }
  }

  /** The list of a map that holds drops: every drop once, in the fixed order of the schemes. */
  lemma ManualListsEveryDrop(slots: EntryMap, bypass: Rules, record: RejectedValue) returns (at: seq<nat>)
    ensures ListsDrops(slots, ALL_SCHEMES, at, ManualMode(slots, bypass).rejected)
    ensures record in ManualMode(slots, bypass).rejected <==>
            exists scheme :: scheme in slots && slots[scheme] == Unusable(record)
  {
    at := DropPlaces(slots, ALL_SCHEMES);
    ManualRecoversDrops(slots, ALL_SCHEMES, record);
    if scheme :| scheme in slots && slots[scheme] == Unusable(record) {
      var i := match scheme case Http => 0 case Https => 1 case Ftp => 2 case Socks => 3 case All => 4;
      assert Slot(slots, ALL_SCHEMES[i]) == Some(Unusable(record));
    }
  }

  /** Records go to the modes that hold some, as they are, and change nothing else of the automatic ones. */
  lemma RecordsAreAttached(slots: EntryMap, bypass: Rules, text: string, records: seq<RejectedValue>)
    ensures var manual := WithRejected(ManualMode(slots, bypass), records);
            manual.Manual? && manual.rejected == records && manual.bypass == bypass
    ensures WithRejected(Pac(text, []), records) == Pac(text, records)
    ensures WithRejected(PacInline(text, []), records) == PacInline(text, records)
    ensures WithRejected(Direct, records) == Direct && WithRejected(WpadAutoDetect, records) == WpadAutoDetect
  {
  }
}
