/** A whole list read into rules, and those rules printed and read again: the same verdicts. */
module BypassNoProxy {
  import opened Options
  import opened Strings
  import opened BypassPatterns
  import opened BypassVerdict
  import opened BypassParse
  import opened BypassRoundTrip

  /** What an entry adds to the rules, and to the records of what was refused. */
  function RuleOf(readers: Readers, entry: string): seq<HostPattern> {
    match ParseEntry(readers, entry)
    case Rule(pattern) => [pattern]
    case _ => []
  }

  function RefusalOf(readers: Readers, entry: string): seq<string> {
    if ParseEntry(readers, entry).Refused? then [entry] else []
  }

  /** The rules the entries stand for, in order. */
  function RulesOf(readers: Readers, entries: seq<string>): seq<HostPattern> {
    if entries == [] then [] else RuleOf(readers, Trim(entries[0])) + RulesOf(readers, entries[1..])
  }

  /** The entries that could not be read, without the whitespace around them. */
  function RefusedOf(readers: Readers, entries: seq<string>): seq<string> {
    if entries == [] then [] else RefusalOf(readers, Trim(entries[0])) + RefusedOf(readers, entries[1..])
  }

  /** One more entry of the list. */
  lemma EntryAt(readers: Readers, entries: seq<string>, i: nat)
    requires i < |entries|
    ensures RulesOf(readers, entries[i..]) == RuleOf(readers, Trim(entries[i])) + RulesOf(readers, entries[i + 1..])
    ensures RefusedOf(readers, entries[i..]) ==
              RefusalOf(readers, Trim(entries[i])) + RefusedOf(readers, entries[i + 1..])
  {
    hide RuleOf, RefusalOf, Trim;
    assert entries[i..][0] == entries[i] && entries[i..][1..] == entries[i + 1..];
  }

  lemma NoEntries(readers: Readers)
    ensures RulesOf(readers, []) == [] && RefusedOf(readers, []) == []
  {
  }

  function NoProxyRules(readers: Readers, entries: seq<string>): Rules {
    Rules(Dedup(RulesOf(readers, entries), {}), false, false, RefusedOf(readers, entries), Broad, true, true, false)
  }

  function PrintAll(readers: Readers, patterns: seq<HostPattern>): seq<string> {
    if patterns == [] then [] else [Print(readers, patterns[0])] + PrintAll(readers, patterns[1..])
  }

  /** What a rule is read back as. */
  function Reread(pattern: HostPattern): HostPattern {
    if pattern == EVERY_NAME then All else pattern
  }

  function RereadAll(patterns: seq<HostPattern>): (again: seq<HostPattern>)
    ensures |again| == |patterns| && forall i :: 0 <= i < |patterns| ==> again[i] == Reread(patterns[i])
  {
    if patterns == [] then [] else [Reread(patterns[0])] + RereadAll(patterns[1..])
  }

  /** Some entry reads as the rule. */
  ghost predicate FromAnEntry(readers: Readers, pattern: HostPattern) {
    exists entry :: ParseEntry(readers, entry) == Rule(pattern)
  }

  lemma {:induction false} RulesAreFromEntries(readers: Readers, entries: seq<string>)
    ensures forall pattern :: pattern in RulesOf(readers, entries) ==> FromAnEntry(readers, pattern)
    decreases entries
  {
    hide ParseEntry;
    if entries != [] {
      var parsed := ParseEntry(readers, Trim(entries[0]));
      RulesAreFromEntries(readers, entries[1..]);
      assert parsed.Rule? ==> FromAnEntry(readers, parsed.pattern);
    }
  }

  lemma {:induction false} DedupAddsNothing(patterns: seq<HostPattern>, seen: set<HostPattern>)
    ensures forall pattern :: pattern in Dedup(patterns, seen) ==> pattern in patterns
    decreases patterns
  {
    if patterns != [] {
      DedupAddsNothing(patterns[1..], {});
      DedupAddsNothing(patterns[1..], seen);
      DedupAddsNothing(patterns[1..], seen + {patterns[0]});
    }
  }

  /** A printed rule survives the trimming of the list as well as that of the entry. */
  lemma TrimmedTwice(readers: Readers, entry: string)
    ensures ParseEntry(readers, Trim(entry)) == ParseEntry(readers, entry)
  {
    hide TrimStart, TrimEnd;
    TrimIsStable(entry);
  }

  lemma TrimIsStable(text: string)
    ensures Trim(Trim(text)) == Trim(text)
  {
    var start := TrimStart(text);
    TrimStartStops(text);
    TrimEndStops(start);
    var trimmed := TrimEnd(start);
    if trimmed != "" {
      assert TrimStart(trimmed) == trimmed;
      assert TrimEnd(trimmed) == trimmed;
    }
  }

  lemma {:induction false} TrimStartStops(text: string)
    ensures TrimStart(text) != "" ==> !IsWhitespace(TrimStart(text)[0])
    decreases text
  {
    if text != "" && IsWhitespace(text[0]) { TrimStartStops(text[1..]); }
  }

  lemma {:induction false} TrimEndStops(text: string)
    ensures TrimEnd(text) <= text
    ensures TrimEnd(text) != "" ==> !IsWhitespace(TrimEnd(text)[|TrimEnd(text)| - 1])
    decreases text
  {
    if text != "" && IsWhitespace(text[|text| - 1]) { TrimEndStops(text[..|text| - 1]); }
  }

  lemma {:induction false} PrintedListIsReread(readers: Readers, patterns: seq<HostPattern>)
    requires Lawful(readers) && forall pattern :: pattern in patterns ==> FromAnEntry(readers, pattern)
    ensures RulesOf(readers, PrintAll(readers, patterns)) == RereadAll(patterns)
    ensures RefusedOf(readers, PrintAll(readers, patterns)) == []
    decreases patterns
  {
    hide Lawful, ParseEntry, Print;
    if patterns != [] {
      assert patterns[0] in patterns && FromAnEntry(readers, patterns[0]);
      var entry :| ParseEntry(readers, entry) == Rule(patterns[0]);
      RoundTrip(readers, entry);
      TrimmedTwice(readers, Print(readers, patterns[0]));
      PrintedListIsReread(readers, patterns[1..]);
      var texts := PrintAll(readers, patterns);
      assert texts[0] == Print(readers, patterns[0]) && texts[1..] == PrintAll(readers, patterns[1..]);
    }
  }

  /** Read again, each rule names what it named. */
  lemma RereadNamesTheSame(pattern: HostPattern, a: Asked)
    ensures Names(Reread(pattern), a) == Names(pattern, a)
    ensures Reread(pattern).SubtractImplicit? == pattern.SubtractImplicit?
  {
    if pattern == EVERY_NAME {
      StarMatchesAll(a.entryText);
      NothingToLower("*");
    }
  }

  lemma {:induction false} RereadEvaluatesTheSame(patterns: seq<HostPattern>, a: Asked)
    ensures Evaluate(RereadAll(patterns), a) == Evaluate(patterns, a)
    decreases patterns
  {
    hide Names, RereadAll, Reread;
    if patterns != [] {
      var before, last := patterns[..|patterns| - 1], patterns[|patterns| - 1];
      RereadEvaluatesTheSame(before, a);
      RereadNamesTheSame(last, a);
      var again := RereadAll(patterns);
      assert again[..|again| - 1] == RereadAll(before);
    }
  }

  /** The rules of the list, printed one by one and read again as a list, give every verdict again. */
  lemma ListRoundTrip(readers: Readers, entries: seq<string>, host: Host, port: Option<Port>)
    requires Lawful(readers)
    ensures var rules := NoProxyRules(readers, entries);
            var again := NoProxyRules(readers, PrintAll(readers, rules.patterns));
            && again.rejected == []
            && (Verdict(again, host, port) <==> Verdict(rules, host, port))
  {
    hide Lawful, RulesOf, RefusedOf, PrintAll, RereadAll, Dedup, Verdict, FromAnEntry;
    var rules := NoProxyRules(readers, entries);
    RulesAreFromEntries(readers, entries);
    DedupAddsNothing(RulesOf(readers, entries), {});
    PrintedListIsReread(readers, rules.patterns);
    var again := NoProxyRules(readers, PrintAll(readers, rules.patterns));
    var reread := again.(patterns := RereadAll(rules.patterns));
    DedupKeepsVerdict(reread, host, port);
    SameRules(rules, reread, host, port);
  }

  lemma SameRules(rules: Rules, reread: Rules, host: Host, port: Option<Port>)
    requires !rules.reversedExceptions && !rules.excludeSimpleHostnames
    requires reread == rules.(patterns := RereadAll(rules.patterns), rejected := reread.rejected)
    ensures Verdict(reread, host, port) == Verdict(rules, host, port)
  {
    hide Evaluate, Covers, HostKey, Reduced, RereadAll;
    assert Ask(reread, host, port) == Ask(rules, host, port);
    RereadEvaluatesTheSame(rules.patterns, Ask(rules, host, port));
  }

  /** The rules stand in the order of their entries, each read by itself. */
  lemma {:induction false} RulesInOrder(readers: Readers, before: seq<string>, entry: string, after: seq<string>)
    ensures RulesOf(readers, before + [entry] + after) ==
              RulesOf(readers, before)
              + (match ParseEntry(readers, Trim(entry)) case Rule(pattern) => [pattern] case _ => [])
              + RulesOf(readers, after)
    decreases before
  {
    hide ParseEntry, Trim;
    var entries := before + [entry] + after;
    if before == [] {
      assert entries[1..] == after;
    } else {
      hide RuleOf;
      assert entries[1..] == before[1..] + [entry] + after && entries[0] == before[0];
      RulesInOrder(readers, before[1..], entry, after);
    }
  }
}
