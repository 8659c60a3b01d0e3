/** The rule set as an object: entries are pushed and collapsed in place, and asked in a loop. */
module BypassList {
  import opened Options
  import opened Strings
  import opened BypassPatterns
  import opened BypassVerdict
  import opened BypassParse
  import opened BypassNoProxy

  class BypassRules {
    var patterns: seq<HostPattern>
    var rejected: seq<string>
    var excludeSimpleHostnames: bool
    var reversedExceptions: bool
    var implicit: ImplicitBypass
    var ipv4MappedAsIpv4: bool
    var stripTrailingDot: bool
    var requireExplicitPort: bool

    constructor ()
      ensures Contents() == Rules([], false, false, [], Broad, true, true, false)
    {
      patterns, rejected := [], [];
      excludeSimpleHostnames, reversedExceptions := false, false;
      implicit, ipv4MappedAsIpv4, stripTrailingDot, requireExplicitPort := Broad, true, true, false;
    }

    function Contents(): Rules
      reads this
    {
      Rules(patterns, excludeSimpleHostnames, reversedExceptions, rejected, implicit,
            ipv4MappedAsIpv4, stripTrailingDot, requireExplicitPort)
    }

    /** An entry adds the rule it reads as, nothing, or a record that it was refused. */
    method PushEntry(readers: Readers, entry: string)
      modifies this`patterns, this`rejected
      ensures patterns == old(patterns) + RuleOf(readers, entry)
      ensures rejected == old(rejected) + RefusalOf(readers, entry)
    {
      match ParseEntry(readers, entry)
      case Rule(pattern) => patterns := patterns + [pattern];
      case Nothing =>
      case Refused => rejected := rejected + [entry];
    }

    /** Collapse repeats once the list is complete; every destination keeps its verdict. */
    method DedupPatterns()
      modifies this`patterns
      ensures patterns == Dedup(old(patterns), {})
      ensures NoRepeats(patterns, {})
      ensures forall host, port :: Verdict(Contents(), host, port) == Verdict(old(Contents()), host, port)
    {
      hide Dedup, NoRepeats, Verdict;
      ghost var before := Contents();
      RetainFirsts();
      DedupLeavesNoRepeats(before.patterns, {});
      forall host, port ensures Verdict(Contents(), host, port) == Verdict(before, host, port) {
        DedupKeepsVerdict(before, host, port);
      }
    }

    /** One pass with the entries seen since the last `<-loopback>`. */
    method RetainFirsts()
      modifies this`patterns
      ensures patterns == Dedup(old(patterns), {})
    {
      var seen: set<HostPattern> := {};
      var kept: seq<HostPattern> := [];
      assert patterns[0..] == patterns;
      for i := 0 to |patterns|
        invariant patterns == old(patterns)
        invariant kept + Dedup(patterns[i..], seen) == Dedup(old(patterns), {})
      {
        assert patterns[i..][0] == patterns[i] && patterns[i..][1..] == patterns[i + 1..];
        if patterns[i].SubtractImplicit? {
          seen := {};
          kept := kept + [patterns[i]];
        } else if patterns[i] !in seen {
          seen := seen + {patterns[i]};
          kept := kept + [patterns[i]];
        }
      }
      patterns := kept;
    }

    /** Whether a destination bypasses the proxy: the switch, then the entries from the back. */
    method Matches(host: Host, port: Option<Port>) returns (bypassed: bool)
      ensures bypassed == Verdict(Contents(), host, port)
    {
      hide Names, Ask;
      var a := Ask(Contents(), host, port);
      if a.text == "" {
        return false;
      }
      if Switched(Contents(), a) {
        return true;
      }
      var i := |patterns|;
      assert patterns[..i] == patterns;
      while i > 0
        invariant 0 <= i <= |patterns|
        invariant Evaluate(patterns[..i], a) == Evaluate(patterns, a)
      {
        i := i - 1;
        assert patterns[..i + 1][..i] == patterns[..i];
        if patterns[i].SubtractImplicit? {
          if a.covered {
            return a.unnamed;
          }
        } else if Names(patterns[i], a) {
          return a.hit;
        }
      }
      bypassed := a.covered || a.unnamed;
    }
  }

  /** The rules of a `no_proxy` list: its entries trimmed, read and collapsed. */
  method NoProxy(readers: Readers, entries: seq<string>) returns (rules: BypassRules)
    ensures fresh(rules) && rules.Contents() == NoProxyRules(readers, entries)
  {
    hide RuleOf, RefusalOf, RulesOf, RefusedOf, Verdict, NoRepeats, Trim;
    rules := new BypassRules();
    NoEntries(readers);
    assert entries[0..] == entries;
    for i := 0 to |entries|
      invariant fresh(rules)
      invariant rules.Contents() == Rules(rules.patterns, false, false, rules.rejected, Broad, true, true, false)
      invariant rules.patterns + RulesOf(readers, entries[i..]) == RulesOf(readers, entries)
      invariant rules.rejected + RefusedOf(readers, entries[i..]) == RefusedOf(readers, entries)
    {
      EntryAt(readers, entries, i);
      rules.PushEntry(readers, Trim(entries[i]));
    }
    assert entries[|entries|..] == [];
    assert rules.patterns == RulesOf(readers, entries);
    assert rules.rejected == RefusedOf(readers, entries);
    rules.DedupPatterns();
    assert rules.patterns == Dedup(RulesOf(readers, entries), {});
  }
}
