/**
 What the entries of a list and the implicit sets say, in terms of the destination's own text and
 address, and the verdict of a whole rule set in terms of its fields.
 */
module BypassMeaning {
  import opened Options
  import opened Powers
  import opened Strings
  import opened TextGlob
  import opened BypassAddress
  import opened BypassPatterns
  import opened BypassVerdict

  // --------------------------------------------------------------------------------- names

  lemma LowerOfSlice(text: string, from: nat)
    requires from <= |text|
    ensures Lower(text[from..]) == Lower(text)[from..]
  {
    hide Lower;
    assert |Lower(text[from..])| == |Lower(text)[from..]|;
  }

  lemma StrippedIs(text: string, name: string)
    ensures StripSuffixAsciiCase(text, name) ==
            if |name| <= |text| && Lower(text)[|text| - |name|..] == Lower(name)
            then Some(text[..|text| - |name|]) else None
  {
    if |name| <= |text| {
      LowerOfSlice(text, |text| - |name|);
    }
  }

  lemma EndsInDot(text: string)
    ensures EndsWith(text, ".") <==> text != "" && text[|text| - 1] == '.'
  {
    if text != "" { assert text[|text| - 1..] == [text[|text| - 1]]; }
  }

  lemma SuffixEntry(
      domain: string, matchSelf: bool, rulePort: Option<Port>,
      text: string, ip: Option<Address>, port: Option<Port>, reduce: bool)
    requires domain != ""
    ensures EntryMatches(Suffix("." + domain, matchSelf, rulePort), text, ip, port, reduce) <==>
            && (rulePort.None? || port == rulePort)
            && var rest := StripSuffixAsciiCase(text, domain);
               rest.Some? && (EndsWith(rest.value, ".") || (matchSelf && rest.value == ""))
  {
    hide StripSuffixAsciiCase, EndsWith;
    assert ("." + domain)[1..] == domain;
  }

  /**
   A rule for a domain names it and what ends in a dot and the domain, letters of either case
   alike; a rule for subdomains alone leaves the domain itself out. Nothing else is named.
   */
  lemma DomainRule(
      domain: string, matchSelf: bool, rulePort: Option<Port>,
      text: string, ip: Option<Address>, port: Option<Port>, reduce: bool)
    requires domain != "" && domain[0] != '.'
    ensures EntryMatches(Suffix("." + domain, matchSelf, rulePort), text, ip, port, reduce) <==>
            && (rulePort.None? || port == rulePort)
            && (|| (matchSelf && Lower(text) == Lower(domain))
                || (&& |text| > |domain| && text[|text| - |domain| - 1] == '.'
                    && Lower(text)[|text| - |domain|..] == Lower(domain)))
  {
    hide Lower, EntryMatches, StripSuffixAsciiCase, EndsWith;
    SuffixEntry(domain, matchSelf, rulePort, text, ip, port, reduce);
    StrippedIs(text, domain);
    if |domain| <= |text| {
      EndsInDot(text[..|text| - |domain|]);
      assert |text| == |domain| ==> Lower(text)[0..] == Lower(text);
    }
  }

  /** A glob, folded, names the texts that some strings in place of its stars give. */
  lemma GlobRule(
      glob: string, rulePort: Option<Port>, text: string, ip: Option<Address>, port: Option<Port>, reduce: bool)
    ensures EntryMatches(Wildcard(glob, rulePort), text, ip, port, reduce) <==>
            (rulePort.None? || port == rulePort) && Spells(Lower(glob), text)
  {
    hide Lower, Spells, Glob;
    GlobIsSpells(Lower(glob), text);
  }

  // ------------------------------------------------------------------------------ addresses

  /** Two addresses agree above the last `size` of a block exactly when one is in the other's block. */
  lemma InBlockIsPrefix(addr: nat, size: nat, bits: nat)
    requires size > 0
    ensures InBlock(addr, size, bits) <==> addr / size == bits / size
  {
    var a, b := addr / size, bits / size;
    assert addr - addr % size == a * size;
    assert bits == b * size + bits % size;
    if a < b {
      MulLe(a + 1, b, size);
      MulAdd(a, 1, size);
    } else if b < a {
      MulLe(b + 1, a, size);
      MulAdd(b, 1, size);
    }
  }

  /** A block contains the addresses of its family that share its prefix, and no other. */
  lemma BlockIsPrefix(net: Net, address: Address)
    ensures Contains(net, address) <==>
            match (net, address)
            case (Net4(addr, prefix), V4(bits)) => addr / Pow2(32 - prefix) == bits / Pow2(32 - prefix)
            case (Net6(addr, prefix), V6(bits)) => addr / Pow2(128 - prefix) == bits / Pow2(128 - prefix)
            case _ => false
  {
    hide InBlock, Pow2;
    match (net, address)
    case (Net4(addr, prefix), V4(bits)) => InBlockIsPrefix(addr, Pow2(32 - prefix), bits);
    case (Net6(addr, prefix), V6(bits)) => InBlockIsPrefix(addr, Pow2(128 - prefix), bits);
    case _ =>
  }

  /** An address rule names that address, whatever it is spelled like, and only on its port. */
  lemma AddressRule(
      address: Address, spelled: string, rulePort: Option<Port>,
      text: string, ip: Address, port: Option<Port>, reduce: bool)
    ensures EntryMatches(Exact(Literal(address, spelled), rulePort), text, Some(ip), port, reduce) <==>
            && (rulePort.None? || port == rulePort)
            && ip == (if reduce then ReduceMapped(address) else address)
  {
  }

  /** A rule for one name alone, which other lists than `no_proxy` hold, is compared as text. */
  lemma NameRule(
      name: string, rulePort: Option<Port>, text: string, ip: Option<Address>, port: Option<Port>, reduce: bool)
    ensures EntryMatches(Exact(Domain(name), rulePort), text, ip, port, reduce) <==>
            (rulePort.None? || port == rulePort) && text == Lower(name)
  {
  }

  /** The remaining entries: everything, a block, the names without a dot, and none. */
  lemma OtherRules(net: Net, text: string, ip: Option<Address>, port: Option<Port>, reduce: bool)
    ensures EntryMatches(All, text, ip, port, reduce)
    ensures EntryMatches(Cidr(net), text, ip, port, reduce) <==>
            ip.Some? && Contains(if reduce then ReduceMappedNet(net) else net, ip.value)
    ensures EntryMatches(Local, text, ip, port, reduce) <==> ip.None? && '.' !in text
    ensures !EntryMatches(SubtractImplicit, text, ip, port, reduce)
  {
  }

  // -------------------------------------------------------------------------- implicit sets

  const LOOPBACK4: Net := Net4(0x7f00_0000, 8)
  const LINK_LOCAL4: Net := Net4(0xa9fe_0000, 16)
  const LINK_LOCAL6: Net := Net6(0xfe80_0000_0000_0000_0000_0000_0000_0000, 10)

  lemma PowersOf24And16And118()
    ensures Pow2(24) == 0x100_0000 && Pow2(16) == 0x1_0000
    ensures Pow2(118) == 0x40_0000_0000_0000_0000_0000_0000_0000
  {
    hide Pow2;
    Pow2Of32();
    assert Pow2(8) == 256 by { SmallPowers(); }
    assert Pow2(6) == 64 by { SmallPowers(); }
    Pow2Adds(8, 8);
    Pow2Adds(16, 8);
    Pow2Adds(32, 32);
    Pow2Adds(64, 32);
    Pow2Adds(96, 16);
    Pow2Adds(112, 6);
  }

  lemma SmallPowers()
    ensures Pow2(8) == 256 && Pow2(6) == 64
  {
  }

  /** Which addresses each set holds: the blocks the documentation names, the mapped spelling read in one. */
  lemma CoveredAddresses(text: string, ip: Address)
    ensures Covers(Broad, text, Some(ip)) <==>
            Contains(LOOPBACK4, ReduceMapped(ip)) || ip == V6(1)
    ensures Covers(WinInet, text, Some(ip)) <==>
            ip == V4(0x7f00_0001) || ip == V6(1) || Contains(LINK_LOCAL4, ip) || Contains(LINK_LOCAL6, ip)
    ensures Covers(CfNetwork, text, Some(ip)) <==> ip == V4(0x7f00_0001) || ip == V6(1)
    ensures !Covers(Empty, text, Some(ip))
  {
    hide Contains, Pow2;
    PowersOf24And16And118();
    BlockIsPrefix(LOOPBACK4, ReduceMapped(ip));
    BlockIsPrefix(LINK_LOCAL4, ip);
    BlockIsPrefix(LINK_LOCAL6, ip);
  }

  /** Which names each set holds. */
  lemma CoveredNames(text: string)
    ensures Covers(Broad, text, None) <==>
            || text == "localhost" || text == "localhost" + "." || text == "loopback" || text == "loopback" + "."
            || EndsWith(text, ".localhost") || EndsWith(text, ".localhost" + ".")
    ensures Covers(WinInet, text, None) <==> text == "localhost" || text == "loopback"
    ensures Covers(CfNetwork, text, None) <==> text == "localhost"
    ensures !Covers(Empty, text, None)
  {
    hide StripDot, EndsWith;
    StrippedName(text, "localhost");
    StrippedName(text, "loopback");
    StrippedEnd(text, ".localhost");
  }

  /** With one trailing dot off, a text is a name that has none exactly when it is it or it and a dot. */
  lemma StrippedName(text: string, name: string)
    requires name != "" && name[|name| - 1] != '.'
    ensures StripDot(text) == name <==> text == name || text == name + "."
  {
    assert StripDot(text) != text ==> text == StripDot(text) + ".";
    assert StripDot(name) == name && StripDot(name + ".") == name;
  }

  lemma StrippedEnd(text: string, end: string)
    requires end != "" && end[|end| - 1] != '.'
    ensures EndsWith(StripDot(text), end) <==> EndsWith(text, end) || EndsWith(text, end + ".")
  {
    hide EndsWith;
    EndsWithIs(text, end);
    EndsWithIs(text, end + ".");
    EndsWithIs(StripDot(text), end);
    if StripDot(text) != text {
      assert text == StripDot(text) + ".";
      DottedTail(StripDot(text), end);
    } else {
      LastOfTail(text, end + ".");
    }
  }

  lemma EndsWithIs(text: string, end: string)
    ensures EndsWith(text, end) <==> |end| <= |text| && text[|text| - |end|..] == end
  {
  }

  /** The last character of a text is that of what it ends in. */
  lemma LastOfTail(text: string, end: string)
    ensures end != "" && EndsWith(text, end) ==> text != "" && text[|text| - 1] == end[|end| - 1]
  {
    if end != "" && |end| <= |text| {
      assert text[|text| - |end|..][|end| - 1] == text[|text| - 1];
    }
  }

  lemma DottedTail(name: string, end: string)
    requires end != "" && end[|end| - 1] != '.'
    ensures EndsWith(name + ".", end + ".") <==> EndsWith(name, end)
    ensures !EndsWith(name + ".", end)
  {
    LastOfTail(name + ".", end);
    if |end| <= |name| {
      var dotted := name + ".";
      assert dotted[|dotted| - |end + "."|..] == name[|name| - |end|..] + ".";
      assert (name[|name| - |end|..] + ".")[..|end|] == name[|name| - |end|..];
      assert (end + ".")[..|end|] == end;
    }
  }

  // ---------------------------------------------------------------------- the whole verdict

  /** The entry matches the destination, a trailing dot and a mapped address read as the rules say. */
  predicate NamesAt(rules: Rules, host: Host, port: Option<Port>, i: nat)
    requires i < |rules.patterns|
  {
    EntryMatches(
      rules.patterns[i],
      if rules.stripTrailingDot && !rules.patterns[i].Local? then StripDot(HostKey(host)) else HostKey(host),
      if rules.ipv4MappedAsIpv4 then Reduced(HostIp(host)) else HostIp(host),
      port, rules.ipv4MappedAsIpv4)
  }

  /** Some entry from `from` on names the destination. */
  predicate NamedFrom(rules: Rules, host: Host, port: Option<Port>, from: nat) {
    exists i :: from <= i < |rules.patterns| && NamesAt(rules, host, port, i)
  }

  /** Where the entries that decide about a covered destination begin. */
  function BehindSubtract(patterns: seq<HostPattern>): (at: nat)
    ensures at <= |patterns|
    ensures at > 0 ==> patterns[at - 1].SubtractImplicit?
    ensures forall i :: at <= i < |patterns| ==> !patterns[i].SubtractImplicit?
  {
    if patterns == [] then 0
    else if patterns[|patterns| - 1].SubtractImplicit? then |patterns|
    else BehindSubtract(patterns[..|patterns| - 1])
  }

  /**
   The verdict of any rule set on any destination. Without a name there is none. The switch takes a
   dot-less host unless the list subtracts the implicit set and the host is in it. Otherwise an
   entry decides, any for a host outside the set and one behind the last subtraction for a host
   in it; and where none does, being covered does, or being absent from a complete inclusion list.
   */
  lemma VerdictInFull(rules: Rules, host: Host, port: Option<Port>)
    ensures var text := HostKey(host);
            var covered := Covers(rules.implicit, text, HostIp(host));
            var subtracts := SubtractImplicit in rules.patterns;
            var from := if covered then BehindSubtract(rules.patterns) else 0;
            Verdict(rules, host, port) <==>
              && text != ""
              && (|| (rules.excludeSimpleHostnames && '.' !in text && !(subtracts && covered))
                  || (if NamedFrom(rules, host, port, from) then !rules.reversedExceptions
                      else (covered && !subtracts) || (rules.reversedExceptions && rules.rejected == [])))
  {
    hide Names, Evaluate, Covers, HostKey, NamedFrom, Named, NamedLate;
    var a := Ask(rules, host, port);
    WhoDecides(rules.patterns, a);
    NamedIs(rules, host, port);
    NamedLateIs(rules, host, port);
  }

  lemma NamesIs(rules: Rules, host: Host, port: Option<Port>, i: nat)
    requires i < |rules.patterns|
    ensures Names(rules.patterns[i], Ask(rules, host, port)) <==> NamesAt(rules, host, port, i)
  {
    hide EntryMatches, Covers, HostKey;
  }

  lemma NamedIs(rules: Rules, host: Host, port: Option<Port>)
    ensures Named(rules.patterns, Ask(rules, host, port)) <==> NamedFrom(rules, host, port, 0)
  {
    hide Names, NamesAt, Ask;
    forall i: nat | i < |rules.patterns|
      ensures Names(rules.patterns[i], Ask(rules, host, port)) <==> NamesAt(rules, host, port, i)
    {
      NamesIs(rules, host, port, i);
    }
  }

  lemma NamedLateIs(rules: Rules, host: Host, port: Option<Port>)
    ensures NamedLate(rules.patterns, Ask(rules, host, port)) <==>
            NamedFrom(rules, host, port, BehindSubtract(rules.patterns))
  {
    hide Names, NamesAt, Ask, NamedLate, BehindSubtract;
    NamedLateMeaning(rules.patterns, Ask(rules, host, port));
    forall i: nat | i < |rules.patterns|
      ensures Names(rules.patterns[i], Ask(rules, host, port)) <==> NamesAt(rules, host, port, i)
      ensures BehindSubtract(rules.patterns) <= i <==> SubtractImplicit !in rules.patterns[i..]
    {
      NamesIs(rules, host, port, i);
      BehindIs(rules.patterns, i);
    }
  }

  lemma BehindIs(patterns: seq<HostPattern>, i: nat)
    requires i < |patterns|
    ensures BehindSubtract(patterns) <= i <==> SubtractImplicit !in patterns[i..]
  {
    hide BehindSubtract;
    var from := BehindSubtract(patterns);
    if from > i {
      assert patterns[i..][from - 1 - i] == SubtractImplicit;
    }
  }
}
