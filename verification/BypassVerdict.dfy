/** The verdict of a whole bypass list: which entry decides a destination, whatever the list. */
module BypassVerdict {
  import opened Options
  import opened BypassAddress
  import opened BypassPatterns

  /** The list and its switches, `rejected` being the entries that could not be read. */
  datatype Rules = Rules(
    patterns: seq<HostPattern>,
    excludeSimpleHostnames: bool,
    reversedExceptions: bool,
    rejected: seq<string>,
    implicit: ImplicitBypass,
    ipv4MappedAsIpv4: bool,
    stripTrailingDot: bool,
    requireExplicitPort: bool)

  /** A destination as the entries see it, and what is answered when none of them names it. */
  datatype Asked = Asked(
    text: string,
    entryText: string,
    ip: Option<Address>,
    port: Option<Port>,
    reduce: bool,
    covered: bool,
    unnamed: bool,
    hit: bool)

  function Ask(rules: Rules, host: Host, port: Option<Port>): Asked {
    var text := HostKey(host);
    Asked(
      text,
      if rules.stripTrailingDot then StripDot(text) else text,
      if rules.ipv4MappedAsIpv4 then Reduced(HostIp(host)) else HostIp(host),
      port,
      rules.ipv4MappedAsIpv4,
      Covers(rules.implicit, text, HostIp(host)),
      rules.reversedExceptions && rules.rejected == [],
      !rules.reversedExceptions)
  }

  /** `<local>` asks about the text as written: a trailing dot counts as a dot. */
  predicate Names(entry: HostPattern, a: Asked) {
    EntryMatches(entry, if entry.Local? then a.text else a.entryText, a.ip, a.port, a.reduce)
  }

  /** Back to front, the first entry that decides. */
  function Evaluate(patterns: seq<HostPattern>, a: Asked): bool {
    if patterns == [] then a.covered || a.unnamed
    else
      var last, before := patterns[|patterns| - 1], patterns[..|patterns| - 1];
      if last.SubtractImplicit? then (if a.covered then a.unnamed else Evaluate(before, a))
      else if Names(last, a) then a.hit
      else Evaluate(before, a)
  }

  /** The dot-less host switch, which only `<-loopback>` overrides and only for covered hosts. */
  predicate Switched(rules: Rules, a: Asked) {
    && rules.excludeSimpleHostnames
    && '.' !in a.text
    && (SubtractImplicit !in rules.patterns || !a.covered)
  }

  predicate Verdict(rules: Rules, host: Host, port: Option<Port>) {
    var a := Ask(rules, host, port);
    a.text != "" && (Switched(rules, a) || Evaluate(rules.patterns, a))
  }

  // --------------------------------------------------------------------- who decides

  predicate Named(patterns: seq<HostPattern>, a: Asked) {
    exists i :: 0 <= i < |patterns| && Names(patterns[i], a)
  }

  /** Named by an entry with no `<-loopback>` after it. */
  predicate NamedLate(patterns: seq<HostPattern>, a: Asked) {
    patterns != [] &&
    (NamedLate(patterns[1..], a) || (SubtractImplicit !in patterns && Names(patterns[0], a)))
  }

  lemma {:induction false} NamedLateMeaning(patterns: seq<HostPattern>, a: Asked)
    ensures NamedLate(patterns, a) <==>
            exists i :: 0 <= i < |patterns| && Names(patterns[i], a) && SubtractImplicit !in patterns[i..]
  {
    hide Names;
    if patterns != [] {
      NamedLateMeaning(patterns[1..], a);
      assert patterns[0..] == patterns;
      forall i | 0 <= i < |patterns[1..]| ensures patterns[1..][i..] == patterns[i + 1..] {
      }
      if i :| 0 <= i < |patterns[1..]| && Names(patterns[1..][i], a) && SubtractImplicit !in patterns[1..][i..] {
        assert Names(patterns[i + 1], a) && SubtractImplicit !in patterns[i + 1..];
      }
      if i :| 0 <= i < |patterns| && Names(patterns[i], a) && SubtractImplicit !in patterns[i..] {
        if i > 0 {
          assert Names(patterns[1..][i - 1], a) && SubtractImplicit !in patterns[1..][i - 1..];
        }
      }
    }
  }

  lemma NamedByLast(before: seq<HostPattern>, last: HostPattern, a: Asked)
    ensures Named(before + [last], a) <==> Named(before, a) || Names(last, a)
  {
    hide Names;
    var whole := before + [last];
    assert whole[|before|] == last;
    assert forall i :: 0 <= i < |before| ==> whole[i] == before[i];
    if i :| 0 <= i < |before| && Names(before[i], a) {
      assert Names(whole[i], a);
    }
  }

  lemma {:induction false} NamedLateByLast(before: seq<HostPattern>, last: HostPattern, a: Asked)
    ensures NamedLate(before + [last], a) <==> last != SubtractImplicit && (NamedLate(before, a) || Names(last, a))
    decreases before
  {
    hide Names;
    SubtractNamesNothing(a);
    if before == [] {
      assert before + [last] == [last];
      assert [last][1..] == [];
    } else {
      NamedLateByLast(before[1..], last, a);
      assert (before + [last])[1..] == before[1..] + [last];
    }
  }

  lemma NamedByFirst(first: HostPattern, rest: seq<HostPattern>, a: Asked)
    ensures Named([first] + rest, a) <==> Names(first, a) || Named(rest, a)
    ensures NamedLate([first] + rest, a) <==>
            (Names(first, a) && first != SubtractImplicit && SubtractImplicit !in rest) || NamedLate(rest, a)
  {
    hide Names;
    var whole := [first] + rest;
    assert whole[0] == first && whole[1..] == rest;
    if i :| 0 <= i < |rest| && Names(rest[i], a) {
      assert Names(whole[i + 1], a);
    }
    if i :| 0 <= i < |whole| && Names(whole[i], a) {
      assert i > 0 ==> Names(rest[i - 1], a);
    }
  }

  /**
   A destination outside the implicit set is decided by whether any entry names it; one inside,
   by whether an entry after the last `<-loopback>` does, and otherwise by whether there is one.
   */
  lemma {:induction false} WhoDecides(patterns: seq<HostPattern>, a: Asked)
    ensures !a.covered ==> Evaluate(patterns, a) == if Named(patterns, a) then a.hit else a.unnamed
    ensures a.covered ==>
              Evaluate(patterns, a) ==
              if NamedLate(patterns, a) then a.hit
              else if SubtractImplicit in patterns then a.unnamed
              else true
  {
    if patterns != [] {
      var before, last := patterns[..|patterns| - 1], patterns[|patterns| - 1];
      hide Names;
      assert patterns == before + [last];
      WhoDecides(before, a);
      NamedByLast(before, last, a);
      NamedLateByLast(before, last, a);
      SubtractNamesNothing(a);
    }
  }

  lemma SubtractNamesNothing(a: Asked)
    ensures !Names(SubtractImplicit, a)
  {
  }

  // ------------------------------------------------------------------------- collapsing

  /** Repeats dropped within each run between `<-loopback>` entries, first occurrences kept. */
  function Dedup(patterns: seq<HostPattern>, seen: set<HostPattern>): seq<HostPattern>
    decreases patterns
  {
    if patterns == [] then []
    else if patterns[0].SubtractImplicit? then [patterns[0]] + Dedup(patterns[1..], {})
    else if patterns[0] in seen then Dedup(patterns[1..], seen)
    else [patterns[0]] + Dedup(patterns[1..], seen + {patterns[0]})
  }

  ghost predicate SeenNames(seen: set<HostPattern>, a: Asked) {
    exists entry :: entry in seen && Names(entry, a)
  }

  lemma SeenGrows(seen: set<HostPattern>, entry: HostPattern, a: Asked)
    ensures SeenNames(seen + {entry}, a) <==> SeenNames(seen, a) || Names(entry, a)
  {
    assert entry in seen + {entry};
  }

  lemma {:induction false} DedupKeepsSubtract(patterns: seq<HostPattern>, seen: set<HostPattern>)
    requires SubtractImplicit !in seen
    ensures SubtractImplicit in Dedup(patterns, seen) <==> SubtractImplicit in patterns
    decreases patterns
  {
    if patterns != [] {
      var next := if patterns[0].SubtractImplicit? then {}
                  else if patterns[0] in seen then seen else seen + {patterns[0]};
      DedupKeepsSubtract(patterns[1..], next);
    }
  }

  /** Collapsing keeps who is named, in the whole list and after its last `<-loopback>`. */
  lemma {:induction false} DedupKeepsNamed(patterns: seq<HostPattern>, seen: set<HostPattern>, a: Asked)
    requires SubtractImplicit !in seen
    ensures var kept := Dedup(patterns, seen);
            && (Named(kept, a) || SeenNames(seen, a) <==> Named(patterns, a) || SeenNames(seen, a))
            && (if SubtractImplicit in patterns then NamedLate(kept, a) <==> NamedLate(patterns, a)
                else NamedLate(kept, a) || SeenNames(seen, a) <==> NamedLate(patterns, a) || SeenNames(seen, a))
    decreases patterns
  {
    if patterns != [] {
      hide Names, Named, NamedLate, SeenNames;
      var first, rest := patterns[0], patterns[1..];
      assert patterns == [first] + rest;
      NamedByFirst(first, rest, a);
      SubtractNamesNothing(a);
      if first.SubtractImplicit? {
        DedupKeepsSubtract(rest, {});
        DedupKeepsNamed(rest, {}, a);
        NamedByFirst(first, Dedup(rest, {}), a);
        assert !SeenNames({}, a) by { NothingSeen(a); }
      } else if first in seen {
        DedupKeepsNamed(rest, seen, a);
        SeenGrows(seen, first, a);
        assert seen + {first} == seen;
      } else {
        DedupKeepsSubtract(rest, seen + {first});
        DedupKeepsNamed(rest, seen + {first}, a);
        NamedByFirst(first, Dedup(rest, seen + {first}), a);
        SeenGrows(seen, first, a);
      }
    }
  }

  lemma NothingSeen(a: Asked)
    ensures !SeenNames({}, a)
  {
  }

  /** Collapsing repeats never changes a verdict. */
  lemma DedupKeepsVerdict(rules: Rules, host: Host, port: Option<Port>)
    ensures Verdict(rules.(patterns := Dedup(rules.patterns, {})), host, port) == Verdict(rules, host, port)
  {
    hide Names, Named, NamedLate, Evaluate;
    var a := Ask(rules, host, port);
    var kept := Dedup(rules.patterns, {});
    DedupKeepsSubtract(rules.patterns, {});
    DedupKeepsNamed(rules.patterns, {}, a);
    NothingSeen(a);
    WhoDecides(rules.patterns, a);
    WhoDecides(kept, a);
  }

  /** No entry seen before the list, and no two equal entries, without a `<-loopback>` between. */
  predicate NoRepeats(patterns: seq<HostPattern>, seen: set<HostPattern>) {
    && (forall i, j :: 0 <= i < j < |patterns| && patterns[i] == patterns[j] ==> SubtractImplicit in patterns[i..j])
    && (forall i :: 0 <= i < |patterns| && patterns[i] in seen ==> SubtractImplicit in patterns[..i])
  }

  /** What is left has no repeat to drop, except on both sides of a `<-loopback>`. */
  lemma {:induction false} DedupLeavesNoRepeats(patterns: seq<HostPattern>, seen: set<HostPattern>)
    requires SubtractImplicit !in seen
    ensures NoRepeats(Dedup(patterns, seen), seen)
    decreases patterns
  {
    if patterns != [] {
      var first, rest := patterns[0], patterns[1..];
      if first.SubtractImplicit? {
        DedupLeavesNoRepeats(rest, {});
        RepeatsPastSubtract(Dedup(rest, {}), seen);
      } else if first in seen {
        DedupLeavesNoRepeats(rest, seen);
      } else {
        DedupLeavesNoRepeats(rest, seen + {first});
        RepeatsPastEntry(first, Dedup(rest, seen + {first}), seen);
      }
    }
  }

  lemma RepeatsPastSubtract(rest: seq<HostPattern>, seen: set<HostPattern>)
    requires NoRepeats(rest, {}) && SubtractImplicit !in seen
    ensures NoRepeats([SubtractImplicit] + rest, seen)
  {
    var whole := [SubtractImplicit] + rest;
    forall i, j | 0 <= i < j < |whole| && whole[i] == whole[j] ensures SubtractImplicit in whole[i..j] {
      if i == 0 { assert whole[i..j][0] == SubtractImplicit; }
      else { assert whole[i..j] == rest[i - 1..j - 1]; }
    }
    forall i | 0 <= i < |whole| && whole[i] in seen ensures SubtractImplicit in whole[..i] {
      assert i > 0;
      assert whole[..i][0] == SubtractImplicit;
    }
  }

  lemma ApartAt(patterns: seq<HostPattern>, seen: set<HostPattern>, i: nat, j: nat)
    ensures NoRepeats(patterns, seen) && i < j < |patterns| && patterns[i] == patterns[j] ==>
              SubtractImplicit in patterns[i..j]
  {
  }

  lemma ApartFromSeen(patterns: seq<HostPattern>, seen: set<HostPattern>, i: nat)
    ensures NoRepeats(patterns, seen) && i < |patterns| && patterns[i] in seen ==>
              SubtractImplicit in patterns[..i]
  {
  }

  lemma PairPastEntry(first: HostPattern, rest: seq<HostPattern>, seen: set<HostPattern>, i: nat, j: nat)
    requires NoRepeats(rest, seen + {first})
    requires i < j <= |rest| && ([first] + rest)[i] == ([first] + rest)[j]
    ensures SubtractImplicit in ([first] + rest)[i..j]
  {
    hide NoRepeats;
    if i == 0 {
      SliceFromFirst(first, rest, j);
      ApartFromSeen(rest, seen + {first}, j - 1);
    } else {
      SliceOfRest(first, rest, i, j);
      ApartAt(rest, seen + {first}, i - 1, j - 1);
    }
  }

  lemma SeenPastEntry(first: HostPattern, rest: seq<HostPattern>, seen: set<HostPattern>, i: nat)
    requires NoRepeats(rest, seen + {first}) && first !in seen
    requires i <= |rest| && ([first] + rest)[i] in seen
    ensures SubtractImplicit in ([first] + rest)[..i]
  {
    hide NoRepeats;
    SliceFromFirst(first, rest, i);
    ApartFromSeen(rest, seen + {first}, i - 1);
  }

  lemma RepeatsPastEntry(first: HostPattern, rest: seq<HostPattern>, seen: set<HostPattern>)
    requires NoRepeats(rest, seen + {first}) && first !in seen
    ensures NoRepeats([first] + rest, seen)
  {
    hide NoRepeats;
    var whole := [first] + rest;
    forall i: nat, j: nat | i < j < |whole| && whole[i] == whole[j] ensures SubtractImplicit in whole[i..j] {
      PairPastEntry(first, rest, seen, i, j);
    }
    forall i: nat | i < |whole| && whole[i] in seen ensures SubtractImplicit in whole[..i] {
      SeenPastEntry(first, rest, seen, i);
    }
    NoRepeatsFrom(whole, seen);
  }

  lemma NoRepeatsFrom(patterns: seq<HostPattern>, seen: set<HostPattern>)
    requires forall i: nat, j: nat | i < j < |patterns| && patterns[i] == patterns[j] ::
               SubtractImplicit in patterns[i..j]
    requires forall i: nat | i < |patterns| && patterns[i] in seen :: SubtractImplicit in patterns[..i]
    ensures NoRepeats(patterns, seen)
  {
  }

  lemma SliceFromFirst<T>(first: T, rest: seq<T>, upto: nat)
    requires 0 < upto <= |rest| + 1
    ensures ([first] + rest)[..upto] == [first] + rest[..upto - 1] == ([first] + rest)[0..upto]
  {
  }

  lemma SliceOfRest<T>(first: T, rest: seq<T>, from: nat, upto: nat)
    requires 0 < from <= upto <= |rest| + 1
    ensures ([first] + rest)[from..upto] == rest[from - 1..upto - 1]
  {
  }

  // ---------------------------------------------------------------- rejected and mapped

  /**
   An entry that could not be read never turns a proxied destination into a bypassed one, and
   turns one the other way exactly in an inclusion list, so far complete, that says nothing of it.
   */
  lemma RejectedNeverAddsABypass(rules: Rules, entry: string, host: Host, port: Option<Port>)
    ensures var more := rules.(rejected := rules.rejected + [entry]);
            var a := Ask(rules, host, port);
            && (Verdict(more, host, port) ==> Verdict(rules, host, port))
            && (Verdict(more, host, port) != Verdict(rules, host, port) <==>
                  && a.text != "" && a.unnamed && !Switched(rules, a)
                  && (if a.covered then !NamedLate(rules.patterns, a) && SubtractImplicit in rules.patterns
                      else !Named(rules.patterns, a)))
  {
    hide Names, Evaluate;
    var more := rules.(rejected := rules.rejected + [entry]);
    var a, b := Ask(rules, host, port), Ask(more, host, port);
    WhoDecides(rules.patterns, a);
    WhoDecides(rules.patterns, b);
    SameQuestion(rules.patterns, a, b);
  }

  lemma SameQuestion(patterns: seq<HostPattern>, a: Asked, b: Asked)
    requires b == a.(unnamed := b.unnamed)
    ensures Named(patterns, a) <==> Named(patterns, b)
    ensures NamedLate(patterns, a) <==> NamedLate(patterns, b)
    decreases patterns
  {
    forall i | 0 <= i < |patterns| ensures Names(patterns[i], a) <==> Names(patterns[i], b) {
    }
    if patterns != [] {
      SameQuestion(patterns[1..], a, b);
    }
  }

  /** Entries that look at a destination's address only. */
  predicate AddressEntry(entry: HostPattern) {
    || entry.All? || entry.Cidr? || entry.Local? || entry.SubtractImplicit?
    || (entry.Exact? && entry.host.Literal?)
  }

  lemma {:induction false} SameAddress(patterns: seq<HostPattern>, a: Asked, b: Asked)
    requires forall i :: 0 <= i < |patterns| ==> AddressEntry(patterns[i])
    requires a.ip == b.ip && a.ip.Some? && a.port == b.port && a.reduce == b.reduce
    requires a.covered == b.covered && a.unnamed == b.unnamed && a.hit == b.hit
    ensures Evaluate(patterns, a) == Evaluate(patterns, b)
  {
    if patterns != [] {
      SameAddress(patterns[..|patterns| - 1], a, b);
    }
  }

  /**
   With mapped addresses read as IPv4 and the broad implicit set, an IPv4 address and its mapped
   spelling get one verdict from any list of entries about addresses. Both spellings hold a dot,
   so the switch for dot-less hosts takes neither.
   */
  lemma MappedSpellingAgrees(rules: Rules, bits: Word32, text4: string, text6: string, port: Option<Port>)
    requires rules.ipv4MappedAsIpv4 && rules.implicit.Broad?
    requires rules.excludeSimpleHostnames ==> ('.' in text4 <==> '.' in text6)
    requires forall i :: 0 <= i < |rules.patterns| ==> AddressEntry(rules.patterns[i])
    requires text4 != "" && text6 != ""
    ensures Verdict(rules, Literal(V4(bits), text4), port)
         == Verdict(rules, Literal(V6(Mapped(bits)), text6), port)
  {
    MappedReduces(bits);
    SameAddress(rules.patterns,
                Ask(rules, Literal(V4(bits), text4), port),
                Ask(rules, Literal(V6(Mapped(bits)), text6), port));
  }
}
