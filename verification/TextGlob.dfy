/** The allocation-free glob matcher, and what a glob with `*` means. */
module TextGlob {
  import opened Options
  import opened Strings

  function Stars(pattern: string): nat {
    if pattern == "" then 0 else (if pattern[0] == '*' then 1 else 0) + Stars(pattern[1..])
  }

  /** The pattern with its stars replaced, in order, by the strings given. */
  function Fill(pattern: string, fills: seq<string>): string
    requires |fills| == Stars(pattern)
  {
    if pattern == "" then ""
    else if pattern[0] == '*' then fills[0] + Fill(pattern[1..], fills[1..])
    else [pattern[0]] + Fill(pattern[1..], fills)
  }

  /** Some choice of strings for the stars spells the text. */
  ghost predicate Spells(pattern: string, text: string) {
    exists fills: seq<string> :: |fills| == Stars(pattern) && Fill(pattern, fills) == text
  }

  /** A star takes nothing, or one character and stays; any other character takes itself. */
  predicate Glob(pattern: string, text: string)
    decreases |pattern| + |text|
  {
    if pattern == "" then text == ""
    else if pattern[0] == '*' then Glob(pattern[1..], text) || (text != "" && Glob(pattern, text[1..]))
    else text != "" && pattern[0] == text[0] && Glob(pattern[1..], text[1..])
  }

  // ------------------------------------------------------------------- Glob means Spells

  lemma {:induction false} GlobSpells(pattern: string, text: string)
    requires Glob(pattern, text)
    ensures Spells(pattern, text)
    decreases |pattern| + |text|
  {
    if pattern == "" {
      assert Fill(pattern, []) == text;
    } else if pattern[0] == '*' {
      if Glob(pattern[1..], text) {
        GlobSpells(pattern[1..], text);
        var fills :| |fills| == Stars(pattern[1..]) && Fill(pattern[1..], fills) == text;
        assert ([""] + fills)[1..] == fills;
        assert Fill(pattern, [""] + fills) == text;
      } else {
        GlobSpells(pattern, text[1..]);
        var fills :| |fills| == Stars(pattern) && Fill(pattern, fills) == text[1..];
        var longer := [[text[0]] + fills[0]] + fills[1..];
        assert longer[1..] == fills[1..];
        assert Fill(pattern, longer) == [text[0]] + (fills[0] + Fill(pattern[1..], fills[1..]));
        assert Fill(pattern, longer) == text;
      }
    } else {
      GlobSpells(pattern[1..], text[1..]);
      var fills :| |fills| == Stars(pattern[1..]) && Fill(pattern[1..], fills) == text[1..];
      assert Fill(pattern, fills) == text;
    }
  }

  lemma {:induction false} FillGlobs(pattern: string, fills: seq<string>)
    requires |fills| == Stars(pattern)
    ensures Glob(pattern, Fill(pattern, fills))
    decreases |pattern|
  {
    if pattern == "" {
    } else if pattern[0] == '*' {
      FillGlobs(pattern[1..], fills[1..]);
      StarTakes(pattern, fills[0], Fill(pattern[1..], fills[1..]));
    } else {
      FillGlobs(pattern[1..], fills);
      assert Fill(pattern, fills)[1..] == Fill(pattern[1..], fills);
    }
  }

  /** A leading star may take any prefix. */
  lemma {:induction false} StarTakes(pattern: string, taken: string, rest: string)
    requires pattern != "" && pattern[0] == '*'
    requires Glob(pattern[1..], rest) || Glob(pattern, rest)
    ensures Glob(pattern, taken + rest)
    decreases |taken|
  {
    if taken == "" {
      assert taken + rest == rest;
    } else {
      StarTakes(pattern, taken[1..], rest);
      assert (taken + rest)[1..] == taken[1..] + rest;
    }
  }

  lemma GlobIsSpells(pattern: string, text: string)
    ensures Glob(pattern, text) <==> Spells(pattern, text)
  {
    if Glob(pattern, text) {
      GlobSpells(pattern, text);
    }
    if Spells(pattern, text) {
      var fills: seq<string> :| |fills| == Stars(pattern) && Fill(pattern, fills) == text;
      FillGlobs(pattern, fills);
    }
  }

  // ----------------------------------------------------------- the greedy search is enough

  /** Text before the first star is taken literally. */
  lemma {:induction false} LiteralPrefix(prefix: string, pattern: string, text: string)
    requires '*' !in prefix
    ensures Glob(prefix + pattern, text) <==> StartsWith(text, prefix) && Glob(pattern, text[|prefix|..])
    decreases |prefix|
  {
    if prefix == "" {
      assert prefix + pattern == pattern && text[0..] == text;
    } else {
      assert (prefix + pattern)[1..] == prefix[1..] + pattern;
      assert prefix[0] in prefix;
      if text != "" && text[0] == prefix[0] {
        LiteralPrefix(prefix[1..], pattern, text[1..]);
        assert StartsWith(text, prefix) <==> StartsWith(text[1..], prefix[1..]);
        if |prefix| <= |text| {
          assert text[1..][|prefix[1..]|..] == text[|prefix|..];
        }
      }
    }
  }

  /** A leading star matches exactly when the rest matches some suffix. */
  lemma {:induction false} StarIsSomeSuffix(pattern: string, text: string)
    ensures Glob("*" + pattern, text) <==> exists k :: 0 <= k <= |text| && Glob(pattern, text[k..])
    decreases |text|
  {
    assert ("*" + pattern)[1..] == pattern;
    assert text[0..] == text;
    if text != "" {
      StarIsSomeSuffix(pattern, text[1..]);
      assert forall k :: 1 <= k <= |text| ==> text[k..] == text[1..][k - 1..];
      if k :| 0 <= k <= |text[1..]| && Glob(pattern, text[1..][k..]) {
        assert Glob(pattern, text[k + 1..]);
      }
    }
  }

  predicate LedByStar(pattern: string) {
    pattern != "" && pattern[0] == '*'
  }

  /** What matches after a leading star keeps matching with more text in front. */
  lemma StarTakesMore(pattern: string, text: string, k: nat)
    requires LedByStar(pattern) && k <= |text| && Glob(pattern, text[k..])
    ensures Glob(pattern, text)
  {
    StarTakes(pattern, text[..k], text[k..]);
    assert text[..k] + text[k..] == text;
  }

  lemma FindBefore(text: string, part: string, k: nat)
    requires k <= |text| && StartsWith(text[k..], part)
    ensures Find(text, part).Some? && Find(text, part).value <= k
  {
    hide Find;
  }

  lemma DropDrop<T>(s: seq<T>, i: nat, j: nat)
    requires i + j <= |s|
    ensures s[i..][j..] == s[i + j..]
  {
  }

  lemma EarlierIsEnough(part: string, pattern: string, text: string, k: nat, earlier: nat)
    requires LedByStar(pattern) && earlier <= k <= |text| && |part| <= |text[k..]|
    requires Glob(pattern, text[k..][|part|..])
    ensures Glob(pattern, text[earlier + |part|..])
  {
    hide Glob;
    var at := earlier + |part|;
    DropDrop(text, k, |part|);
    DropDrop(text, at, k + |part| - at);
    StarTakesMore(pattern, text[at..], k - earlier);
  }

  lemma LiteralHere(part: string, pattern: string, text: string)
    requires '*' !in part && Glob(part + pattern, text)
    ensures StartsWith(text, part) && |part| <= |text| && Glob(pattern, text[|part|..])
  {
    hide Glob;
    LiteralPrefix(part, pattern, text);
  }

  lemma AnyOccurrence(part: string, pattern: string, text: string, k: nat)
    requires '*' !in part && LedByStar(pattern) && k <= |text| && Glob(part + pattern, text[k..])
    ensures Find(text, part).Some? && Glob(pattern, text[Find(text, part).value + |part|..])
  {
    hide Glob, Find, LedByStar, StartsWith;
    LiteralHere(part, pattern, text[k..]);
    FindBefore(text, part, k);
    EarlierIsEnough(part, pattern, text, k, Find(text, part).value);
  }

  lemma FirstOccurrence(part: string, pattern: string, text: string)
    requires '*' !in part && Find(text, part).Some?
    requires Glob(pattern, text[Find(text, part).value + |part|..])
    ensures Glob(part + pattern, text[Find(text, part).value..])
  {
    hide Glob, Find;
    var at := Find(text, part).value;
    LiteralPrefix(part, pattern, text[at..]);
    DropDrop(text, at, |part|);
    assert StartsWith(text[at..], part);
  }

  /** The leftmost occurrence of a part is as good as any other. */
  lemma LeftmostIsEnough(part: string, pattern: string, text: string)
    requires '*' !in part && LedByStar(pattern)
    ensures Glob("*" + (part + pattern), text) <==>
            Find(text, part).Some? && Glob(pattern, text[Find(text, part).value + |part|..])
  {
    hide Glob, Find;
    StarIsSomeSuffix(part + pattern, text);
    if k :| 0 <= k <= |text| && Glob(part + pattern, text[k..]) {
      AnyOccurrence(part, pattern, text, k);
    }
    if Find(text, part).Some? && Glob(pattern, text[Find(text, part).value + |part|..]) {
      FirstOccurrence(part, pattern, text);
      assert 0 <= Find(text, part).value <= |text|;
    }
  }

  lemma LiteralOnly(literal: string, text: string)
    requires '*' !in literal
    ensures Glob(literal, text) <==> literal == text
  {
    LiteralPrefix(literal, "", text);
    assert literal + "" == literal;
  }

  lemma LastPart(last: string, text: string)
    requires '*' !in last
    ensures Glob("*" + last, text) <==> EndsWith(text, last)
  {
    StarIsSomeSuffix(last, text);
    forall k | 0 <= k <= |text| ensures Glob(last, text[k..]) <==> last == text[k..] {
      LiteralOnly(last, text[k..]);
    }
    if EndsWith(text, last) {
      assert Glob(last, text[|text| - |last|..]);
    }
  }

  /** What is left to match: the parts not yet found, and the last one. */
  function Todo(parts: Option<string>, last: string): string {
    if parts.Some? then "*" + (parts.value + ("*" + last)) else "*" + last
  }

  function FirstPart(parts: string): string {
    var next := FindFirst(parts, '*');
    if next.Some? then parts[..next.value] else parts
  }

  function OtherParts(parts: string): Option<string> {
    var next := FindFirst(parts, '*');
    if next.Some? then Some(parts[next.value + 1..]) else None
  }

  lemma PartStep(parts: string, last: string, rest: string)
    ensures Glob(Todo(Some(parts), last), rest) <==>
            var found := Find(rest, FirstPart(parts));
            found.Some? && Glob(Todo(OtherParts(parts), last), rest[found.value + |FirstPart(parts)|..])
  {
    hide Glob, Find;
    var part, others := FirstPart(parts), OtherParts(parts);
    var tail := Todo(others, last);
    if others.Some? {
      assert parts == part + ("*" + others.value);
      assert parts + ("*" + last) == part + tail;
    }
    LeftmostIsEnough(part, tail, rest);
  }

  /** The parts between the outer stars, each found leftmost past the one before it. */
  method MatchParts(middle: string, last: string, text: string) returns (matched: bool)
    requires '*' !in last
    ensures matched <==> Glob(Todo(Some(middle), last), text)
  {
    hide Glob, Find, Todo;
    var parts, rest := Some(middle), text;
    while parts.Some?
      invariant Glob(Todo(Some(middle), last), text) <==> Glob(Todo(parts, last), rest)
      decreases if parts.Some? then |parts.value| + 1 else 0
    {
      PartStep(parts.value, last, rest);
      var next := FindFirst(parts.value, '*');
      var part := if next.Some? then parts.value[..next.value] else parts.value;
      var found := Find(rest, part);
      if found.None? {
        return false;
      }
      rest := rest[found.value + |part|..];
      parts := if next.Some? then Some(parts.value[next.value + 1..]) else None;
    }
    LastPart(last, rest);
    TodoNone(last);
    matched := EndsWith(rest, last);
  }

  lemma TodoNone(last: string)
    ensures Todo(None, last) == "*" + last
  {
  }

  /** With one star there is one empty part between the outer stars, which is found at once. */
  lemma OneStar(last: string, text: string)
    ensures Glob("*" + last, text) <==> Glob(Todo(Some(""), last), text)
  {
    hide Glob;
    PartStep("", last, text);
    assert Find(text, "") == Some(0);
    assert text[0..] == text;
  }

  /** The pattern past its first star, at the text past what stood before that star. */
  method MatchPastStar(afterFirst: string, text: string) returns (matched: bool)
    ensures matched <==> Glob("*" + afterFirst, text)
  {
    hide Glob, Find;
    var lastStar := FindLast(afterFirst, '*');
    if lastStar.Some? {
      var middle, last := afterFirst[..lastStar.value], afterFirst[lastStar.value + 1..];
      assert afterFirst == middle + ("*" + last);
      matched := MatchParts(middle, last, text);
    } else {
      OneStar(afterFirst, text);
      matched := MatchParts("", afterFirst, text);
    }
  }

  lemma FirstStar(pattern: string, at: nat, text: string)
    requires at < |pattern| && pattern[at] == '*' && '*' !in pattern[..at]
    ensures Glob(pattern, text) <==>
            StartsWith(text, pattern[..at]) && Glob("*" + pattern[at + 1..], text[at..])
  {
    hide Glob;
    assert pattern == pattern[..at] + ("*" + pattern[at + 1..]);
    LiteralPrefix(pattern[..at], "*" + pattern[at + 1..], text);
  }

  /** The matcher: greedy and leftmost, one pass over the text. */
  method GlobMatch(pattern: string, text: string) returns (matched: bool)
    ensures matched <==> Glob(pattern, text)
    ensures matched <==> Spells(pattern, text)
  {
    hide Glob, Spells, Find;
    GlobIsSpells(pattern, text);
    var star := FindFirst(pattern, '*');
    if star.None? {
      LiteralOnly(pattern, text);
      return pattern == text;
    }
    FirstStar(pattern, star.value, text);
    if !StartsWith(text, pattern[..star.value]) {
      return false;
    }
    matched := MatchPastStar(pattern[star.value + 1..], text[star.value..]);
  }
}
