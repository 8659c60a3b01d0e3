/** The text operations of the standard library that the other modules lean on. */
module Strings {
  import opened Options

  type Byte = b: nat | b < 256

  predicate StartsWith(text: string, prefix: string) {
    prefix <= text
  }

  predicate EndsWith(text: string, suffix: string) {
    |suffix| <= |text| && text[|text| - |suffix|..] == suffix
  }

  /** Where `needle` first begins in `text`. */
  function Find(text: string, needle: string): (found: Option<nat>)
    ensures found.Some? ==>
              && found.value + |needle| <= |text|
              && text[found.value..found.value + |needle|] == needle
              && forall k :: 0 <= k < found.value ==> !StartsWith(text[k..], needle)
    ensures found.None? ==> forall k :: 0 <= k <= |text| ==> !StartsWith(text[k..], needle)
  {
    if needle <= text then
      assert text[0..|needle|] == needle;
      Some(0)
    else if text == "" then None
    else
      var rest := Find(text[1..], needle);
      assert forall k :: 1 <= k <= |text| ==> text[k..] == text[1..][k - 1..];
      assert text[0..] == text;
      if rest.Some? then
        assert text[rest.value + 1..rest.value + 1 + |needle|] == text[1..][rest.value..rest.value + |needle|];
        Some(rest.value + 1)
      else None
  }

  /** Where the item first stands. */
  function FindFirst<T(==)>(items: seq<T>, item: T): (found: Option<nat>)
    ensures found.Some? ==> found.value < |items| && items[found.value] == item && item !in items[..found.value]
    ensures found.None? ==> item !in items
  {
    if items == [] then None
    else if items[0] == item then Some(0)
    else
      var rest := FindFirst(items[1..], item);
      if rest.Some? then
        assert items[..rest.value + 1] == [items[0]] + items[1..][..rest.value];
        Some(rest.value + 1)
      else None
  }

  /** Where the item last stands. */
  function FindLast<T(==)>(items: seq<T>, item: T): (found: Option<nat>)
    ensures found.Some? ==> found.value < |items| && items[found.value] == item && item !in items[found.value + 1..]
    ensures found.None? ==> item !in items
  {
    if items == [] then None
    else if items[|items| - 1] == item then Some(|items| - 1)
    else
      var rest := FindLast(items[..|items| - 1], item);
      if rest.Some? then
        assert items[rest.value + 1..] == items[..|items| - 1][rest.value + 1..] + [items[|items| - 1]];
        rest
      else None
  }

  lemma {:induction false} FoundFirst<T>(before: seq<T>, item: T, after: seq<T>)
    requires item !in before
    ensures FindFirst(before + [item] + after, item) == Some(|before|)
    decreases before
  {
    if before != [] {
      FoundFirst(before[1..], item, after);
      assert (before + [item] + after)[1..] == before[1..] + [item] + after;
    }
  }

  lemma {:induction false} FoundLast<T>(before: seq<T>, item: T, after: seq<T>)
    requires item !in after
    ensures FindLast(before + [item] + after, item) == Some(|before|)
    decreases after
  {
    if after != [] {
      var init := after[..|after| - 1];
      var items := before + [item] + after;
      FoundLast(before, item, init);
      assert items[..|items| - 1] == before + [item] + init;
    }
  }

  function LowerChar(c: char): char {
    if 'A' <= c <= 'Z' then c + 32 as char else c
  }

  /** ASCII letters folded to lower case, every other character kept. */
  function Lower(text: string): (lowered: string)
    ensures |lowered| == |text|
    ensures forall i :: 0 <= i < |text| ==> lowered[i] == LowerChar(text[i])
  {
    if text == "" then "" else [LowerChar(text[0])] + Lower(text[1..])
  }

  /** The characters the standard library trims: Unicode's White_Space. */
  predicate IsWhitespace(c: char) {
    || '\U{0009}' <= c <= '\U{000D}' || c == ' ' || c == '\U{0085}' || c == '\U{00A0}' || c == '\U{1680}'
    || '\U{2000}' <= c <= '\U{200A}' || c == '\U{2028}' || c == '\U{2029}' || c == '\U{202F}'
    || c == '\U{205F}' || c == '\U{3000}'
  }

  function TrimStart(text: string): string {
    if text != "" && IsWhitespace(text[0]) then TrimStart(text[1..]) else text
  }

  function TrimEnd(text: string): string {
    if text != "" && IsWhitespace(text[|text| - 1]) then TrimEnd(text[..|text| - 1]) else text
  }

  function Trim(text: string): string {
    TrimEnd(TrimStart(text))
  }
}
