/**
 What masking does to the shapes it is for, in closed form: lists of addresses with whitespace
 between them, an address behind a scheme, and a password that looks like it holds one.
 */
module TextRedactForms {
  import opened Options
  import opened Strings
  import opened TextRedact

  // ---------------------------------------------------------------------------- basic moves

  /** Only where the next `@` is counts, not from where it is looked for. */
  lemma SameNext(text: string, j: nat, k: nat, from: nat)
    requires from <= j <= |text| && from <= k <= |text| && MarkFrom(text, j, At) == MarkFrom(text, k, At)
    ensures Rest(text, j, from) == Rest(text, k, from)
  {
    hide MarkFrom, EndsLater, MaskStart, Masked, Ordered;
  }

  lemma MarkFromIs(text: string, k: nat, at: nat)
    requires k <= at < |text| && text[at] == '@' && '@' !in text[k..at]
    ensures MarkFrom(text, k, At) == Some(at)
  {
    var found := MarkFrom(text, k, At);
    assert Marks(text, at, At);
    assert found.Some? && found.value <= at;
  }

  lemma MarkFromNone(text: string, k: nat)
    requires k <= |text| && '@' !in text[k..]
    ensures MarkFrom(text, k, At).None?
  {
  }

  lemma NoneFound(text: string, k: nat)
    requires k <= |text| && MarkFrom(text, k, At).None?
    ensures '@' !in text[k..]
  {
    forall i | 0 <= i < |text[k..]| ensures text[k..][i] != '@' {
      assert !Marks(text, k + i, At);
    }
  }

  lemma FoundIs(text: string, k: nat)
    requires k <= |text| && MarkFrom(text, k, At).Some?
    ensures var at := MarkFrom(text, k, At).value; k <= at < |text| && text[at] == '@' && '@' !in text[k..at]
  {
    var at := MarkFrom(text, k, At).value;
    forall i | 0 <= i < |text[k..at]| ensures text[k..at][i] != '@' {
      assert !Marks(text, k + i, At);
    }
  }

  // ---------------------------------------------------------------- whitespace in between

  predicate IsBoundary(c: char) {
    c == ' ' || c == '\t' || c == '\n'
  }

  /** Where masking starts depends on what stands in front of the `@` alone. */
  lemma MaskStartInFront(text: string, front: string, from: nat, at: nat)
    requires from <= at <= |text| && at <= |front| && text[..at] == front[..at]
    ensures MaskStart(text, from, at) == MaskStart(front, from, at)
  {
    hide AfterBoundary, SchemeDelimiterEnd, UserinfoDelimiterEnd;
    SegmentInFront(text, front, from, at);
    var start := SegmentStart(text, from, at);
    SliceInFront(text, front, start, at);
  }

  lemma SegmentInFront(text: string, front: string, from: nat, at: nat)
    requires from <= at <= |text| && at <= |front| && text[..at] == front[..at]
    ensures SegmentStart(text, from, at) == SegmentStart(front, from, at)
  {
    hide AfterBoundary, SchemeDelimiterEnd;
    SliceInFront(text, front, Max(AfterBoundary(text[..at]), from), at);
  }

  lemma SliceInFront(text: string, front: string, from: nat, at: nat)
    requires from <= at <= |text| && at <= |front| && text[..at] == front[..at]
    ensures text[from..at] == front[from..at]
  {
    assert text[..at][from..] == text[from..at] && front[..at][from..] == front[from..at];
  }

  lemma LastOfBoth(a: string, sep: char, b: string)
    requires b != ""
    ensures var text := a + [sep] + b;
            && text[..|text| - 1] == a + [sep] + b[..|b| - 1]
            && (Marks(text, |text| - 1, Boundary) <==> Marks(b, |b| - 1, Boundary))
  {
  }

  /** A boundary in front moves the last boundary's place, and hides all before it. */
  lemma {:induction false} BoundaryBehind(a: string, sep: char, b: string)
    requires IsBoundary(sep)
    ensures AfterBoundary(a + [sep] + b) == |a| + 1 + AfterBoundary(b)
    decreases b
  {
    var text := a + [sep] + b;
    if b == "" {
      assert text[|text| - 1] == sep;
    } else {
      hide Marks;
      LastOfBoth(a, sep, b);
      if !Marks(b, |b| - 1, Boundary) {
        BoundaryBehind(a, sep, b[..|b| - 1]);
      }
    }
  }

  /** How far into the rest masking may not reach back. */
  function Within(n: nat, from: nat): nat {
    if from <= n then 0 else from - n
  }

  lemma BaseBehind(a: string, sep: char, b: string, from: nat, at: nat)
    requires IsBoundary(sep) && at <= |b| && from <= |a| + 1 + at
    ensures var n := |a| + 1;
            Max(AfterBoundary((a + [sep] + b)[..n + at]), from) == n + Max(AfterBoundary(b[..at]), Within(n, from))
  {
    hide AfterBoundary;
    assert (a + [sep] + b)[..|a| + 1 + at] == a + [sep] + b[..at];
    BoundaryBehind(a, sep, b[..at]);
  }

  lemma SegmentBehind(a: string, sep: char, b: string, from: nat, at: nat)
    requires IsBoundary(sep) && at <= |b| && from <= |a| + 1 + at
    ensures var n := |a| + 1; SegmentStart(a + [sep] + b, from, n + at) == n + SegmentStart(b, Within(n, from), at)
  {
    hide AfterBoundary, SchemeDelimiterEnd, Max, IsBoundary;
    var n, text := |a| + 1, a + [sep] + b;
    BaseBehind(a, sep, b, from, at);
    var base := Max(AfterBoundary(b[..at]), Within(n, from));
    assert base <= at by { BaseFits(b, Within(n, from), at); }
    SliceBehind(a, sep, b, base, at);
  }

  lemma BaseFits(text: string, from: nat, at: nat)
    requires from <= at <= |text|
    ensures Max(AfterBoundary(text[..at]), from) <= at
  {
  }

  /** Behind a boundary masking starts where it does in the rest alone. */
  lemma MaskStartBehind(a: string, sep: char, b: string, from: nat, at: nat)
    requires IsBoundary(sep) && at <= |b| && from <= |a| + 1 + at
    ensures var n := |a| + 1;
            var behind := MaskStart(b, Within(n, from), at);
            MaskStart(a + [sep] + b, from, n + at) == if behind.Some? then Some(n + behind.value) else None
  {
    hide SegmentStart, UserinfoDelimiterEnd;
    SegmentBehind(a, sep, b, from, at);
    SliceBehind(a, sep, b, SegmentStart(b, Within(|a| + 1, from), at), at);
  }

  lemma SliceBehind(a: string, sep: char, b: string, from: nat, at: nat)
    requires from <= at <= |b|
    ensures (a + [sep] + b)[|a| + 1 + from..|a| + 1 + at] == b[from..at]
  {
  }

  lemma NextBehind(a: string, sep: char, b: string, k: nat)
    requires k <= |b|
    ensures var n, next := |a| + 1, MarkFrom(b, k, At);
            MarkFrom(a + [sep] + b, n + k, At) == if next.Some? then Some(n + next.value) else None
  {
    var n, text := |a| + 1, a + [sep] + b;
    if MarkFrom(b, k, At).Some? {
      FoundIs(b, k);
      var at := MarkFrom(b, k, At).value;
      SliceBehind(a, sep, b, k, at);
      MarkFromIs(text, n + k, n + at);
    } else {
      NoneFound(b, k);
      assert text[n + k..] == b[k..];
      MarkFromNone(text, n + k);
    }
  }

  lemma EndsLaterBehind(a: string, sep: char, b: string, at: nat)
    requires at < |b|
    ensures EndsLater(a + [sep] + b, |a| + 1 + at) == EndsLater(b, at)
  {
    hide Clean, EndsLater, MarkFrom;
    var n, text := |a| + 1, a + [sep] + b;
    NextIsEnough(text, n + at);
    NextIsEnough(b, at);
    NextBehind(a, sep, b, at + 1);
    var next := MarkFrom(b, at + 1, At);
    if next.Some? {
      FoundIs(b, at + 1);
      SliceBehind(a, sep, b, at + 1, next.value);
    }
  }

  /** The text up to and with the boundary, as far as it is still to be written. */
  function Kept(text: string, n: nat, from: nat): string
    requires n <= |text|
  {
    if from <= n then text[from..n] else ""
  }

  /** What is left to write behind a boundary is the text up to it, then what the rest alone leaves. */
  lemma {:induction false} RestBehind(a: string, sep: char, b: string, k: nat, from: nat)
    requires IsBoundary(sep) && k <= |b| && from <= |a| + 1 + k
    ensures var n, text := |a| + 1, a + [sep] + b;
            Rest(text, n + k, from) == Kept(text, n, from) + Rest(b, k, Within(n, from))
    decreases |b| - k
  {
    hide Rest, MarkFrom, EndsLater, MaskStart, Kept, IsBoundary;
    var n, text := |a| + 1, a + [sep] + b;
    var within, next := Within(n, from), MarkFrom(b, k, At);
    NextBehind(a, sep, b, k);
    if next.None? {
      NoneLeft(text, n + k, from);
      NoneLeft(b, k, within);
      TailBehind(a, sep, b, from);
    } else {
      FoundIs(b, k);
      var at := next.value;
      EndsLaterBehind(a, sep, b, at);
      MaskStartBehind(a, sep, b, from, at);
      if EndsLater(b, at) || MaskStart(b, within, at).None? {
        PassedBy(text, n + k, from, n + at);
        PassedBy(b, k, within, at);
        RestBehind(a, sep, b, at + 1, from);
      } else {
        RestBehind(a, sep, b, at + 1, n + at);
        CoveredBehind(a, sep, b, k, from, at);
      }
    }
  }

  /** The step of that argument in which a span is masked. */
  lemma CoveredBehind(a: string, sep: char, b: string, k: nat, from: nat, at: nat)
    requires IsBoundary(sep) && k <= at < |b| && from <= |a| + 1 + k
    requires MarkFrom(b, k, At) == Some(at) && MarkFrom(a + [sep] + b, |a| + 1 + k, At) == Some(|a| + 1 + at)
    requires !EndsLater(b, at) && !EndsLater(a + [sep] + b, |a| + 1 + at)
    requires MaskStart(b, Within(|a| + 1, from), at).Some?
    requires var n, text := |a| + 1, a + [sep] + b;
             Rest(text, n + at + 1, n + at) == Kept(text, n, n + at) + Rest(b, at + 1, Within(n, n + at))
    ensures var n, text := |a| + 1, a + [sep] + b;
            Rest(text, n + k, from) == Kept(text, n, from) + Rest(b, k, Within(n, from))
  {
    hide Rest, MarkFrom, EndsLater, MaskStart, Kept, IsBoundary;
    var n, text := |a| + 1, a + [sep] + b;
    var within := Within(n, from);
    MaskStartBehind(a, sep, b, from, at);
    var start := MaskStart(b, within, at).value;
    CoveredUp(text, n + k, from, n + at);
    CoveredUp(b, k, within, at);
    NothingKept(text, n, at, Rest(b, at + 1, at));
    PieceBehind(a, sep, b, from, start);
    AssocMask(Kept(text, n, from), b[within..start], MASK, Rest(b, at + 1, at));
  }

  lemma NothingKept(text: string, n: nat, at: nat, rest: string)
    requires n <= |text|
    ensures Kept(text, n, n + at) + rest == rest && Within(n, n + at) == at
  {
    assert Kept(text, n, n + at) == "";
  }

  lemma TailBehind(a: string, sep: char, b: string, from: nat)
    requires from <= |a| + 1 + |b|
    ensures var n, text := |a| + 1, a + [sep] + b;
            Within(n, from) <= |b| && text[from..] == Kept(text, n, from) + b[Within(n, from)..]
  {
  }

  lemma PieceBehind(a: string, sep: char, b: string, from: nat, upto: nat)
    requires upto <= |b| && from <= |a| + 1 + upto
    ensures var n, text := |a| + 1, a + [sep] + b;
            Within(n, from) <= upto && text[from..n + upto] == Kept(text, n, from) + b[Within(n, from)..upto]
  {
  }

  lemma AssocMask(front: string, piece: string, mask: string, rest: string)
    ensures (front + piece) + mask + rest == front + (piece + mask + rest)
  {
  }

  /** In front of a boundary every `@` is treated as if the text ended there. */
  lemma EndsLaterInFront(a: string, sep: char, b: string, at: nat)
    requires IsBoundary(sep) && at < |a|
    ensures EndsLater(a + [sep] + b, at) == EndsLater(a, at)
  {
    hide EndsLater, MarkFrom, Clean;
    var text := a + [sep] + b;
    NextIsEnough(text, at);
    NextIsEnough(a, at);
    NextInFront(a, sep, b, at + 1);
    var next, whole := MarkFrom(a, at + 1, At), MarkFrom(text, at + 1, At);
    if next.Some? {
      FoundIs(a, at + 1);
      assert text[at + 1..next.value] == a[at + 1..next.value];
    } else if whole.Some? {
      FoundIs(text, at + 1);
      NotClean(text[at + 1..whole.value], sep, |a| - (at + 1));
    }
  }

  lemma NotClean(between: string, sep: char, i: nat)
    requires IsBoundary(sep) && i < |between| && between[i] == sep
    ensures !Clean(between)
  {
  }

  lemma NextInFront(a: string, sep: char, b: string, k: nat)
    requires k <= |a| && sep != '@'
    ensures var text := a + [sep] + b;
            MarkFrom(text, k, At) ==
              (if MarkFrom(a, k, At).Some? then MarkFrom(a, k, At) else MarkFrom(text, |a| + 1, At))
    ensures MarkFrom(a, k, At).None? && MarkFrom(a + [sep] + b, k, At).Some? ==>
              MarkFrom(a + [sep] + b, k, At).value > |a|
  {
    hide MarkFrom;
    var text := a + [sep] + b;
    if MarkFrom(a, k, At).Some? {
      FoundIs(a, k);
      var at := MarkFrom(a, k, At).value;
      assert text[k..at] == a[k..at];
      MarkFromIs(text, k, at);
    } else {
      NoneFound(a, k);
      var later := MarkFrom(text, |a| + 1, At);
      if later.Some? {
        FoundIs(text, |a| + 1);
        assert text[k..later.value] == a[k..] + [sep] + text[|a| + 1..later.value];
        MarkFromIs(text, k, later.value);
      } else {
        NoneFound(text, |a| + 1);
        assert text[k..] == a[k..] + [sep] + text[|a| + 1..];
        MarkFromNone(text, k);
      }
    }
  }

  lemma {:induction false} RestInFront(a: string, sep: char, b: string, k: nat, from: nat)
    requires IsBoundary(sep) && from <= k <= |a|
    ensures Rest(a + [sep] + b, k, from) == Rest(a, k, from) + ([sep] + Redacted(b))
    decreases |a| - k
  {
    hide Rest, MarkFrom, EndsLater, MaskStart;
    var n, text := |a| + 1, a + [sep] + b;
    var next := MarkFrom(a, k, At);
    NextInFront(a, sep, b, k);
    if next.None? {
      NoneLeft(a, k, from);
      SameNext(text, k, n, from);
      RestBehind(a, sep, b, 0, from);
      assert text[from..n] == a[from..] + [sep];
    } else {
      FoundIs(a, k);
      var at := next.value;
      EndsLaterInFront(a, sep, b, at);
      assert text[..at] == a[..at];
      MaskStartInFront(text, a, from, at);
      var start := MaskStart(a, from, at);
      if EndsLater(a, at) || start.None? {
        PassedBy(text, k, from, at);
        PassedBy(a, k, from, at);
        RestInFront(a, sep, b, at + 1, from);
      } else {
        CoveredUp(text, k, from, at);
        CoveredUp(a, k, from, at);
        RestInFront(a, sep, b, at + 1, at);
        assert text[from..start.value] == a[from..start.value];
        AssocRest(a[from..start.value], MASK, Rest(a, at + 1, at), [sep] + Redacted(b));
      }
    }
  }

  lemma AssocRest(piece: string, mask: string, rest: string, tail: string)
    ensures piece + mask + (rest + tail) == (piece + mask + rest) + tail
  {
  }

  /** Whitespace separates: each side of a space, tab or line feed is masked as if it stood alone. */
  lemma WhitespaceSeparates(a: string, sep: char, b: string)
    requires sep == ' ' || sep == '\t' || sep == '\n'
    ensures Redacted(a + [sep] + b) == Redacted(a) + [sep] + Redacted(b)
  {
    hide Rest;
    RestInFront(a, sep, b, 0, 0);
  }

  // ------------------------------------------------------------------------- behind a scheme

  /** Every `@` up to the last is looked past, so one span is masked at most, where the last one says. */
  lemma {:induction false} OneMask(text: string, k: nat, last: nat)
    requires k <= last < |text| && text[last] == '@' && '@' !in text[last + 1..] && Clean(text[k..last])
    ensures var start := MaskStart(text, 0, last);
            Rest(text, k, 0) == if start.Some? then text[..start.value] + MASK + text[last..] else text
    decreases last - k
  {
    hide Clean, Rest, MaskStart, EndsLater, MarkFrom;
    var at := FirstAt(text, k, last);
    if at < last {
      CleanPart(text, k, at + 1, last);
      EndsLaterBy(text, at, last);
      PassedBy(text, k, 0, at);
      OneMask(text, at + 1, last);
    } else {
      LastEndsItself(text, last);
      NoneAfter(text, last);
      if MaskStart(text, 0, last).Some? {
        CoveredUp(text, k, 0, last);
        NoneLeft(text, last + 1, last);
        assert text[0..MaskStart(text, 0, last).value] == text[..MaskStart(text, 0, last).value];
      } else {
        PassedBy(text, k, 0, last);
        NoneLeft(text, last + 1, 0);
        assert text[0..] == text;
      }
    }
  }

  lemma FirstAt(text: string, k: nat, last: nat) returns (at: nat)
    requires k <= last < |text| && text[last] == '@'
    ensures k <= at <= last && MarkFrom(text, k, At) == Some(at)
  {
    var found := MarkFrom(text, k, At);
    assert Marks(text, last, At);
    at := found.value;
  }

  lemma CleanPart(text: string, k: nat, from: nat, upto: nat)
    requires k <= from <= upto <= |text| && Clean(text[k..upto])
    ensures Clean(text[from..upto])
  {
    CleanSlice(text[k..upto], from - k, upto - k);
    assert text[k..upto][from - k..upto - k] == text[from..upto];
  }

  /** Nothing that could end a user name, no `@` and no whitespace: what may stand in front of `://`. */
  predicate SchemeText(pre: string) {
    UserinfoDelimiterEnd(pre).None? && forall c :: c in pre ==> c != '@' && !IsBoundary(c)
  }

  lemma NoDelimiterNoColon(pre: string)
    requires UserinfoDelimiterEnd(pre).None?
    ensures forall i :: 0 <= i < |pre| ==> pre[i] != ':'
  {
    assert FirstMark(pre, Colon).None?;
    forall i | 0 <= i < |pre| ensures pre[i] != ':' {
      assert !Marks(pre, i, Colon);
    }
  }

  lemma {:induction false} NoBoundaryIn(text: string)
    requires forall i :: 0 <= i < |text| ==> !IsBoundary(text[i])
    ensures AfterBoundary(text) == 0
  {
  }

  lemma FirstSchemeIs(text: string, at: nat)
    requires Marks(text, at, Scheme) && forall i :: 0 <= i < at ==> text[i] != ':'
    ensures FirstMark(text, Scheme) == Some(at)
  {
    var found := MarkFrom(text, 0, Scheme);
    assert found.Some? && found.value <= at;
  }

  /** The end of `://` is found behind a text that may be a scheme. */
  lemma SchemeFound(pre: string, front: string)
    requires UserinfoDelimiterEnd(pre).None?
    ensures SchemeDelimiterEnd(pre + "://" + front) == Some(|pre| + 3)
  {
    hide UserinfoDelimiterEnd;
    var text := pre + "://" + front;
    NoDelimiterNoColon(pre);
    assert text[..|pre|] == pre;
    FirstSchemeIs(text, |pre|);
  }

  /** Behind a scheme, masking starts where it would in the rest alone. */
  lemma SchemeMaskStart(pre: string, body: string, at: nat)
    requires SchemeText(pre) && Clean(body) && at <= |body|
    ensures var n, delimiter := |pre| + 3, UserinfoDelimiterEnd(body[..at]);
            MaskStart(pre + "://" + body, 0, n + at) == if delimiter.Some? then Some(n + delimiter.value) else None
  {
    hide AfterBoundary, SchemeDelimiterEnd, UserinfoDelimiterEnd;
    var n, text := |pre| + 3, pre + "://" + body;
    var front := pre + "://" + body[..at];
    assert text[..n + at] == front && text[0..n + at] == front;
    NoBoundaryInFront(pre, body, at);
    SchemeFound(pre, body[..at]);
    assert text[n..n + at] == body[..at];
  }

  lemma NoBoundaryInFront(pre: string, body: string, at: nat)
    requires SchemeText(pre) && Clean(body) && at <= |body|
    ensures AfterBoundary(pre + "://" + body[..at]) == 0
  {
    hide AfterBoundary, UserinfoDelimiterEnd;
    var front := pre + "://" + body[..at];
    forall i | 0 <= i < |front| ensures !IsBoundary(front[i]) {
      if i < |pre| { assert front[i] in pre; }
      else if i >= |pre| + 3 { assert front[i] == body[i - |pre| - 3]; }
    }
    NoBoundaryIn(front);
  }

  /** An address behind a scheme: the scheme as written, and the rest masked as it would be alone. */
  lemma SchemeIsKept(pre: string, body: string)
    requires SchemeText(pre) && Clean(body)
    ensures Redacted(pre + "://" + body) == pre + "://" + Plainly(body)
  {
    hide Clean, Rest, UserinfoDelimiterEnd, MaskStart, MarkFrom, IsBoundary, SchemeText, Redacted;
    var text := pre + "://" + body;
    NoAtInScheme(pre);
    var last := FindLast(body, '@');
    if last.None? {
      assert text == (pre + "://") + body;
      NothingToMask(text);
    } else {
      SchemeLast(pre, body, last.value);
      SchemeMaskStart(pre, body, last.value);
      SchemePieces(pre, body, last.value, UserinfoDelimiterEnd(body[..last.value]));
    }
  }

  lemma SchemeLast(pre: string, body: string, last: nat)
    requires SchemeText(pre) && Clean(body) && last < |body| && body[last] == '@' && '@' !in body[last + 1..]
    ensures var n, text := |pre| + 3, pre + "://" + body;
            var start := MaskStart(text, 0, n + last);
            Redacted(text) == if start.Some? then text[..start.value] + MASK + text[n + last..] else text
  {
    hide Clean, Rest, MaskStart, MarkFrom, IsBoundary, SchemeText;
    var n, text := |pre| + 3, pre + "://" + body;
    NoAtInScheme(pre);
    assert text[..n] == pre + "://";
    NextIsBehind(text, n);
    SameNext(text, 0, n, 0);
    CleanSlice(body, 0, last);
    assert text[n..n + last] == body[0..last];
    assert text[n + last + 1..] == body[last + 1..];
    OneMask(text, n, n + last);
  }

  lemma SchemePieces(pre: string, body: string, last: nat, delimiter: Option<nat>)
    requires last <= |body| && (delimiter.Some? ==> delimiter.value <= last)
    ensures var n, text := |pre| + 3, pre + "://" + body;
            delimiter.Some? ==>
              text[..n + delimiter.value] + MASK + text[n + last..] ==
                pre + "://" + (body[..delimiter.value] + MASK + body[last..])
  {
  }

  lemma NoAtInScheme(pre: string)
    requires SchemeText(pre)
    ensures '@' !in pre + "://"
  {
  }

  lemma NextIsBehind(text: string, n: nat)
    requires n <= |text| && '@' !in text[..n]
    ensures MarkFrom(text, 0, At) == MarkFrom(text, n, At)
  {
    hide MarkFrom;
    if MarkFrom(text, n, At).Some? {
      FoundIs(text, n);
      var at := MarkFrom(text, n, At).value;
      assert text[0..at] == text[..n] + text[n..at];
      MarkFromIs(text, 0, at);
    } else {
      NoneFound(text, n);
      assert text[0..] == text[..n] + text[n..];
      MarkFromNone(text, 0);
    }
  }

  // ------------------------------------------------------------- a password with its own `://`

  /** A password is masked whole although it holds slashes or what looks like a scheme's end. */
  lemma PasswordIsMaskedWhole(user: string, password: string, host: string)
    requires UserinfoDelimiterEnd(user).None? && !StartsWith(password, "//")
    requires forall c :: c in user + password ==> c != '@' && !IsBoundary(c)
    requires '@' !in host
    ensures Redacted(user + ":" + password + "@" + host) == user + ":" + "***" + "@" + host
  {
    hide Rest, MaskStart, MarkFrom, IsBoundary, UserinfoDelimiterEnd, StartsWith;
    var front := user + ":" + password;
    var text := front + "@" + host;
    var at := |front|;
    assert user + ":" + password + "@" + host == text;
    assert text[at] == '@' && text[at + 1..] == host && text[at..at] == "";
    NoAtInFront(user, password);
    assert text[..at] == front;
    NextIsBehind(text, at);
    SameNext(text, 0, at, 0);
    CleanNothing();
    OneMask(text, at, at);
    PasswordMaskStart(user, password, host);
    assert text[..|user| + 1] == user + ":";
    assert text[at..] == "@" + host;
  }

  lemma CleanNothing()
    ensures Clean("")
  {
  }

  lemma NoAtInFront(user: string, password: string)
    requires forall c :: c in user + password ==> c != '@' && !IsBoundary(c)
    ensures '@' !in user + ":" + password
    ensures AfterBoundary(user + ":" + password) == 0
  {
    var front := user + ":" + password;
    forall i | 0 <= i < |front| ensures front[i] != '@' && !IsBoundary(front[i]) {
      if i < |user| { assert front[i] in user + password; }
      else if i > |user| { assert front[i] == (user + password)[i - 1] && (user + password)[i - 1] in user + password; }
    }
    NoBoundaryIn(front);
  }

  lemma PasswordMaskStart(user: string, password: string, host: string)
    requires UserinfoDelimiterEnd(user).None? && !StartsWith(password, "//")
    requires forall c :: c in user + password ==> c != '@' && !IsBoundary(c)
    ensures var front := user + ":" + password;
            MaskStart(front + "@" + host, 0, |front|) == Some(|user| + 1)
  {
    hide AfterBoundary, IsBoundary, SchemeDelimiterEnd, UserinfoDelimiterEnd, StartsWith;
    var front := user + ":" + password;
    var text := front + "@" + host;
    assert text[..|front|] == front && text[0..|front|] == front;
    NoAtInFront(user, password);
    ColonDelimits(user, password);
    NoSchemeInFront(user, password);
  }

  lemma ColonDelimits(user: string, rest: string)
    requires UserinfoDelimiterEnd(user).None?
    ensures UserinfoDelimiterEnd(user + ":" + rest) == Some(|user| + 1)
  {
    var front := user + ":" + rest;
    NoDelimiterNoColon(user);
    var literal, encoded := FirstMark(front, Colon), FirstMark(front, EncodedColon);
    assert Marks(front, |user|, Colon);
    assert literal == Some(|user|) by {
      forall i | 0 <= i < |user| ensures !Marks(front, i, Colon) { assert front[i] == user[i]; }
    }
    assert encoded.Some? ==> encoded.value > |user| by { EncodedBehind(user, rest); }
  }

  /** An encoded colon cannot begin in the user name, nor run across the literal one. */
  lemma EncodedBehind(user: string, rest: string)
    requires UserinfoDelimiterEnd(user).None?
    ensures forall i: nat :: i <= |user| ==> !Marks(user + ":" + rest, i, EncodedColon)
  {
    var front := user + ":" + rest;
    assert FirstMark(user, EncodedColon).None?;
    forall i: nat | i <= |user| ensures !Marks(front, i, EncodedColon) {
      if i + 3 <= |user| {
        assert !Marks(user, i, EncodedColon);
        assert front[i] == user[i] && front[i + 1] == user[i + 1] && front[i + 2] == user[i + 2];
      } else {
        assert front[|user|] == ':';
      }
    }
  }

  /** The first `://`, if any, stands behind the user's own colon, so it is no scheme's. */
  lemma NoSchemeInFront(user: string, password: string)
    requires UserinfoDelimiterEnd(user).None? && !StartsWith(password, "//")
    ensures SchemeDelimiterEnd(user + ":" + password).None?
  {
    hide UserinfoDelimiterEnd;
    var front := user + ":" + password;
    var found := FirstMark(front, Scheme);
    if found.Some? {
      SchemeBehindColon(user, password, found.value);
      var rest := front[|user| + 1..found.value];
      assert front[..found.value] == user + ":" + rest;
      ColonDelimits(user, rest);
    }
  }

  lemma SchemeBehindColon(user: string, password: string, at: nat)
    requires UserinfoDelimiterEnd(user).None? && !StartsWith(password, "//")
    ensures at <= |user| ==> !Marks(user + ":" + password, at, Scheme)
  {
    hide UserinfoDelimiterEnd;
    var front := user + ":" + password;
    NoDelimiterNoColon(user);
    if at < |user| {
      assert front[at] == user[at];
    } else if at == |user| && |password| >= 2 {
      assert front[at + 1] == password[0] && front[at + 2] == password[1];
      assert password[..2] == [password[0], password[1]];
    }
  }

  // --------------------------------------------------------------------- a carriage return

  /** A name that no part of the scan takes for anything. */
  predicate PlainName(text: string) {
    forall i :: 0 <= i < |text| ==> text[i] !in [':', '%', '@', ' ', '\t', '\n']
  }

  /** A password: no `@`, no hard boundary, and not what would make a scheme of the user in front. */
  predicate PlainPassword(text: string) {
    (forall i :: 0 <= i < |text| ==> text[i] !in ['@', ' ', '\t', '\n']) && !StartsWith(text, "//")
  }

  lemma PlainHasNoDelimiter(text: string)
    requires forall i :: 0 <= i < |text| ==> text[i] != ':' && text[i] != '%'
    ensures UserinfoDelimiterEnd(text).None?
  {
  }

  /** Where masking starts behind an earlier `@`, a carriage return in between. */
  lemma StartPastReturn(front: string, between: string, user: string, password: string, tail: string)
    requires forall i :: 0 <= i < |front| ==> !IsBoundary(front[i])
    requires PlainName(between) && PlainName(user) && PlainPassword(password)
    ensures var middle := "@" + between + "\r" + user;
            var upto := front + middle + ":" + password;
            MaskStart(upto + "@" + tail, |front|, |upto|) == Some(|front + middle| + 1)
  {
    hide AfterBoundary, SchemeDelimiterEnd, UserinfoDelimiterEnd, StartsWith, PlainName, PlainPassword, IsBoundary;
    var middle := "@" + between + "\r" + user;
    var segment := middle + ":" + password;
    var upto := front + middle + ":" + password;
    var text := upto + "@" + tail;
    assert upto == front + segment;
    assert text[..|upto|] == upto && text[|front|..|upto|] == segment;
    MiddleIsPlain(between, user, password);
    NoBoundaryTwice(front, segment);
    ColonDelimits(middle, password);
    NoSchemeInFront(middle, password);
  }

  lemma MiddleIsPlain(between: string, user: string, password: string)
    requires PlainName(between) && PlainName(user) && PlainPassword(password)
    ensures var middle := "@" + between + "\r" + user;
            && UserinfoDelimiterEnd(middle).None? && !StartsWith(password, "//")
            && forall i :: 0 <= i < |middle + ":" + password| ==> !IsBoundary((middle + ":" + password)[i])
  {
    PlainHasNoDelimiter("@" + between + "\r" + user);
  }

  lemma NoBoundaryTwice(front: string, segment: string)
    requires forall i :: 0 <= i < |front| ==> !IsBoundary(front[i])
    requires forall i :: 0 <= i < |segment| ==> !IsBoundary(segment[i])
    ensures AfterBoundary(front + segment) == 0
  {
    hide AfterBoundary, IsBoundary;
    NoBoundaryIn(front + segment);
  }

  /** Two occurrences with something between them that the first `@` cannot be looked past. */
  lemma TwoOccurrences(text: string, at: nat, next: nat, first: nat, second: nat)
    requires at < next < |text| && text[at] == '@' && text[next] == '@'
    requires '@' !in text[0..at] && '@' !in text[at + 1..next] && '@' !in text[next + 1..]
    requires !Clean(text[at + 1..next])
    requires MaskStart(text, 0, at) == Some(first) && MaskStart(text, at, next) == Some(second)
    ensures first <= at <= second <= next
    ensures Redacted(text) == text[0..first] + "***" + (text[at..second] + "***" + text[next..])
  {
    hide Rest, MaskStart, MarkFrom, Clean, EndsLater;
    MarkFromIs(text, 0, at);
    MarkFromIs(text, at + 1, next);
    NextIsEnough(text, at);
    LastEndsItself(text, next);
    NoneAfter(text, next);
    CoveredUp(text, 0, 0, at);
    CoveredUp(text, at + 1, at, next);
    NoneLeft(text, next + 1, next);
  }

  /** The texts that the masked pieces are cut from, glued in the ways the steps need. */
  lemma ReturnTexts(
      user: string, password: string, host: string, nextUser: string, nextPassword: string, nextHost: string)
    ensures var front, later := user + ":" + password, host + "\r" + nextUser + ":" + nextPassword;
            var text := front + "@" + (later + "@" + nextHost);
            && text == user + ":" + password + "@" + (host + "\r" + nextUser + ":" + nextPassword + "@" + nextHost)
            && text == front + ("@" + host + "\r" + nextUser) + ":" + nextPassword + "@" + nextHost
  {
    var front, later := user + ":" + password, host + "\r" + nextUser + ":" + nextPassword;
    assert "@" + later == ("@" + host + "\r" + nextUser) + ":" + nextPassword;
    assert front + "@" + (later + "@" + nextHost) == front + ("@" + later) + "@" + nextHost;
  }

  /**
   A carriage return ends an occurrence, so that the `@` in front of it is not looked past, without
   being a boundary: both passwords are masked, and the first one only up to its own `@`.
   */
  lemma CarriageReturnEndsAnOccurrence(
      user: string, password: string, host: string, nextUser: string, nextPassword: string, nextHost: string)
    requires PlainName(user) && PlainPassword(password) && PlainName(host)
    requires PlainName(nextUser) && PlainPassword(nextPassword) && '@' !in nextHost
    ensures Redacted(user + ":" + password + "@" + (host + "\r" + nextUser + ":" + nextPassword + "@" + nextHost)) ==
              user + ":***@" + host + "\r" + nextUser + ":***@" + nextHost
  {
    hide Redacted, MaskStart, MarkFrom, Clean, IsBoundary;
    hide PlainName, PlainPassword, UserinfoDelimiterEnd, StartsWith;
    var front, later := user + ":" + password, host + "\r" + nextUser + ":" + nextPassword;
    var text := front + "@" + (later + "@" + nextHost);
    var at, next := |front|, |front| + 1 + |later|;
    FrontIsPlain(user, password);
    LaterHasNoAt(host, nextUser, nextPassword);
    ReturnTexts(user, password, host, nextUser, nextPassword, nextHost);
    CutAtAts(front, later, nextHost);
    ReturnIsNotClean(later, |host|);
    PasswordMaskStart(user, password, later + "@" + nextHost);
    StartPastReturn(front, host, nextUser, nextPassword, nextHost);
    TwoOccurrences(text, at, next, |user| + 1, |front + ("@" + host + "\r" + nextUser)| + 1);
    ReturnPieces(user, password, host, nextUser, nextPassword, nextHost);
  }

  lemma FrontIsPlain(user: string, password: string)
    requires PlainName(user) && PlainPassword(password)
    ensures UserinfoDelimiterEnd(user).None? && !StartsWith(password, "//") && '@' !in user + ":" + password
    ensures forall c :: c in user + password ==> c != '@' && !IsBoundary(c)
    ensures forall i :: 0 <= i < |user + ":" + password| ==> !IsBoundary((user + ":" + password)[i])
  {
    PlainHasNoDelimiter(user);
  }

  lemma LaterHasNoAt(host: string, nextUser: string, nextPassword: string)
    requires PlainName(host) && PlainName(nextUser) && PlainPassword(nextPassword)
    ensures var later := host + "\r" + nextUser + ":" + nextPassword; '@' !in later && later[|host|] == '\r'
  {
  }

  lemma CutAtAts(front: string, later: string, tail: string)
    ensures var text, next := front + "@" + (later + "@" + tail), |front| + 1 + |later|;
            && text[|front|] == '@' && text[next] == '@'
            && text[0..|front|] == front && text[|front| + 1..next] == later && text[next + 1..] == tail
  {
  }

  lemma ReturnIsNotClean(between: string, i: nat)
    requires i < |between| && between[i] == '\r'
    ensures !Clean(between)
  {
  }

  lemma ReturnPieces(
      user: string, password: string, host: string, nextUser: string, nextPassword: string, nextHost: string)
    ensures var front := user + ":" + password;
            var middle := "@" + host + "\r" + nextUser;
            var text := front + middle + ":" + nextPassword + "@" + nextHost;
            var next := |front + middle| + 1 + |nextPassword|;
            text[0..|user| + 1] + "***" + (text[|front|..|front + middle| + 1] + "***" + text[next..]) ==
              user + ":***@" + host + "\r" + nextUser + ":***@" + nextHost
  {
    var front := user + ":" + password;
    var middle := "@" + host + "\r" + nextUser;
    var text := front + middle + ":" + nextPassword + "@" + nextHost;
    assert text[0..|user| + 1] == user + ":";
    assert text[|front|..|front + middle| + 1] == middle + ":";
    assert text[|front + middle| + 1 + |nextPassword|..] == "@" + nextHost;
  }

  // ----------------------------------------------------------------------------- delimiters

  /** A delimiter ends here: a colon, or an escaped one with its digit in either case. */
  predicate EndsDelimiter(segment: string, end: nat) {
    && end <= |segment|
    && (|| EndsWith(segment[..end], ":") || EndsWith(segment[..end], "%3a") || EndsWith(segment[..end], "%3A"))
  }

  lemma EndsWithOne(text: string, end: nat, c: char)
    requires end <= |text|
    ensures EndsWith(text[..end], [c]) <==> end >= 1 && text[end - 1] == c
  {
  }

  lemma EndsWithThree(text: string, end: nat, suffix: string)
    requires end <= |text| && |suffix| == 3
    ensures EndsWith(text[..end], suffix) <==>
            end >= 3 && text[end - 3] == suffix[0] && text[end - 2] == suffix[1] && text[end - 1] == suffix[2]
  {
    if end >= 3 {
      assert text[..end][end - 3..] == [text[end - 3], text[end - 2], text[end - 1]];
      assert suffix == [suffix[0], suffix[1], suffix[2]];
    }
  }

  lemma EndsDelimiterIs(segment: string, end: nat)
    ensures EndsDelimiter(segment, end) <==>
            || (end > 0 && Marks(segment, end - 1, Colon))
            || (end >= 3 && Marks(segment, end - 3, EncodedColon))
  {
    hide EndsWith;
    if end <= |segment| {
      EndsWithOne(segment, end, ':');
      EndsWithThree(segment, end, "%3a");
      EndsWithThree(segment, end, "%3A");
    }
  }

  /** The delimiter found is the first there is, in either spelling, and none is found only where none is. */
  lemma DelimiterIsFirst(segment: string)
    ensures var found := UserinfoDelimiterEnd(segment);
            && (found.Some? ==> EndsDelimiter(segment, found.value))
            && (forall end: nat :: EndsDelimiter(segment, end) ==> found.Some? && found.value <= end)
  {
    hide EndsDelimiter, Marks;
    var found := UserinfoDelimiterEnd(segment);
    if found.Some? {
      EndsDelimiterIs(segment, found.value);
    }
    forall end: nat | EndsDelimiter(segment, end) ensures found.Some? && found.value <= end {
      EndsDelimiterIs(segment, end);
      if end > 0 && Marks(segment, end - 1, Colon) {
        LiteralIsNotBefore(segment, end - 1);
      } else {
        EncodedIsNotBefore(segment, end - 3);
      }
    }
  }

  /** What an `@` may be looked past: no space, tab, line feed or carriage return, and no double slash. */
  lemma CleanIsExactly(between: string)
    ensures Clean(between) <==>
            (forall c :: c in between ==> c !in {' ', '\t', '\n', '\r'}) && Find(between, "//").None?
  {
    var slashes := Find(between, "//");
    assert forall i :: 0 <= i < |between| ==> between[i] in between;
    if slashes.Some? {
      assert between[slashes.value] == "//"[0] && between[slashes.value + 1] == "//"[1];
    } else {
      forall i | 0 <= i < |between| - 1 ensures !(between[i] == '/' && between[i + 1] == '/') {
        assert !StartsWith(between[i..], "//");
        assert between[i..][0] == between[i] && between[i..][1] == between[i + 1];
      }
    }
  }

  lemma LiteralIsNotBefore(segment: string, at: nat)
    requires Marks(segment, at, Colon)
    ensures UserinfoDelimiterEnd(segment).Some? && UserinfoDelimiterEnd(segment).value <= at + 1
  {
    var literal, encoded := FirstMark(segment, Colon), FirstMark(segment, EncodedColon);
    assert literal.Some? && literal.value <= at;
    if encoded.Some? && encoded.value < literal.value {
      assert Marks(segment, encoded.value, EncodedColon) && Marks(segment, literal.value, Colon);
      assert literal.value >= encoded.value + 3;
    }
  }

  lemma EncodedIsNotBefore(segment: string, at: nat)
    requires Marks(segment, at, EncodedColon)
    ensures UserinfoDelimiterEnd(segment).Some? && UserinfoDelimiterEnd(segment).value <= at + 3
  {
    var encoded := FirstMark(segment, EncodedColon);
    assert encoded.Some? && encoded.value <= at;
  }
}
