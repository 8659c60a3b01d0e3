/**
 Masking `user:password@` in text that need not parse. The scan that indexes the text once is
 proved against one that looks at the text afresh for every `@`.
 */
module TextRedact {
  import opened Options
  import opened Strings

  const MASK: string := "***"

  /** What the scan looks for. */
  datatype Mark = At | Boundary | Colon | EncodedColon | Scheme

  function Width(mark: Mark): (width: nat)
    ensures 1 <= width <= 3
  {
    if mark.EncodedColon? || mark.Scheme? then 3 else 1
  }

  /** The mark starts here and fits into the text whole. */
  predicate Marks(text: string, i: nat, mark: Mark) {
    && i + Width(mark) <= |text|
    && match mark
       case At => text[i] == '@'
       case Boundary => text[i] == ' ' || text[i] == '\t' || text[i] == '\n'
       case Colon => text[i] == ':'
       case EncodedColon => text[i] == '%' && text[i + 1] == '3' && (text[i + 2] == 'a' || text[i + 2] == 'A')
       case Scheme => text[i] == ':' && text[i + 1] == '/' && text[i + 2] == '/'
  }

  // --------------------------------------------------------------------- the plain reading

  /** Where the first such mark at or after `from` starts. */
  function MarkFrom(text: string, from: nat, mark: Mark): (found: Option<nat>)
    requires from <= |text|
    ensures found.Some? ==>
              && from <= found.value && Marks(text, found.value, mark)
              && forall k :: from <= k < found.value ==> !Marks(text, k, mark)
    ensures found.None? ==> forall k :: from <= k < |text| ==> !Marks(text, k, mark)
    decreases |text| - from
  {
    if from == |text| then None
    else if Marks(text, from, mark) then Some(from)
    else MarkFrom(text, from + 1, mark)
  }

  function FirstMark(text: string, mark: Mark): (found: Option<nat>)
    ensures found.Some? ==> found.value + Width(mark) <= |text|
  {
    MarkFrom(text, 0, mark)
  }

  /** One past the last hard boundary, or the start. */
  function AfterBoundary(text: string): (start: nat)
    ensures start <= |text|
    ensures start > 0 ==> Marks(text, start - 1, Boundary)
    ensures forall i :: start <= i < |text| ==> !Marks(text, i, Boundary)
  {
    if text == "" then 0
    else if Marks(text, |text| - 1, Boundary) then |text|
    else
      assert forall i :: 0 <= i < |text| - 1 ==> Marks(text[..|text| - 1], i, Boundary) == Marks(text, i, Boundary);
      AfterBoundary(text[..|text| - 1])
  }

  /** Of a literal and an encoded colon the one that comes first; where it ends. */
  function Earlier(literal: Option<nat>, encoded: Option<nat>): Option<nat> {
    match (literal, encoded)
    case (Some(l), Some(e)) => Some(if l <= e then l + 1 else e + 3)
    case (Some(l), None) => Some(l + 1)
    case (None, Some(e)) => Some(e + 3)
    case (None, None) => None
  }

  /** Where the first user-name/password delimiter ends, in either spelling. */
  function UserinfoDelimiterEnd(segment: string): (end: Option<nat>)
    ensures end.Some? ==>
              && 0 < end.value <= |segment|
              && (|| Marks(segment, end.value - 1, Colon)
                  || (end.value >= 3 && Marks(segment, end.value - 3, EncodedColon)))
  {
    Earlier(FirstMark(segment, Colon), FirstMark(segment, EncodedColon))
  }

  /** Where a scheme's `://` ends: the first one, with no delimiter in front of it. */
  function SchemeDelimiterEnd(token: string): (end: Option<nat>)
    ensures end.Some? ==> end.value <= |token|
  {
    var at := FirstMark(token, Scheme);
    if at.Some? && UserinfoDelimiterEnd(token[..at.value]).None? then Some(at.value + 3) else None
  }

  predicate EndsOccurrence(c: char) {
    c == ' ' || c == '\t' || c == '\n' || c == '\r'
  }

  /** Text an `@` may be looked past: no whitespace and no `//`. */
  predicate Clean(between: string) {
    && (forall i :: 0 <= i < |between| ==> !EndsOccurrence(between[i]))
    && (forall i :: 0 <= i < |between| - 1 ==> !(between[i] == '/' && between[i + 1] == '/'))
  }

  /** Some later `@` ends the same userinfo. */
  ghost predicate EndsLater(text: string, at: nat)
    requires at < |text|
  {
    exists later :: at < later < |text| && Marks(text, later, At) && Clean(text[at + 1..later])
  }

  function Max(a: nat, b: nat): nat {
    if a < b then b else a
  }

  /** Where the part that may hold userinfo starts, in front of the `@` at `at`. */
  function SegmentStart(text: string, from: nat, at: nat): (start: nat)
    requires from <= at <= |text|
    ensures from <= start <= at
  {
    var base := Max(AfterBoundary(text[..at]), from);
    var scheme := SchemeDelimiterEnd(text[base..at]);
    if scheme.Some? then base + scheme.value else base
  }

  /** Where masking starts for the `@` at `at`, when nothing before `from` may be touched. */
  function MaskStart(text: string, from: nat, at: nat): Option<nat>
    requires from <= at <= |text|
  {
    var start := SegmentStart(text, from, at);
    var delimiter := UserinfoDelimiterEnd(text[start..at]);
    if delimiter.Some? then Some(start + delimiter.value) else None
  }

  datatype Span = Span(start: nat, end: nat)

  /** The spans to mask among the `@`s from `k` on, nothing before `from` touched again. */
  ghost function Spans(text: string, k: nat, from: nat): seq<Span>
    requires from <= k <= |text|
    decreases |text| - k
  {
    var at := MarkFrom(text, k, At);
    if at.None? then []
    else if EndsLater(text, at.value) then Spans(text, at.value + 1, from)
    else
      var start := MaskStart(text, from, at.value);
      if start.Some? then [Span(start.value, at.value)] + Spans(text, at.value + 1, at.value)
      else Spans(text, at.value + 1, from)
  }

  predicate Ordered(spans: seq<Span>, from: nat, length: nat) {
    spans == [] ||
    (from <= spans[0].start <= spans[0].end <= length && Ordered(spans[1..], spans[0].end, length))
  }

  /** The text from `from` on, with the mask in place of every span. */
  function Masked(text: string, spans: seq<Span>, from: nat): string
    requires from <= |text| && Ordered(spans, from, |text|)
    decreases spans
  {
    if spans == [] then text[from..]
    else text[from..spans[0].start] + MASK + Masked(text, spans[1..], spans[0].end)
  }

  /** A user-name/password delimiter, in either spelling, ends here. */
  predicate DelimiterEndsAt(text: string, end: nat) {
    0 < end && (Marks(text, end - 1, Colon) || (end >= 3 && Marks(text, end - 3, EncodedColon)))
  }

  lemma MarkInSlice(text: string, from: nat, upto: nat, i: nat, mark: Mark)
    requires from <= upto <= |text|
    ensures Marks(text[from..upto], i, mark) <==> Marks(text, from + i, mark) && from + i + Width(mark) <= upto
  {
  }

  lemma DelimiterEndInSlice(text: string, from: nat, upto: nat, end: nat)
    requires from <= upto <= |text| && DelimiterEndsAt(text[from..upto], end)
    ensures DelimiterEndsAt(text, from + end)
  {
    MarkInSlice(text, from, upto, end - 1, Colon);
    if end >= 3 { MarkInSlice(text, from, upto, end - 3, EncodedColon); }
  }

  lemma MaskStartBounds(text: string, from: nat, at: nat)
    requires from <= at <= |text|
    ensures var start := MaskStart(text, from, at);
            start.Some? ==> from < start.value <= at && DelimiterEndsAt(text, start.value)
  {
    hide SegmentStart, Marks;
    var start := SegmentStart(text, from, at);
    var delimiter := UserinfoDelimiterEnd(text[start..at]);
    if delimiter.Some? {
      DelimiterEndInSlice(text, start, at, delimiter.value);
    }
  }

  /** Masked spans are disjoint and in order, from a delimiter's end to an `@`, past what was masked. */
  lemma {:induction false} SpansAreOrdered(text: string, k: nat, from: nat)
    requires from <= k <= |text|
    ensures Ordered(Spans(text, k, from), from, |text|)
    ensures forall span :: span in Spans(text, k, from) ==>
              && from < span.start <= span.end < |text|
              && DelimiterEndsAt(text, span.start) && Marks(text, span.end, At)
    decreases |text| - k
  {
    hide MaskStart, Marks, DelimiterEndsAt, EndsLater;
    var at := MarkFrom(text, k, At);
    if at.Some? {
      MarkFits(text, at.value);
      MaskStartBounds(text, from, at.value);
      SpansAreOrdered(text, at.value + 1, from);
      SpansAreOrdered(text, at.value + 1, at.value);
    }
  }

  lemma MarkFits(text: string, i: nat)
    requires Marks(text, i, At)
    ensures i < |text|
  {
  }

  /** What is left to write: the text from `from` on, its `@`s from `k` on looked at. */
  ghost function Rest(text: string, k: nat, from: nat): string
    requires from <= k <= |text|
  {
    SpansAreOrdered(text, k, from);
    Masked(text, Spans(text, k, from), from)
  }

  ghost function Redacted(text: string): string {
    Rest(text, 0, 0)
  }

  // ---------------------------------------------------------------------- only the next one

  lemma CleanPrefix(wide: string, cut: nat)
    requires cut <= |wide| && Clean(wide)
    ensures Clean(wide[..cut])
  {
  }

  /** Asking the next `@` gives the answer that asking every later one would. */
  lemma NextIsEnough(text: string, at: nat)
    requires at < |text|
    ensures var next := MarkFrom(text, at + 1, At);
            EndsLater(text, at) <==> next.Some? && Clean(text[at + 1..next.value])
  {
    hide Clean;
    var next := MarkFrom(text, at + 1, At);
    if EndsLater(text, at) {
      var later :| at < later < |text| && Marks(text, later, At) && Clean(text[at + 1..later]);
      assert next.Some? && next.value <= later;
      CleanPrefix(text[at + 1..later], next.value - (at + 1));
      assert text[at + 1..later][..next.value - (at + 1)] == text[at + 1..next.value];
    }
  }

  // ------------------------------------------------------------------------------ the index

  /** Every place before `upto` where the mark starts, in order. */
  function Index(text: string, mark: Mark, upto: nat): seq<nat>
    requires upto <= |text|
  {
    if upto == 0 then []
    else Index(text, mark, upto - 1) + if Marks(text, upto - 1, mark) then [upto - 1] else []
  }

  ghost predicate Increasing(positions: seq<nat>) {
    forall i, j :: 0 <= i < j < |positions| ==> positions[i] < positions[j]
  }

  lemma {:induction false} IndexIsExact(text: string, mark: Mark, upto: nat)
    requires upto <= |text|
    ensures Increasing(Index(text, mark, upto))
    ensures forall i: nat :: i in Index(text, mark, upto) <==> i < upto && Marks(text, i, mark)
  {
    hide Marks;
    if upto > 0 {
      IndexIsExact(text, mark, upto - 1);
      var before := Index(text, mark, upto - 1);
      assert forall i :: 0 <= i < |before| ==> before[i] in before;
    }
  }

  /** How many of the positions lie before `bound`. */
  function PartitionPoint(positions: seq<nat>, bound: nat): (point: nat)
    ensures point <= |positions|
    ensures forall i :: 0 <= i < point ==> positions[i] < bound
    ensures point < |positions| ==> bound <= positions[point]
  {
    if positions == [] || positions[0] >= bound then 0
    else 1 + PartitionPoint(positions[1..], bound)
  }

  /** The first position at or after `from`. */
  function Lookup(positions: seq<nat>, from: nat): Option<nat> {
    var point := PartitionPoint(positions, from);
    if point < |positions| then Some(positions[point]) else None
  }

  lemma LookupIsMarkFrom(text: string, mark: Mark, from: nat)
    requires from <= |text|
    ensures Lookup(Index(text, mark, |text|), from) == MarkFrom(text, from, mark)
  {
    hide Marks, PartitionPoint, Index, MarkFrom;
    var positions := Index(text, mark, |text|);
    IndexIsExact(text, mark, |text|);
    MarkStartsInside(text, mark);
    var found, point := MarkFrom(text, from, mark), PartitionPoint(positions, from);
    if found.Some? {
      assert found.value in positions;
      var i :| 0 <= i < |positions| && positions[i] == found.value;
      assert point <= i;
    }
    if point < |positions| {
      assert positions[point] in positions;
      assert Marks(text, positions[point], mark);
    }
  }

  lemma MarkStartsInside(text: string, mark: Mark)
    ensures forall i: nat :: Marks(text, i, mark) ==> i < |text|
  {
  }

  /** What the index answers for a slice: a mark counts only when it fits. */
  function LookupFitting(positions: seq<nat>, mark: Mark, from: nat, upto: nat): Option<nat> {
    var found := Lookup(positions, from);
    if found.Some? && found.value + Width(mark) <= upto then found else None
  }

  lemma SliceMark(text: string, mark: Mark, from: nat, upto: nat)
    requires from <= upto <= |text|
    ensures var found := LookupFitting(Index(text, mark, |text|), mark, from, upto);
            && (found.Some? ==> from <= found.value)
            && FirstMark(text[from..upto], mark) == if found.Some? then Some(found.value - from) else None
  {
    hide Marks, Lookup, Index, MarkFrom;
    LookupIsMarkFrom(text, mark, from);
    var found, first := MarkFrom(text, from, mark), FirstMark(text[from..upto], mark);
    forall i: nat
      ensures Marks(text[from..upto], i, mark) <==> Marks(text, from + i, mark) && from + i + Width(mark) <= upto
    {
      MarkInSlice(text, from, upto, i, mark);
    }
    MarkStartsInside(text[from..upto], mark);
    if first.Some? {
      assert Marks(text, from + first.value, mark);
      assert found.Some?;
      assert found.value <= from + first.value;
      assert Marks(text[from..upto], found.value - from, mark);
    }
    if found.Some? && found.value + Width(mark) <= upto {
      assert Marks(text[from..upto], found.value - from, mark);
    }
  }

  /** Where the first delimiter in a slice ends, read off the index. */
  function FirstDelimiterEnd(colons: seq<nat>, encodedColons: seq<nat>, from: nat, upto: nat): Option<nat> {
    Earlier(LookupFitting(colons, Colon, from, upto), LookupFitting(encodedColons, EncodedColon, from, upto))
  }

  lemma FirstDelimiterEndAgrees(text: string, from: nat, upto: nat)
    requires from <= upto <= |text|
    ensures var rescanned := UserinfoDelimiterEnd(text[from..upto]);
            FirstDelimiterEnd(Index(text, Colon, |text|), Index(text, EncodedColon, |text|), from, upto) ==
              if rescanned.Some? then Some(from + rescanned.value) else None
  {
    hide Marks, LookupFitting, Index, FirstMark;
    SliceMark(text, Colon, from, upto);
    SliceMark(text, EncodedColon, from, upto);
  }

  /** One past the last of the boundaries before `at`, read off the index. */
  function AfterMarker(boundaries: seq<nat>, at: nat): nat {
    var crossed := PartitionPoint(boundaries, at);
    if crossed == 0 then 0 else boundaries[crossed - 1] + 1
  }

  lemma BoundaryInPrefix(text: string, at: nat, i: nat)
    requires at <= |text|
    ensures Marks(text[..at], i, Boundary) <==> Marks(text, i, Boundary) && i < at
  {
    assert text[0..at] == text[..at];
    MarkInSlice(text, 0, at, i, Boundary);
  }

  lemma AfterMarkerAtLeast(text: string, at: nat)
    requires at <= |text|
    ensures AfterBoundary(text[..at]) <= AfterMarker(Index(text, Boundary, |text|), at)
  {
    hide Marks, PartitionPoint, Index, AfterBoundary, Increasing;
    var boundaries := Index(text, Boundary, |text|);
    IndexIsExact(text, Boundary, |text|);
    var crossed, start := PartitionPoint(boundaries, at), AfterBoundary(text[..at]);
    if start > 0 {
      BoundaryInPrefix(text, at, start - 1);
      assert start - 1 in boundaries;
      LastCrossed(boundaries, at, start - 1);
    }
  }

  /** A position before the bound is not past the last of those before it. */
  lemma LastCrossed(positions: seq<nat>, bound: nat, position: nat)
    requires Increasing(positions) && position in positions && position < bound
    ensures var crossed := PartitionPoint(positions, bound); crossed > 0 && position <= positions[crossed - 1]
  {
    hide PartitionPoint;
    var crossed := PartitionPoint(positions, bound);
    var i :| 0 <= i < |positions| && positions[i] == position;
    assert i < crossed;
    assert i == crossed - 1 || positions[i] < positions[crossed - 1];
  }

  lemma AfterMarkerAtMost(text: string, at: nat)
    requires at <= |text|
    ensures AfterMarker(Index(text, Boundary, |text|), at) <= AfterBoundary(text[..at])
  {
    hide Marks, PartitionPoint, Index, AfterBoundary, Increasing;
    var boundaries := Index(text, Boundary, |text|);
    IndexIsExact(text, Boundary, |text|);
    var crossed := PartitionPoint(boundaries, at);
    if crossed > 0 {
      var last := boundaries[crossed - 1];
      assert last in boundaries;
      BoundaryInPrefix(text, at, last);
      assert Marks(text[..at], last, Boundary);
    }
  }

  lemma SchemeAgrees(text: string, base: nat, at: nat)
    requires base <= at <= |text|
    ensures var scheme := LookupFitting(Index(text, Scheme, |text|), Scheme, base, at);
            var rescanned := SchemeDelimiterEnd(text[base..at]);
            && (scheme.Some? ==> base <= scheme.value)
            && (rescanned.Some? ==>
                  && scheme.Some? && UserinfoDelimiterEnd(text[base..scheme.value]).None?
                  && base + rescanned.value == scheme.value + 3)
            && (rescanned.None? && scheme.Some? ==> UserinfoDelimiterEnd(text[base..scheme.value]).Some?)
  {
    hide Marks, LookupFitting, Index, FirstMark, UserinfoDelimiterEnd;
    SliceMark(text, Scheme, base, at);
    var first := FirstMark(text[base..at], Scheme);
    if first.Some? {
      assert text[base..at][..first.value] == text[base..base + first.value];
    }
  }

  // ------------------------------------------------------------------------------- the scan

  lemma NothingToMask(text: string)
    requires '@' !in text
    ensures Redacted(text) == text
  {
    assert MarkFrom(text, 0, At).None?;
    assert text[0..] == text;
  }

  /** One pass over the text that records where everything is. */
  method Scan(input: string)
    returns (ats: seq<nat>, boundaries: seq<nat>, colons: seq<nat>, encodedColons: seq<nat>, schemes: seq<nat>)
    ensures ats == Index(input, At, |input|) && boundaries == Index(input, Boundary, |input|)
    ensures colons == Index(input, Colon, |input|) && encodedColons == Index(input, EncodedColon, |input|)
    ensures schemes == Index(input, Scheme, |input|)
  {
    ats, boundaries, colons, encodedColons, schemes := [], [], [], [], [];
    for i := 0 to |input|
      invariant ats == Index(input, At, i) && boundaries == Index(input, Boundary, i)
      invariant colons == Index(input, Colon, i) && encodedColons == Index(input, EncodedColon, i)
      invariant schemes == Index(input, Scheme, i)
    {
      if input[i] == '@' {
        ats := ats + [i];
      } else if input[i] == ' ' || input[i] == '\t' || input[i] == '\n' {
        boundaries := boundaries + [i];
      } else if input[i] == ':' {
        colons := colons + [i];
        if i + 2 < |input| && input[i + 1] == '/' && input[i + 2] == '/' {
          schemes := schemes + [i];
        }
      } else if && input[i] == '%' && i + 2 < |input| && input[i + 1] == '3'
                && (input[i + 2] == 'a' || input[i + 2] == 'A') {
        encodedColons := encodedColons + [i];
      }
    }
  }

  /** The `@`s of the index are the ones the plain reading steps through. */
  ghost predicate StandsAt(text: string, ats: seq<nat>, i: nat, k: nat) {
    && k <= |text| && i <= |ats|
    && MarkFrom(text, k, At) == if i < |ats| then Some(ats[i]) else None
  }

  lemma NextStandsAt(text: string, i: nat)
    requires i < |Index(text, At, |text|)|
    ensures var ats := Index(text, At, |text|);
            ats[i] < |text| && StandsAt(text, ats, i + 1, ats[i] + 1)
  {
    hide Marks, PartitionPoint, MarkFrom, Index;
    var ats := Index(text, At, |text|);
    IndexIsExact(text, At, |text|);
    assert ats[i] in ats;
    LookupIsMarkFrom(text, At, ats[i] + 1);
    var point := PartitionPoint(ats, ats[i] + 1);
    assert point == |ats| || ats[i] < ats[point];
    assert point > i;
    assert ats[point - 1] <= ats[i];
  }

  lemma FirstStandsAt(text: string)
    ensures StandsAt(text, Index(text, At, |text|), 0, 0)
  {
    LookupIsMarkFrom(text, At, 0);
  }

  /** Where the segment starts, read off the index. */
  function IndexedStart(colons: seq<nat>, encodedColons: seq<nat>, schemes: seq<nat>, base: nat, at: nat): nat {
    var scheme := LookupFitting(schemes, Scheme, base, at);
    if scheme.Some? && FirstDelimiterEnd(colons, encodedColons, base, scheme.value).None? then scheme.value + 3
    else base
  }

  lemma IndexedStartAgrees(text: string, from: nat, at: nat)
    requires from <= at <= |text|
    ensures IndexedStart(Index(text, Colon, |text|), Index(text, EncodedColon, |text|), Index(text, Scheme, |text|),
                         Max(AfterBoundary(text[..at]), from), at) == SegmentStart(text, from, at)
  {
    hide Marks, LookupFitting, Index, UserinfoDelimiterEnd, SchemeDelimiterEnd, FirstDelimiterEnd, AfterBoundary;
    var base := Max(AfterBoundary(text[..at]), from);
    SchemeAgrees(text, base, at);
    var scheme := LookupFitting(Index(text, Scheme, |text|), Scheme, base, at);
    if scheme.Some? {
      LookupFits(text, base, at);
      FirstDelimiterEndAgrees(text, base, scheme.value);
    }
  }

  lemma MaskStartAgrees(text: string, from: nat, at: nat)
    requires from <= at <= |text|
    ensures var boundaries, colons := Index(text, Boundary, |text|), Index(text, Colon, |text|);
            var encodedColons, schemes := Index(text, EncodedColon, |text|), Index(text, Scheme, |text|);
            var start := IndexedStart(colons, encodedColons, schemes, Max(AfterMarker(boundaries, at), from), at);
            FirstDelimiterEnd(colons, encodedColons, start, at) == MaskStart(text, from, at)
  {
    hide Marks, Index, IndexedStart, SegmentStart, UserinfoDelimiterEnd, FirstDelimiterEnd, AfterMarker, AfterBoundary;
    AfterMarkerAtLeast(text, at);
    AfterMarkerAtMost(text, at);
    IndexedStartAgrees(text, from, at);
    FirstDelimiterEndAgrees(text, SegmentStart(text, from, at), at);
  }

  lemma LookupFits(text: string, base: nat, at: nat)
    ensures var scheme := LookupFitting(Index(text, Scheme, |text|), Scheme, base, at);
            scheme.Some? ==> scheme.value + 3 <= at
  {
  }

  lemma PassedBy(text: string, k: nat, from: nat, at: nat)
    requires from <= k <= at < |text| && MarkFrom(text, k, At) == Some(at)
    requires EndsLater(text, at) || MaskStart(text, from, at).None?
    ensures Rest(text, k, from) == Rest(text, at + 1, from)
  {
    hide EndsLater, MaskStart, MarkFrom, Masked, Ordered;
  }

  lemma CoveredUp(text: string, k: nat, from: nat, at: nat)
    requires from <= k <= at < |text| && MarkFrom(text, k, At) == Some(at)
    requires !EndsLater(text, at) && MaskStart(text, from, at).Some?
    ensures from <= MaskStart(text, from, at).value <= at
    ensures Rest(text, k, from) == text[from..MaskStart(text, from, at).value] + MASK + Rest(text, at + 1, at)
  {
    hide EndsLater, MaskStart, MarkFrom;
    MaskStartBounds(text, from, at);
    SpansAreOrdered(text, k, from);
    SpansAreOrdered(text, at + 1, at);
    var spans := Spans(text, k, from);
    assert spans[1..] == Spans(text, at + 1, at);
  }

  lemma NoneLeft(text: string, k: nat, from: nat)
    requires from <= k <= |text| && MarkFrom(text, k, At).None?
    ensures Rest(text, k, from) == text[from..]
  {
    hide EndsLater, MaskStart, MarkFrom;
  }

  lemma Written(done: string, piece: string, mask: string, rest: string)
    ensures done + (piece + mask + rest) == (done + piece + mask) + rest
  {
  }

  /** The indexed scan writes what the plain reading would. */
  method RedactUserinfo(input: string) returns (masked: string)
    ensures masked == Redacted(input)
  {
    hide MarkFrom, Clean, EndsLater, MaskStart, Index, Rest, AfterMarker, IndexedStart, FirstDelimiterEnd;
    if '@' !in input {
      NothingToMask(input);
      return input;
    }
    var ats, boundaries, colons, encodedColons, schemes := Scan(input);
    FirstStandsAt(input);
    masked := "";
    var copiedUpTo: nat := 0;
    ghost var k: nat := 0;
    for i := 0 to |ats|
      invariant StandsAt(input, ats, i, k) && copiedUpTo <= k
      invariant masked + Rest(input, k, copiedUpTo) == Redacted(input)
    {
      var at := ats[i];
      NextStandsAt(input, i);
      NextIsEnough(input, at);
      if i + 1 < |ats| && Clean(input[at + 1..ats[i + 1]]) {
        PassedBy(input, k, copiedUpTo, at);
        k := at + 1;
        continue;
      }
      MaskStartAgrees(input, copiedUpTo, at);
      var base := Max(AfterMarker(boundaries, at), copiedUpTo);
      var segmentStart := IndexedStart(colons, encodedColons, schemes, base, at);
      var delimiter := FirstDelimiterEnd(colons, encodedColons, segmentStart, at);
      if delimiter.Some? {
        CoveredUp(input, k, copiedUpTo, at);
        Written(masked, input[copiedUpTo..delimiter.value], MASK, Rest(input, at + 1, at));
        masked := masked + input[copiedUpTo..delimiter.value] + MASK;
        copiedUpTo := at;
      } else {
        PassedBy(input, k, copiedUpTo, at);
      }
      k := at + 1;
    }
    NoneLeft(input, k, copiedUpTo);
    masked := masked + input[copiedUpTo..];
  }

  // ---------------------------------------------------------------------------- closed form

  /** For text with no whitespace and no `//`: one span, up to the last `@`. */
  function Plainly(text: string): string {
    var last := FindLast(text, '@');
    if last.None? then text
    else
      var delimiter := UserinfoDelimiterEnd(text[..last.value]);
      if delimiter.None? then text
      else text[..delimiter.value] + MASK + text[last.value..]
  }

  lemma CleanSlice(text: string, from: nat, upto: nat)
    requires from <= upto <= |text| && Clean(text)
    ensures Clean(text[from..upto])
  {
  }

  lemma CleanHasNoBoundary(text: string)
    requires Clean(text)
    ensures AfterBoundary(text) == 0 && SchemeDelimiterEnd(text).None?
  {
    var start := AfterBoundary(text);
    assert start > 0 ==> Marks(text, start - 1, Boundary) && EndsOccurrence(text[start - 1]);
  }

  lemma CleanMaskStart(text: string, at: nat)
    requires at <= |text| && Clean(text)
    ensures MaskStart(text, 0, at) == UserinfoDelimiterEnd(text[..at])
  {
    hide Clean, AfterBoundary, SchemeDelimiterEnd, UserinfoDelimiterEnd;
    CleanSlice(text, 0, at);
    assert text[0..at] == text[..at];
    CleanHasNoBoundary(text[..at]);
  }

  lemma LastEndsItself(text: string, at: nat)
    requires at < |text| && '@' !in text[at + 1..]
    ensures !EndsLater(text, at)
  {
  }

  lemma {:induction false} UpToTheLast(text: string, k: nat, last: nat)
    requires k <= last < |text| && text[last] == '@' && '@' !in text[last + 1..] && Clean(text)
    ensures var delimiter := UserinfoDelimiterEnd(text[..last]);
            Rest(text, k, 0) == if delimiter.Some? then text[..delimiter.value] + MASK + text[last..] else text
    decreases last - k
  {
    hide Clean, Rest, MaskStart, EndsLater, UserinfoDelimiterEnd;
    var at := MarkFrom(text, k, At);
    assert Marks(text, last, At);
    assert at.Some? && at.value <= last;
    if at.value < last {
      CleanSlice(text, at.value + 1, last);
      EndsLaterBy(text, at.value, last);
      PassedBy(text, k, 0, at.value);
      UpToTheLast(text, at.value + 1, last);
    } else {
      LastEndsItself(text, last);
      CleanMaskStart(text, last);
      NoneAfter(text, last);
      if MaskStart(text, 0, last).Some? {
        CoveredUp(text, k, 0, last);
        NoneLeft(text, last + 1, last);
        assert text[0..MaskStart(text, 0, last).value] == text[..MaskStart(text, 0, last).value];
      } else {
        PassedBy(text, k, 0, last);
        NoneLeft(text, last + 1, 0);
        assert text[0..] == text;
      }
    }
  }

  lemma NoneAfter(text: string, last: nat)
    requires last < |text| && '@' !in text[last + 1..]
    ensures MarkFrom(text, last + 1, At).None?
  {
  }

  lemma EndsLaterBy(text: string, at: nat, later: nat)
    requires at < later < |text| && text[later] == '@' && Clean(text[at + 1..later])
    ensures EndsLater(text, at)
  {
    assert Marks(text, later, At);
  }

  /** With no whitespace and no `//`, everything between the first delimiter and the last `@` is masked. */
  lemma PlainTextIsMaskedOnce(text: string)
    requires Clean(text)
    ensures Redacted(text) == Plainly(text)
  {
    hide Clean, Rest, UserinfoDelimiterEnd;
    var last := FindLast(text, '@');
    if last.None? {
      NothingToMask(text);
    } else {
      UpToTheLast(text, 0, last.value);
    }
  }
}
