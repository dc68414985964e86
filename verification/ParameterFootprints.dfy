/** The byte ranges a function touches through a parameter, merged. */
module ParameterFootprints {

  const MAX_RANGES_PER_KIND: nat := 16

  datatype Range = Range(begin: int, end: int, isAtomic: bool) {
    predicate Has(byte: int) {
      begin <= byte < end
    }
  }

  ghost predicate Touched(ranges: seq<Range>, byte: int) {
    exists i: nat | i < |ranges| :: ranges[i].Has(byte)
  }

  /** Some access to the byte is a plain one. */
  ghost predicate TouchedPlainly(ranges: seq<Range>, byte: int) {
    exists i: nat | i < |ranges| :: ranges[i].Has(byte) && !ranges[i].isAtomic
  }

  ghost predicate Ascending(ranges: seq<Range>) {
    forall i, j | 0 <= i < j < |ranges| :: ranges[i].begin <= ranges[j].begin
  }

  /** Each range starts where the ones before it have ended. */
  ghost predicate Apart(ranges: seq<Range>) {
    forall i, j | 0 <= i < j < |ranges| :: ranges[i].begin <= ranges[j].begin && ranges[i].end <= ranges[j].begin
  }

  ghost predicate SameMembers(a: seq<Range>, b: seq<Range>) {
    forall r :: r in a <==> r in b
  }

  lemma SameTouched(a: seq<Range>, b: seq<Range>, byte: int)
    requires SameMembers(a, b)
    ensures Touched(a, byte) <==> Touched(b, byte)
    ensures TouchedPlainly(a, byte) <==> TouchedPlainly(b, byte)
  {
    assert forall i: nat | i < |a| :: a[i] in b;
    assert forall i: nat | i < |b| :: b[i] in a;
  }

  method InsertByBegin(sorted: seq<Range>, r: Range) returns (more: seq<Range>)
    requires Ascending(sorted)
    ensures Ascending(more) && multiset(more) == multiset(sorted) + multiset{r}
  {
    hide Ascending;
    var at: nat := |sorted|;
    while at > 0 && r.begin < sorted[at - 1].begin
      invariant at <= |sorted|
      invariant forall k | at <= k < |sorted| :: r.begin < sorted[k].begin
    {
      at := at - 1;
    }
    more := sorted[..at] + [r] + sorted[at..];
    InsertedAscends(sorted, at, r, more);
    InsertedMembers(sorted, at, r);
  }

  lemma InsertedMembers(sorted: seq<Range>, at: nat, r: Range)
    requires at <= |sorted|
    ensures multiset(sorted[..at] + [r] + sorted[at..]) == multiset(sorted) + multiset{r}
  {
    assert sorted == sorted[..at] + sorted[at..];
  }

  lemma InsertedAscends(sorted: seq<Range>, at: nat, r: Range, more: seq<Range>)
    requires Ascending(sorted) && at <= |sorted| && more == sorted[..at] + [r] + sorted[at..]
    requires at > 0 ==> sorted[at - 1].begin <= r.begin
    requires forall k | at <= k < |sorted| :: r.begin < sorted[k].begin
    ensures Ascending(more)
  {
    forall i, j | 0 <= i < j < |more|
      ensures more[i].begin <= more[j].begin
    {
      var before, after := if i <= at then i else i - 1, if j <= at then j else j - 1;
      assert i < at ==> more[i] == sorted[before];
      assert i > at ==> more[i] == sorted[before];
      assert j > at ==> more[j] == sorted[after];
      assert j < at ==> more[j] == sorted[after];
    }
  }

  method SortByBegin(ranges: seq<Range>) returns (sorted: seq<Range>)
    ensures Ascending(sorted) && multiset(sorted) == multiset(ranges) && SameMembers(sorted, ranges)
  {
    sorted := [];
    for i := 0 to |ranges|
      invariant Ascending(sorted) && multiset(sorted) == multiset(ranges[..i])
    {
      assert ranges[..i + 1] == ranges[..i] + [ranges[i]];
      sorted := InsertByBegin(sorted, ranges[i]);
    }
    assert ranges[..|ranges|] == ranges;
    SameMultiset(sorted, ranges);
  }

  lemma SameMultiset(a: seq<Range>, b: seq<Range>)
    requires multiset(a) == multiset(b)
    ensures SameMembers(a, b)
  {
    assert forall r :: r in a <==> r in multiset(a);
    assert forall r :: r in b <==> r in multiset(b);
  }

  /** What `merged` says of the bytes of `ranges`: the same ones, none plain left only atomic. */
  ghost predicate SameBytes(merged: seq<Range>, ranges: seq<Range>) {
    forall byte: int :: (Touched(merged, byte) <==> Touched(ranges, byte))
                        && (TouchedPlainly(ranges, byte) ==> TouchedPlainly(merged, byte))
  }

  /** Where a merged range is plain, some plain range given lies inside it. */
  ghost predicate PlainFromPlain(merged: seq<Range>, ranges: seq<Range>) {
    forall i: nat | i < |merged| && !merged[i].isAtomic :: HoldsPlain(merged[i], ranges)
  }

  ghost predicate HoldsPlain(range: Range, ranges: seq<Range>) {
    exists k: nat | k < |ranges| :: !ranges[k].isAtomic && range.begin <= ranges[k].begin && ranges[k].end <= range.end
  }

  /** Some range goes on across the boundary before the byte. */
  ghost predicate Crossed(ranges: seq<Range>, byte: int) {
    exists k: nat | k < |ranges| :: ranges[k].begin < byte < ranges[k].end
  }

  /** Only overlapping ranges are merged: ranges that merely touch stay apart. */
  ghost predicate OnlyOverlapping(merged: seq<Range>, ranges: seq<Range>) {
    forall i: nat, byte: int | i < |merged| && merged[i].begin < byte < merged[i].end :: Crossed(ranges, byte)
  }

  lemma CrossedMore(ranges: seq<Range>, next: Range, byte: int)
    ensures Crossed(ranges + [next], byte) <==> Crossed(ranges, byte) || next.begin < byte < next.end
  {
    var more := ranges + [next];
    assert forall k: nat | k < |ranges| :: more[k] == ranges[k];
    assert more[|ranges|] == next;
  }

  lemma OverlappingJoined(before: seq<Range>, last: Range, seen: seq<Range>, next: Range)
    requires OnlyOverlapping(before + [last], seen) && last.begin <= next.begin < last.end
    ensures OnlyOverlapping(before + [Joined(last, next)], seen + [next])
  {
    hide Crossed;
    var all, after := before + [last], before + [Joined(last, next)];
    forall i: nat, byte: int | i < |after| && after[i].begin < byte < after[i].end
      ensures Crossed(seen + [next], byte)
    {
      CrossedMore(seen, next, byte);
      assert i < |before| ==> all[i] == after[i];
      assert all[|before|] == last;
    }
  }

  lemma OverlappingAppended(merged: seq<Range>, seen: seq<Range>, next: Range)
    requires OnlyOverlapping(merged, seen)
    ensures OnlyOverlapping(merged + [next], seen + [next])
  {
    hide Crossed;
    var after := merged + [next];
    forall i: nat, byte: int | i < |after| && after[i].begin < byte < after[i].end
      ensures Crossed(seen + [next], byte)
    {
      CrossedMore(seen, next, byte);
      assert i < |merged| ==> after[i] == merged[i];
    }
  }

  lemma SameOverlapping(merged: seq<Range>, a: seq<Range>, b: seq<Range>)
    requires OnlyOverlapping(merged, a) && SameMembers(a, b)
    ensures OnlyOverlapping(merged, b)
  {
    forall i: nat, byte: int | i < |merged| && merged[i].begin < byte < merged[i].end
      ensures Crossed(b, byte)
    {
      assert Crossed(a, byte);
      var k: nat :| k < |a| && a[k].begin < byte < a[k].end;
      assert a[k] in b;
      var l: nat :| l < |b| && b[l] == a[k];
    }
  }

  lemma HoldsPlainMore(range: Range, wider: Range, ranges: seq<Range>, next: Range)
    requires HoldsPlain(range, ranges) && wider.begin <= range.begin && range.end <= wider.end
    ensures HoldsPlain(wider, ranges + [next])
  {
    var k: nat :| k < |ranges| && !ranges[k].isAtomic && range.begin <= ranges[k].begin && ranges[k].end <= range.end;
    assert (ranges + [next])[k] == ranges[k];
  }

  lemma HoldsItself(range: Range, wider: Range, ranges: seq<Range>)
    requires !range.isAtomic && wider.begin <= range.begin && range.end <= wider.end
    ensures HoldsPlain(wider, ranges + [range])
  {
    assert (ranges + [range])[|ranges|] == range;
  }

  lemma PlainKept(before: seq<Range>, seen: seq<Range>, next: Range)
    requires PlainFromPlain(before, seen)
    ensures PlainFromPlain(before, seen + [next])
  {
    hide HoldsPlain;
    forall i: nat | i < |before| && !before[i].isAtomic
      ensures HoldsPlain(before[i], seen + [next])
    {
      HoldsPlainMore(before[i], before[i], seen, next);
    }
  }

  lemma PlainJoined(before: seq<Range>, last: Range, seen: seq<Range>, next: Range)
    requires PlainFromPlain(before + [last], seen) && last.begin <= next.begin < last.end
    ensures PlainFromPlain(before + [Joined(last, next)], seen + [next])
  {
    hide HoldsPlain;
    var all, after := before + [last], before + [Joined(last, next)];
    assert forall i: nat | i < |before| :: after[i] == all[i] && all[i] == before[i];
    assert all[|before|] == last && after[|before|] == Joined(last, next);
    forall i: nat | i < |after| && !after[i].isAtomic
      ensures HoldsPlain(after[i], seen + [next])
    {
      if i < |before| {
        HoldsPlainMore(all[i], after[i], seen, next);
      } else if last.isAtomic {
        HoldsItself(next, after[i], seen);
      } else {
        HoldsPlainMore(last, after[i], seen, next);
      }
    }
  }

  lemma PlainAppended(merged: seq<Range>, seen: seq<Range>, next: Range)
    requires PlainFromPlain(merged, seen)
    ensures PlainFromPlain(merged + [next], seen + [next])
  {
    hide HoldsPlain;
    PlainKept(merged, seen, next);
    var after := merged + [next];
    forall i: nat | i < |after| && !after[i].isAtomic
      ensures HoldsPlain(after[i], seen + [next])
    {
      if i < |merged| {
        assert after[i] == merged[i];
      } else {
        HoldsItself(next, next, seen);
      }
    }
  }

  lemma TouchedMore(ranges: seq<Range>, r: Range, byte: int)
    ensures Touched(ranges + [r], byte) <==> Touched(ranges, byte) || r.Has(byte)
    ensures TouchedPlainly(ranges + [r], byte) <==> TouchedPlainly(ranges, byte) || (r.Has(byte) && !r.isAtomic)
  {
    var more := ranges + [r];
    assert forall i: nat | i < |ranges| :: more[i] == ranges[i];
    assert more[|ranges|] == r;
  }

  function Joined(last: Range, next: Range): Range {
    Range(last.begin, if last.end < next.end then next.end else last.end, last.isAtomic && next.isAtomic)
  }

  /** A range that starts inside the last one extends it, without losing or adding a byte. */
  lemma JoinKeepsBytes(before: seq<Range>, last: Range, seen: seq<Range>, next: Range)
    requires SameBytes(before + [last], seen) && last.begin <= next.begin < last.end
    ensures SameBytes(before + [Joined(last, next)], seen + [next])
  {
    hide Touched, TouchedPlainly;
    forall byte: int
      ensures (Touched(before + [Joined(last, next)], byte) <==> Touched(seen + [next], byte))
              && (TouchedPlainly(seen + [next], byte) ==> TouchedPlainly(before + [Joined(last, next)], byte))
    {
      TouchedMore(before, last, byte);
      TouchedMore(before, Joined(last, next), byte);
      TouchedMore(seen, next, byte);
    }
  }

  lemma AppendKeepsBytes(merged: seq<Range>, seen: seq<Range>, next: Range)
    requires SameBytes(merged, seen)
    ensures SameBytes(merged + [next], seen + [next])
  {
    hide Touched, TouchedPlainly;
    forall byte: int
      ensures (Touched(merged + [next], byte) <==> Touched(seen + [next], byte))
              && (TouchedPlainly(seen + [next], byte) ==> TouchedPlainly(merged + [next], byte))
    {
      TouchedMore(merged, next, byte);
      TouchedMore(seen, next, byte);
    }
  }

  /** Merges the ranges that overlap. */
  method MergeOverlapping(sorted: seq<Range>) returns (merged: seq<Range>)
    requires sorted != [] && Ascending(sorted)
    ensures merged != [] && Apart(merged) && SameBytes(merged, sorted) && PlainFromPlain(merged, sorted)
    ensures OnlyOverlapping(merged, sorted)
  {
    hide SameBytes, HoldsPlain, Crossed;
    merged := [sorted[0]];
    assert sorted[..1] == merged;
    BytesOfItself(merged);
    PlainAppended([], [], sorted[0]);
    OverlappingAppended([], [], sorted[0]);
    assert [] + [sorted[0]] == merged;
    hide PlainFromPlain, OnlyOverlapping;
    for i := 1 to |sorted|
      invariant merged != [] && Apart(merged) && SameBytes(merged, sorted[..i]) && PlainFromPlain(merged, sorted[..i])
      invariant OnlyOverlapping(merged, sorted[..i])
      invariant merged[|merged| - 1].begin <= sorted[i - 1].begin
    {
      var last, next := merged[|merged| - 1], sorted[i];
      assert sorted[..i + 1] == sorted[..i] + [next];
      var before := merged[..|merged| - 1];
      assert merged == before + [last];
      if next.begin < last.end {
        JoinKeepsBytes(before, last, sorted[..i], next);
        PlainJoined(before, last, sorted[..i], next);
        OverlappingJoined(before, last, sorted[..i], next);
        merged := before + [Joined(last, next)];
      } else {
        AppendKeepsBytes(merged, sorted[..i], next);
        PlainAppended(merged, sorted[..i], next);
        OverlappingAppended(merged, sorted[..i], next);
        merged := merged + [next];
      }
    }
    assert sorted[..|sorted|] == sorted;
  }

  lemma BytesOfItself(ranges: seq<Range>)
    ensures SameBytes(ranges, ranges)
  {
  }

  /** The result covers every byte, and no plain access is left only in an atomic range. */
  ghost predicate Includes(merged: seq<Range>, ranges: seq<Range>) {
    forall byte: int :: (Touched(ranges, byte) ==> Touched(merged, byte))
                        && (TouchedPlainly(ranges, byte) ==> TouchedPlainly(merged, byte))
  }

  /** One of the ranges ends there. */
  ghost predicate EndsWith(ranges: seq<Range>, end: int) {
    exists i: nat | i < |ranges| :: ranges[i].end == end
  }

  /** Past the cap, one range spans them all. */
  method Span(merged: seq<Range>) returns (span: Range)
    requires merged != [] && Apart(merged)
    ensures span.begin == merged[0].begin && Includes([span], merged)
    ensures EndsWith(merged, span.end)
    ensures span.isAtomic <==> forall i | 0 <= i < |merged| :: merged[i].isAtomic
  {
    span := Range(merged[0].begin, merged[0].end, true);
    for i := 0 to |merged|
      invariant span.begin == merged[0].begin && forall k | 0 <= k < i :: merged[k].end <= span.end
      invariant EndsWith(merged, span.end)
      invariant span.isAtomic <==> forall k | 0 <= k < i :: merged[k].isAtomic
    {
      span := Range(span.begin, if span.end < merged[i].end then merged[i].end else span.end,
                    span.isAtomic && merged[i].isAtomic);
    }
    SpanIncludes(span, merged);
  }

  lemma SpanIncludes(span: Range, merged: seq<Range>)
    requires merged != [] && Apart(merged) && span.begin == merged[0].begin
    requires forall k | 0 <= k < |merged| :: merged[k].end <= span.end
    requires span.isAtomic ==> forall i | 0 <= i < |merged| :: merged[i].isAtomic
    ensures Includes([span], merged)
  {
    forall byte: int
      ensures Touched(merged, byte) ==> Touched([span], byte)
      ensures TouchedPlainly(merged, byte) ==> TouchedPlainly([span], byte)
    {
      assert [span][0] == span;
      if Touched(merged, byte) {
        var i: nat :| i < |merged| && merged[i].Has(byte);
        assert i > 0 ==> merged[0].begin <= merged[i].begin;
        assert [span][0].Has(byte);
      }
    }
  }

  lemma SamePlain(merged: seq<Range>, a: seq<Range>, b: seq<Range>)
    requires PlainFromPlain(merged, a) && SameMembers(a, b)
    ensures PlainFromPlain(merged, b)
  {
    forall i: nat | i < |merged| && !merged[i].isAtomic
      ensures HoldsPlain(merged[i], b)
    {
      var k: nat :| k < |a| && !a[k].isAtomic && merged[i].begin <= a[k].begin && a[k].end <= merged[i].end;
      assert a[k] in b;
      var l: nat :| l < |b| && b[l] == a[k];
    }
  }

  /** Sorted disjoint ranges, at most the cap, covering the bytes of the ranges given; `groups` is what overlapping
      ranges merge into, before the cap. */
  method MergeRanges(ranges: seq<Range>) returns (merged: seq<Range>, ghost groups: seq<Range>)
    ensures |merged| <= 16 && Apart(merged) && Includes(merged, ranges)
    ensures Apart(groups) && SameBytes(groups, ranges) && PlainFromPlain(groups, ranges)
    ensures OnlyOverlapping(groups, ranges)
    ensures |groups| <= 16 ==> merged == groups
    ensures |groups| > 16 ==>
              && |merged| == 1 && merged[0].begin == groups[0].begin && EndsWith(groups, merged[0].end)
              && (merged[0].isAtomic <==> forall i | 0 <= i < |groups| :: groups[i].isAtomic)
  {
    if ranges == [] {
      return [], [];
    }
    var sorted := SortByBegin(ranges);
    assert ranges[0] in sorted;
    merged := MergeOverlapping(sorted);
    groups := merged;
    SamePlain(merged, sorted, ranges);
    SameOverlapping(merged, sorted, ranges);
    forall byte: int
      ensures Touched(ranges, byte) <==> Touched(sorted, byte)
      ensures TouchedPlainly(ranges, byte) <==> TouchedPlainly(sorted, byte)
    {
      SameTouched(sorted, ranges, byte);
    }
    if |merged| > MAX_RANGES_PER_KIND {
      var span := Span(merged);
      merged := [span];
    }
  }
}
