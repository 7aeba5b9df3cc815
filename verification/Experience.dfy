// Years of experience estimated from the employment date ranges of a CV.
module Experience {
  import opened Wrappers
  import opened Basics
  import opened StableSort

  // The second half of a matched range: a word for today, a year, or digits without a year among them.
  datatype EndToken = Today | Year(year: nat) | NoYear

  datatype Match = Match(offset: nat, start: nat, end: EndToken)

  datatype Range = Range(start: nat, end: nat)

  datatype Estimate = Estimate(years: nat, offset: nat)

  const EARLIEST := 1970

  predicate Acceptable(m: Match, current: nat) {
    !m.end.NoYear? && EARLIEST <= m.start <= RangeOf(m, current).end <= current + 1
  }

  function RangeOf(m: Match, current: nat): Range {
    Range(m.start, match m.end case Today => current case Year(y) => y case NoYear => 0)
  }

  /** The matches whose ranges count, in text order. */
  function Accepted(matches: seq<Match>, current: nat): seq<Match> {
    if matches == [] then []
    else
      var last := |matches| - 1;
      Accepted(matches[..last], current) + (if Acceptable(matches[last], current) then [matches[last]] else [])
  }

  function Ranges(matches: seq<Match>, current: nat): (ranges: seq<Range>)
    ensures |ranges| == |matches|
  {
    seq(|matches|, i requires 0 <= i < |matches| => RangeOf(matches[i], current))
  }

  // ---------- the years covered ----------

  /** The years of one range, its last one excluded. */
  function Years(r: Range): set<nat> {
    set y: nat | y < r.end && Spans(r, y)
  }

  predicate Spans(r: Range, y: nat) {
    r.start <= y < r.end
  }

  lemma {:induction false} CountYears(r: Range)
    requires r.start <= r.end
    ensures |Years(r)| == r.end - r.start
    decreases r.end
  {
    if r.start == r.end {
      assert Years(r) == {};
    } else {
      CountYears(Range(r.start, r.end - 1));
      assert Years(r) == Years(Range(r.start, r.end - 1)) + {r.end - 1};
    }
  }

  /** The years that at least one range covers: the reference the merging loop is compared with. */
  function Covered(ranges: seq<Range>): set<nat> {
    if ranges == [] then {}
    else Covered(ranges[..|ranges| - 1]) + Years(ranges[|ranges| - 1])
  }

  lemma {:induction false} CoveredIsSpanned(ranges: seq<Range>, y: nat)
    ensures y in Covered(ranges) <==> exists i :: 0 <= i < |ranges| && y in Years(ranges[i])
  {
    if ranges != [] {
      var last := |ranges| - 1;
      CoveredIsSpanned(ranges[..last], y);
      assert forall i | 0 <= i < last :: ranges[..last][i] == ranges[i];
    }
  }

  /** The estimate: how many years are covered, and where the first accepted range stands. */
  function EstimateOf(matches: seq<Match>, current: nat): Option<Estimate> {
    var accepted := Accepted(matches, current);
    var years := |Covered(Ranges(accepted, current))|;
    if accepted == [] || years == 0 then None else Some(Estimate(years, accepted[0].offset))
  }

  // ---------- merging ----------

  predicate RangeLeq(a: Range, b: Range) {
    a.start < b.start || (a.start == b.start && a.end <= b.end)
  }

  lemma RangeOrderIsTotal()
    ensures TotalPreorder(RangeLeq)
  {
  }

  /** Ranges in order, a gap between each and the next. */
  ghost predicate Spaced(merged: seq<Range>) {
    && (forall i | 0 <= i < |merged| :: merged[i].start <= merged[i].end)
    && (forall i, j | 0 <= i < j < |merged| :: merged[i].end < merged[j].start)
  }

  function Total(merged: seq<Range>): int {
    if merged == [] then 0 else Total(merged[..|merged| - 1]) + merged[|merged| - 1].end - merged[|merged| - 1].start
  }

  lemma CoveredEndsBefore(merged: seq<Range>, y: nat)
    requires Spaced(merged) && y in Covered(merged)
    ensures merged != [] && y < merged[|merged| - 1].end
  {
    CoveredIsSpanned(merged, y);
    var i :| 0 <= i < |merged| && y in Years(merged[i]);
  }

  /** Adding up ranges with gaps between them counts each covered year once. */
  lemma {:induction false} SpacedTotal(merged: seq<Range>)
    requires Spaced(merged)
    ensures Total(merged) == |Covered(merged)|
  {
    if merged != [] {
      var last := |merged| - 1;
      SpacedTotal(merged[..last]);
      CountYears(merged[last]);
      forall y | y in Covered(merged[..last]) ensures y !in Years(merged[last]) {
        CoveredEndsBefore(merged[..last], y);
      }
      assert Covered(merged[..last]) !! Years(merged[last]);
    }
  }

  /** Extending the last merged range over one that starts no later than it ends covers both. */
  lemma ExtendCovers(merged: seq<Range>, r: Range)
    requires Spaced(merged) && merged != [] && r.start <= r.end
    requires merged[|merged| - 1].start <= r.start <= merged[|merged| - 1].end
    ensures var last := |merged| - 1;
            var longer := merged[..last] + [Range(merged[last].start, Max(merged[last].end, r.end))];
            Spaced(longer) && Covered(longer) == Covered(merged) + Years(r)
  {
    var last := |merged| - 1;
    var wide := Range(merged[last].start, Max(merged[last].end, r.end));
    assert (merged[..last] + [wide])[..last] == merged[..last];
    assert Years(wide) == Years(merged[last]) + Years(r);
  }

  lemma AppendCovers(merged: seq<Range>, r: Range)
    requires Spaced(merged) && r.start <= r.end && (merged == [] || merged[|merged| - 1].end < r.start)
    ensures Spaced(merged + [r]) && Covered(merged + [r]) == Covered(merged) + Years(r)
  {
    CoveredOfSnoc(merged, r);
  }

  lemma CoveredOfSnoc(ranges: seq<Range>, r: Range)
    ensures Covered(ranges + [r]) == Covered(ranges) + Years(r)
  {
    assert (ranges + [r])[..|ranges|] == ranges;
  }

  /** Ranges with the same elements, whatever their order and number, cover the same years. */
  lemma SameRangesSameYears(a: seq<Range>, b: seq<Range>)
    requires forall r :: r in a <==> r in b
    ensures Covered(a) == Covered(b)
  {
    forall y: nat ensures y in Covered(a) <==> y in Covered(b) {
      CoveredIsSpanned(a, y);
      CoveredIsSpanned(b, y);
      if y in Covered(a) {
        var i :| 0 <= i < |a| && y in Years(a[i]);
        assert a[i] in b;
      }
      if y in Covered(b) {
        var i :| 0 <= i < |b| && y in Years(b[i]);
        assert b[i] in a;
      }
    }
  }

  /** What the merged list is, once some of the sorted ranges have been taken in. */
  ghost predicate MergedUpTo(merged: seq<Range>, taken: seq<Range>) {
    && Spaced(merged) && Covered(merged) == Covered(taken)
    && (merged != [] ==> taken != [] && merged[|merged| - 1].start <= taken[|taken| - 1].start)
  }

  lemma ExtendingMerges(merged: seq<Range>, taken: seq<Range>, r: Range)
    requires MergedUpTo(merged, taken) && r.start <= r.end && (taken != [] ==> taken[|taken| - 1].start <= r.start)
    requires merged != [] && r.start <= merged[|merged| - 1].end
    ensures var last := |merged| - 1;
            MergedUpTo(merged[..last] + [Range(merged[last].start, Max(merged[last].end, r.end))], taken + [r])
  {
    ExtendCovers(merged, r);
    CoveredOfSnoc(taken, r);
  }

  lemma AppendingMerges(merged: seq<Range>, taken: seq<Range>, r: Range)
    requires MergedUpTo(merged, taken) && r.start <= r.end
    requires merged == [] || merged[|merged| - 1].end < r.start
    ensures MergedUpTo(merged + [r], taken + [r])
  {
    AppendCovers(merged, r);
    CoveredOfSnoc(taken, r);
  }

  method MergeRanges(sorted: seq<Range>) returns (merged: seq<Range>)
    requires Sorted(sorted, RangeLeq)
    requires forall i | 0 <= i < |sorted| :: sorted[i].start <= sorted[i].end
    ensures Spaced(merged) && Covered(merged) == Covered(sorted)
  {
    merged := [];
    for i := 0 to |sorted|
      invariant MergedUpTo(merged, sorted[..i])
    {
      var r := sorted[i];
      assert sorted[..i + 1] == sorted[..i] + [r];
      assert i > 0 ==> RangeLeq(sorted[i - 1], r);
      if |merged| > 0 && r.start <= merged[|merged| - 1].end {
        ExtendingMerges(merged, sorted[..i], r);
        var last := |merged| - 1;
        merged := merged[..last] + [Range(merged[last].start, Max(merged[last].end, r.end))];
      } else {
        AppendingMerges(merged, sorted[..i], r);
        merged := merged + [r];
      }
    }
    assert sorted[..|sorted|] == sorted;
  }

  method AcceptedRanges(matches: seq<Match>, current: nat) returns (ranges: seq<Range>, firstOffset: Option<nat>)
    ensures var accepted := Accepted(matches, current);
            ranges == Ranges(accepted, current) && firstOffset == if accepted == [] then None else Some(accepted[0].offset)
    ensures forall k | 0 <= k < |ranges| :: ranges[k].start <= ranges[k].end
  {
    ranges, firstOffset := [], None;
    for i := 0 to |matches|
      invariant ranges == Ranges(Accepted(matches[..i], current), current)
      invariant forall k | 0 <= k < |ranges| :: ranges[k].start <= ranges[k].end
      invariant firstOffset == if ranges == [] then None else Some(Accepted(matches[..i], current)[0].offset)
    {
      assert matches[..i + 1][..i] == matches[..i];
      var m := matches[i];
      if m.end.NoYear? {
        continue;
      }
      var end := if m.end.Today? then current else m.end.year;
      if end < m.start || m.start < EARLIEST || end > current + 1 {
        continue;
      }
      ranges := ranges + [Range(m.start, end)];
      if firstOffset.None? {
        firstOffset := Some(m.offset);
      }
    }
    assert matches[..|matches|] == matches;
  }

  method AddUp(merged: seq<Range>) returns (total: int)
    ensures total == Total(merged)
  {
    total := 0;
    for i := 0 to |merged|
      invariant total == Total(merged[..i])
    {
      assert merged[..i + 1][..i] == merged[..i];
      total := total + (merged[i].end - merged[i].start);
    }
    assert merged[..|merged|] == merged;
  }

  method EstimateYears(matches: seq<Match>, current: nat) returns (estimate: Option<Estimate>)
    ensures estimate == EstimateOf(matches, current)
  {
    var ranges, firstOffset := AcceptedRanges(matches, current);
    if |ranges| == 0 || firstOffset.None? {
      return None;
    }
    RangeOrderIsTotal();
    SortSorts(ranges, RangeLeq);
    var sorted := Sort(ranges, RangeLeq);
    SortedHasTheSameRanges(ranges, sorted);
    var merged := MergeRanges(sorted);
    SpacedTotal(merged);
    var total := AddUp(merged);
    estimate := if total > 0 then Some(Estimate(total, firstOffset.value)) else None;
  }

  lemma SortedHasTheSameRanges(ranges: seq<Range>, sorted: seq<Range>)
    requires multiset(sorted) == multiset(ranges)
    ensures Covered(sorted) == Covered(ranges)
    ensures forall i | 0 <= i < |sorted| :: sorted[i] in ranges
  {
    forall r ensures r in sorted <==> r in ranges {
      assert r in multiset(sorted) <==> r in multiset(ranges);
    }
    SameRangesSameYears(sorted, ranges);
  }

  // ---------- what the estimate depends on ----------

  lemma {:induction false} AcceptedElements(matches: seq<Match>, current: nat)
    ensures forall m :: m in Accepted(matches, current) <==> m in matches && Acceptable(m, current)
  {
    if matches != [] {
      var last := |matches| - 1;
      AcceptedElements(matches[..last], current);
      assert matches == matches[..last] + [matches[last]];
    }
  }

  /** A year is counted exactly when some accepted range spans it; so none is before 1970 or after this year. */
  lemma CountedYears(matches: seq<Match>, current: nat, y: nat)
    ensures y in Covered(Ranges(Accepted(matches, current), current)) <==>
            exists m :: m in matches && Acceptable(m, current) && m.start <= y < RangeOf(m, current).end
    ensures y in Covered(Ranges(Accepted(matches, current), current)) ==> EARLIEST <= y <= current
  {
    var accepted := Accepted(matches, current);
    var ranges := Ranges(accepted, current);
    AcceptedElements(matches, current);
    CoveredIsSpanned(ranges, y);
    if y in Covered(ranges) {
      var i :| 0 <= i < |ranges| && y in Years(ranges[i]);
      assert accepted[i] in matches && Acceptable(accepted[i], current);
    }
    if m :| m in matches && Acceptable(m, current) && m.start <= y < RangeOf(m, current).end {
      assert m in accepted;
      var i :| 0 <= i < |accepted| && accepted[i] == m;
      assert y in Years(ranges[i]);
    }
  }

  /** The year a range runs to: the current one if it says so. */
  predicate RunsTo(m: Match, current: nat, end: nat) {
    (m.end.Today? && end == current) || (m.end.Year? && end == m.end.year)
  }

  /** The range counts: from 1970 on, not backwards, and not beyond next year. */
  predicate Counts(m: Match, current: nat) {
    exists end: nat | end <= current + 1 :: RunsTo(m, current, end) && 1970 <= m.start <= end
  }

  lemma CountsIff(m: Match, current: nat)
    ensures Counts(m, current) <==> Acceptable(m, current)
    ensures Counts(m, current) ==> RunsTo(m, current, RangeOf(m, current).end)
  {
    if Acceptable(m, current) {
      assert RunsTo(m, current, RangeOf(m, current).end);
    }
  }

  predicate Experienced(matches: seq<Match>, current: nat, y: nat) {
    exists i, end: nat | 0 <= i < |matches| && end <= current + 1 ::
      Counts(matches[i], current) && RunsTo(matches[i], current, end) && matches[i].start <= y < end
  }

  predicate FirstCounted(matches: seq<Match>, current: nat, i: nat) {
    i < |matches| && Counts(matches[i], current) && forall k | 0 <= k < i :: !Counts(matches[k], current)
  }

  lemma {:induction false} FirstAccepted(matches: seq<Match>, current: nat, i: nat)
    requires FirstCounted(matches, current, i)
    ensures Accepted(matches, current) != [] && Accepted(matches, current)[0] == matches[i]
  {
    var last := |matches| - 1;
    CountsIff(matches[last], current);
    if i < last {
      FirstAccepted(matches[..last], current, i);
    } else {
      NoneAccepted(matches[..last], current);
    }
  }

  lemma {:induction false} NoneAccepted(matches: seq<Match>, current: nat)
    requires forall k | 0 <= k < |matches| :: !Counts(matches[k], current)
    ensures Accepted(matches, current) == []
  {
    if matches != [] {
      CountsIff(matches[|matches| - 1], current);
      NoneAccepted(matches[..|matches| - 1], current);
    }
  }

  /** The estimate is the number of years in which somebody was employed by a range that counts, at the offset of the first
      such range; there is none if there are no such years. */
  lemma EstimateCountsYears(matches: seq<Match>, current: nat)
    ensures var years := set y: nat | y <= current && Experienced(matches, current, y);
            && (years == {} ==> EstimateOf(matches, current).None?)
            && (forall i: nat | years != {} && FirstCounted(matches, current, i) ::
                  EstimateOf(matches, current) == Some(Estimate(|years|, matches[i].offset)))
            && (years != {} ==> exists i: nat | i < |matches| :: FirstCounted(matches, current, i))
  {
    var years := set y: nat | y <= current && Experienced(matches, current, y);
    var covered := Covered(Ranges(Accepted(matches, current), current));
    forall y: nat ensures y in covered <==> y in years {
      CoveredIffExperienced(matches, current, y);
    }
    assert covered == years;
    if years != {} {
      assert Accepted(matches, current) != [];
      var i := SomeFirstCounted(matches, current);
    }
    forall i: nat | years != {} && FirstCounted(matches, current, i)
      ensures EstimateOf(matches, current) == Some(Estimate(|years|, matches[i].offset))
    {
      FirstAccepted(matches, current, i);
      assert |years| > 0;
    }
  }

  lemma CoveredIffExperienced(matches: seq<Match>, current: nat, y: nat)
    ensures y in Covered(Ranges(Accepted(matches, current), current)) <==> y <= current && Experienced(matches, current, y)
  {
    CountedYears(matches, current, y);
    forall m: Match {
      CountsIff(m, current);
    }
    if m :| m in matches && Acceptable(m, current) && m.start <= y < RangeOf(m, current).end {
      var i :| 0 <= i < |matches| && matches[i] == m;
      assert RunsTo(matches[i], current, RangeOf(m, current).end);
    }
    if y <= current && Experienced(matches, current, y) {
      var i, end: nat :| 0 <= i < |matches| && end <= current + 1 && Counts(matches[i], current)
                         && RunsTo(matches[i], current, end) && matches[i].start <= y < end;
      assert matches[i] in matches && RangeOf(matches[i], current).end == end;
    }
  }

  lemma {:induction false} SomeFirstCounted(matches: seq<Match>, current: nat) returns (i: nat)
    requires Accepted(matches, current) != []
    ensures FirstCounted(matches, current, i)
  {
    var last := |matches| - 1;
    CountsIff(matches[last], current);
    if Accepted(matches[..last], current) != [] {
      i := SomeFirstCounted(matches[..last], current);
    } else {
      i := last;
      forall k | 0 <= k < last ensures !Counts(matches[k], current) {
        AcceptedElements(matches[..last], current);
        CountsIff(matches[k], current);
        assert matches[..last][k] == matches[k];
      }
    }
  }

  /** Reordering the ranges of a text, or repeating some, changes no year of the estimate. */
  lemma OrderAndRepetitionDoNotCount(a: seq<Match>, b: seq<Match>, current: nat)
    requires forall m :: m in Unplaced(a) <==> m in Unplaced(b)
    ensures EstimateOf(a, current).Some? <==> EstimateOf(b, current).Some?
    ensures EstimateOf(a, current).Some? ==> EstimateOf(a, current).value.years == EstimateOf(b, current).value.years
  {
    YearsFollowUnplaced(a, b, current);
    YearsFollowUnplaced(b, a, current);
    assert Covered(Ranges(Accepted(a, current), current)) == Covered(Ranges(Accepted(b, current), current));
  }

  /** The matches without their positions. */
  function Unplaced(matches: seq<Match>): (unplaced: seq<Match>)
    ensures |unplaced| == |matches|
  {
    seq(|matches|, i requires 0 <= i < |matches| => matches[i].(offset := 0))
  }

  lemma YearsFollowUnplaced(a: seq<Match>, b: seq<Match>, current: nat)
    requires forall m :: m in Unplaced(a) ==> m in Unplaced(b)
    ensures Covered(Ranges(Accepted(a, current), current)) <= Covered(Ranges(Accepted(b, current), current))
  {
    forall y | y in Covered(Ranges(Accepted(a, current), current))
      ensures y in Covered(Ranges(Accepted(b, current), current))
    {
      CountedYears(a, current, y);
      CountedYears(b, current, y);
      var m :| m in a && Acceptable(m, current) && m.start <= y < RangeOf(m, current).end;
      var i :| 0 <= i < |a| && a[i] == m;
      assert Unplaced(a)[i] == m.(offset := 0);
      assert m.(offset := 0) in Unplaced(b);
      var j :| 0 <= j < |b| && Unplaced(b)[j] == m.(offset := 0);
      assert Acceptable(b[j], current) && b[j] in b;
    }
  }

  lemma {:induction false} SubsetIsNoLarger(a: set<nat>, b: set<nat>)
    requires a <= b
    ensures |a| <= |b|
  {
    assert b == a + (b - a);
  }

  /** Nobody is credited with more years than have passed since 1970, this one included. */
  lemma EstimateIsBounded(matches: seq<Match>, current: nat)
    requires EstimateOf(matches, current).Some?
    ensures 1 <= EstimateOf(matches, current).value.years <= current + 1 - EARLIEST
  {
    var years := Covered(Ranges(Accepted(matches, current), current));
    var all := Range(EARLIEST, current + 1);
    forall y | y in years ensures y in Years(all) {
      CountedYears(matches, current, y);
    }
    if y :| y in years {
      CountedYears(matches, current, y);
    }
    assert years != {};
    CountYears(all);
    SubsetIsNoLarger(years, Years(all));
  }
}
