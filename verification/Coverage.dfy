/**
 Coverage of a chat by imported date ranges: overlapping spans are merged and the stretches no
 import reaches are reported as gaps. The algorithm is judged against sets of seconds (a span
 covers the half-open `[start, end)`) and of points (it touches `start` to `end`).
 */
module Coverage {
  import opened Numbers
  import opened Wrappers

  datatype Span = Span(start: int, end: int)

  datatype GapKind = BeforeJoin | BetweenImports | AfterLast

  datatype CoverageGap = CoverageGap(start: int, end: int, kind: GapKind, canFill: bool)

  datatype CoverageReport = CoverageReport(
    earliest: Option<int>, latest: Option<int>, coveredSecs: int, gaps: seq<CoverageGap>)

  // ---------- What spans mean ----------

  predicate Covers(s: Span, t: int) {
    s.start <= t < s.end
  }

  predicate Touches(s: Span, t: int) {
    s.start <= t <= s.end
  }

  predicate Covered(spans: seq<Span>, t: int) {
    exists s <- spans :: Covers(s, t)
  }

  predicate Touched(spans: seq<Span>, t: int) {
    exists s <- spans :: Touches(s, t)
  }

  /** The seconds from `a` up to, not including, `b`. */
  ghost function Interval(a: int, b: int): (r: set<int>)
    ensures forall t :: t in r <==> a <= t < b
    ensures |r| == Max(b - a, 0)
    decreases b - a
  {
    if a >= b then {} else Interval(a, b - 1) + {b - 1}
  }

  /** The distinct seconds the spans cover. */
  ghost function Seconds(spans: seq<Span>): (r: set<int>)
    ensures forall t :: t in r <==> Covered(spans, t)
  {
    if spans == [] then {}
    else
      var prefix, s := spans[..|spans| - 1], spans[|spans| - 1];
      var r := Seconds(prefix) + Interval(s.start, s.end);
      assert forall t :: t in r <==> Covered(spans, t) by {
        assert prefix + [s] == spans;
        assert forall t :: Covered(prefix + [s], t) <==> Covered(prefix, t) || Covers(s, t);
      }
      r
  }

  /** Sorted, not inverted, and with a real gap between any two neighbours. */
  predicate Separated(spans: seq<Span>) {
    && (forall i :: 0 <= i < |spans| ==> spans[i].start <= spans[i].end)
    && (forall i, j :: 0 <= i < j < |spans| ==> spans[i].end < spans[j].start)
  }

  ghost predicate SameExtent(a: seq<Span>, b: seq<Span>) {
    && (forall t :: Covered(a, t) <==> Covered(b, t))
    && (forall t :: Touched(a, t) <==> Touched(b, t))
  }

  /** What merging must deliver. */
  ghost predicate IsMergeOf(merged: seq<Span>, spans: seq<Span>) {
    Separated(merged) && SameExtent(merged, spans)
  }

  // ---------- Merging ----------

  /** The spans that are not inverted. */
  function Kept(spans: seq<Span>): (r: seq<Span>)
    ensures forall s :: s in r <==> s in spans && s.end >= s.start
  {
    if spans == [] then []
    else (if spans[0].end >= spans[0].start then [spans[0]] else []) + Kept(spans[1..])
  }

  predicate SortedByStart(spans: seq<Span>) {
    forall i, j :: 0 <= i < j < |spans| ==> spans[i].start <= spans[j].start
  }

  function Inserted(s: Span, sorted: seq<Span>): (r: seq<Span>)
    requires SortedByStart(sorted)
    ensures multiset(r) == multiset(sorted) + multiset{s}
    ensures SortedByStart(r)
  {
    if sorted == [] || s.start < sorted[0].start then
      [s] + sorted
    else
      var rest := Inserted(s, sorted[1..]);
      InsertedBehind(sorted[0], sorted[1..], s, rest);
      assert sorted == [sorted[0]] + sorted[1..];
      [sorted[0]] + rest
  }

  lemma InsertedBehind(head: Span, tail: seq<Span>, s: Span, rest: seq<Span>)
    requires SortedByStart([head] + tail) && head.start <= s.start
    requires SortedByStart(rest) && multiset(rest) == multiset(tail) + multiset{s}
    ensures SortedByStart([head] + rest)
  {
    forall i | 0 <= i < |rest|
      ensures head.start <= rest[i].start
    {
      assert rest[i] in multiset(rest);
      if rest[i] != s {
        assert rest[i] in tail;
        var j :| 0 <= j < |tail| && tail[j] == rest[i];
        assert ([head] + tail)[0] == head && ([head] + tail)[j + 1] == rest[i];
      }
    }
  }

  /** The library sort by start: sorted, and with the same spans. */
  function Sorted(spans: seq<Span>): (r: seq<Span>)
    ensures multiset(r) == multiset(spans)
    ensures SortedByStart(r)
  {
    if spans == [] then []
    else
      var n := |spans| - 1;
      assert spans == spans[..n] + [spans[n]];
      Inserted(spans[n], Sorted(spans[..n]))
  }

  lemma SameMembers(a: seq<Span>, b: seq<Span>)
    requires multiset(a) == multiset(b)
    ensures forall s :: s in a <==> s in b
  {
    assert forall s :: s in a <==> s in multiset(a);
    assert forall s :: s in b <==> s in multiset(b);
  }

  lemma ExtentOfAppend(spans: seq<Span>, s: Span)
    ensures forall t :: Covered(spans + [s], t) <==> Covered(spans, t) || Covers(s, t)
    ensures forall t :: Touched(spans + [s], t) <==> Touched(spans, t) || Touches(s, t)
  {
  }

  /** Inverted spans mean nothing, and neither order nor repetition matters. */
  lemma ExtentOfMembers(a: seq<Span>, b: seq<Span>)
    requires forall s: Span :: s.start <= s.end ==> (s in a <==> s in b)
    ensures SameExtent(a, b)
  {
  }

  predicate LastStartsBy(merged: seq<Span>, t: int) {
    merged != [] ==> merged[|merged| - 1].start <= t
  }

  /** `merged` is a correct merge of the first `i` spans, and its last span starts by the next one. */
  ghost predicate MergedSoFar(merged: seq<Span>, v: seq<Span>, i: nat)
    requires i <= |v|
  {
    IsMergeOf(merged, v[..i]) && (i < |v| ==> LastStartsBy(merged, v[i].start))
  }

  /** Sorts and merges overlapping or touching spans, extending the last merged span in place. */
  method MergeSpans(spans: seq<Span>) returns (merged: seq<Span>)
    ensures IsMergeOf(merged, spans)
  {
    hide *;
    var v := Sorted(Kept(spans));
    KeptAndSorted(spans);
    merged := [];
    NothingMerged(v);
    for i := 0 to |v|
      invariant MergedSoFar(merged, v, i)
    {
      MergeStep(merged, v, i);
      var s := v[i];
      if merged != [] && s.start <= merged[|merged| - 1].end {
        var n := |merged| - 1;
        merged := merged[n := Span(merged[n].start, Max(merged[n].end, s.end))];
      } else {
        merged := merged + [s];
      }
    }
    AllMerged(merged, v, spans);
  }

  lemma NothingMerged(v: seq<Span>)
    ensures MergedSoFar([], v, 0)
  {
    assert v[..0] == [];
  }

  lemma AllMerged(merged: seq<Span>, v: seq<Span>, spans: seq<Span>)
    requires MergedSoFar(merged, v, |v|) && SameExtent(v, spans)
    ensures IsMergeOf(merged, spans)
  {
    assert v[..|v|] == v;
    hide Covered, Touched;
  }

  lemma MergeStep(merged: seq<Span>, v: seq<Span>, i: nat)
    requires i < |v| && SortedByStart(v) && v[i].start <= v[i].end && MergedSoFar(merged, v, i)
    ensures if merged != [] && v[i].start <= merged[|merged| - 1].end
            then var n := |merged| - 1;
                 MergedSoFar(merged[n := Span(merged[n].start, Max(merged[n].end, v[i].end))], v, i + 1)
            else MergedSoFar(merged + [v[i]], v, i + 1)
  {
    var s := v[i];
    assert v[..i + 1] == v[..i] + [s];
    assert i + 1 < |v| ==> s.start <= v[i + 1].start;
    SameExtentAppend(merged, v[..i], s);
    if merged != [] && s.start <= merged[|merged| - 1].end {
      ExtendLast(merged, s);
    } else {
      AppendSeparated(merged, s);
    }
    hide Covered, Touched, Separated, SortedByStart;
  }

  /** The spans the merge runs over: sorted, none inverted, and meaning what the input means. */
  lemma KeptAndSorted(spans: seq<Span>)
    ensures var v := Sorted(Kept(spans));
            && SortedByStart(v) && SameExtent(v, spans)
            && forall i :: 0 <= i < |v| ==> v[i].start <= v[i].end
  {
    var v := Sorted(Kept(spans));
    SameMembers(v, Kept(spans));
    ExtentOfMembers(v, spans);
    forall i | 0 <= i < |v|
      ensures v[i].start <= v[i].end
    {
      assert v[i] in v;
    }
  }

  lemma SameExtentAppend(a: seq<Span>, b: seq<Span>, s: Span)
    requires SameExtent(a, b)
    ensures SameExtent(a + [s], b + [s])
  {
    ExtentOfAppend(a, s);
    ExtentOfAppend(b, s);
    hide Covered, Touched;
  }

  lemma AppendSeparated(merged: seq<Span>, s: Span)
    requires Separated(merged) && s.start <= s.end
    requires merged != [] ==> merged[|merged| - 1].end < s.start
    ensures Separated(merged + [s])
  {
  }

  lemma ExtendLast(merged: seq<Span>, s: Span)
    requires merged != [] && Separated(merged) && s.start <= s.end
    requires merged[|merged| - 1].start <= s.start <= merged[|merged| - 1].end
    ensures var n := |merged| - 1;
            var merged' := merged[n := Span(merged[n].start, Max(merged[n].end, s.end))];
            Separated(merged') && SameExtent(merged', merged + [s])
  {
    var n := |merged| - 1;
    var last := Span(merged[n].start, Max(merged[n].end, s.end));
    var merged' := merged[n := last];
    assert merged' == merged[..n] + [last];
    assert merged == merged[..n] + [merged[n]];
    ExtentOfAppend(merged[..n], last);
    ExtentOfAppend(merged[..n], merged[n]);
    ExtentOfAppend(merged, s);
  }

  lemma PointOfHead(m: seq<Span>, t: int)
    requires m != [] && Separated(m)
    ensures Covered(m[1..], t) <==> Covered(m, t) && t > m[0].end
    ensures Touched(m[1..], t) <==> Touched(m, t) && t > m[0].end
    ensures Covered(m, t) && t <= m[0].end ==> Covers(m[0], t)
    ensures Touched(m, t) ==> m[0].start <= t
  {
    var tail := m[1..];
    forall s <- tail
      ensures s in m && m[0].end < s.start
    {
      var i :| 0 <= i < |tail| && tail[i] == s;
      assert m[i + 1] == s;
    }
    forall s <- m
      ensures s == m[0] || s in tail
    {
      var i :| 0 <= i < |m| && m[i] == s;
      assert i > 0 ==> tail[i - 1] == s;
    }
    assert m[0].start <= m[0].end;
  }

  lemma ExtentOfHead(m: seq<Span>)
    requires m != [] && Separated(m)
    ensures forall t :: Covered(m[1..], t) <==> Covered(m, t) && t > m[0].end
    ensures forall t :: Touched(m[1..], t) <==> Touched(m, t) && t > m[0].end
    ensures forall t :: Covered(m, t) && t <= m[0].end ==> Covers(m[0], t)
    ensures forall t :: Touched(m, t) ==> m[0].start <= t
    ensures Touched(m, m[0].start)
    ensures Separated(m[1..])
  {
    assert m[0] in m && Touches(m[0], m[0].start);
    hide Covered, Touched;
    forall t {
      PointOfHead(m, t);
    }
  }

  lemma FirstEndsNoEarlier(a: seq<Span>, b: seq<Span>)
    requires Separated(a) && Separated(b) && SameExtent(a, b) && a != [] && b != []
    requires a[0].start == b[0].start
    ensures a[0].end >= b[0].end
  {
    ExtentOfHead(a);
    assert b[0] in b;
    assert Covers(b[0], a[0].end) ==> Covered(b, a[0].end);
  }

  /** The extent determines the merged list: two separated lists with the same extent are equal. */
  lemma {:induction false} MergeIsUnique(a: seq<Span>, b: seq<Span>)
    requires Separated(a) && Separated(b) && SameExtent(a, b)
    ensures a == b
  {
    if a != [] {
      ExtentOfHead(a);
      assert Touched(b, a[0].start);
    }
    if b != [] {
      ExtentOfHead(b);
      assert Touched(a, b[0].start);
    }
    if a != [] && b != [] {
      FirstEndsNoEarlier(a, b);
      FirstEndsNoEarlier(b, a);
      MergeIsUnique(a[1..], b[1..]);
      assert a == [a[0]] + a[1..] && b == [b[0]] + b[1..];
    }
  }

  // ---------- The report ----------

  function TotalLength(spans: seq<Span>): int {
    if spans == [] then 0
    else TotalLength(spans[..|spans| - 1]) + spans[|spans| - 1].end - spans[|spans| - 1].start
  }

  function GapBefore(m: seq<Span>, createdAt: Option<int>, floor: int): seq<CoverageGap>
    requires m != []
  {
    if createdAt.Some? && m[0].start - createdAt.value > floor
    then [CoverageGap(createdAt.value, m[0].start, BeforeJoin, true)] else []
  }

  /** The gaps between the neighbours of the first `n` merged spans. */
  function GapsBetween(m: seq<Span>, n: nat, floor: int): seq<CoverageGap>
    requires n <= |m|
  {
    if n <= 1 then []
    else
      GapsBetween(m, n - 1, floor)
      + if m[n - 1].start - m[n - 2].end > floor
        then [CoverageGap(m[n - 2].end, m[n - 1].start, BetweenImports, true)] else []
  }

  function GapAfter(m: seq<Span>, now: int, floor: int): seq<CoverageGap>
    requires m != []
  {
    if now - m[|m| - 1].end > floor then [CoverageGap(m[|m| - 1].end, now, AfterLast, true)] else []
  }

  function ReportOf(m: seq<Span>, createdAt: Option<int>, now: int, floor: int): CoverageReport {
    if m == [] then CoverageReport(None, None, 0, [])
    else CoverageReport(
      Some(m[0].start), Some(m[|m| - 1].end), TotalLength(m),
      GapBefore(m, createdAt, floor) + GapsBetween(m, |m|, floor) + GapAfter(m, now, floor))
  }

  /** The report is read off a correct merge of the imports. */
  ghost predicate Describes(r: CoverageReport, spans: seq<Span>, createdAt: Option<int>, now: int, floor: int) {
    exists m :: IsMergeOf(m, spans) && r == ReportOf(m, createdAt, now, floor)
  }

  method AnalyzeCoverage(spans: seq<Span>, createdAt: Option<int>, now: int, minGapSecs: int)
    returns (report: CoverageReport)
    ensures Describes(report, spans, createdAt, now, minGapSecs)
  {
    hide IsMergeOf;
    var merged := MergeSpans(spans);
    if merged == [] {
      return CoverageReport(None, None, 0, []);
    }
    var first, last := merged[0], merged[|merged| - 1];
    var coveredSecs := 0;
    for i := 0 to |merged|
      invariant coveredSecs == TotalLength(merged[..i])
    {
      assert merged[..i + 1][..i] == merged[..i];
      coveredSecs := coveredSecs + (merged[i].end - merged[i].start);
    }
    assert merged[..|merged|] == merged;
    var gaps := [];
    if createdAt.Some? && first.start - createdAt.value > minGapSecs {
      gaps := gaps + [CoverageGap(createdAt.value, first.start, BeforeJoin, true)];
    }
    for i := 1 to |merged|
      invariant gaps == GapBefore(merged, createdAt, minGapSecs) + GapsBetween(merged, i, minGapSecs)
    {
      if merged[i].start - merged[i - 1].end > minGapSecs {
        gaps := gaps + [CoverageGap(merged[i - 1].end, merged[i].start, BetweenImports, true)];
      }
    }
    if now - last.end > minGapSecs {
      gaps := gaps + [CoverageGap(last.end, now, AfterLast, true)];
    }
    report := CoverageReport(Some(first.start), Some(last.end), coveredSecs, gaps);
    assert report.gaps == ReportOf(merged, createdAt, now, minGapSecs).gaps;
  }

  /**
   The report depends only on which non-inverted spans were imported: not on their order, not on
   repetition, and not on inverted spans mixed in.
   */
  lemma ReportIsDetermined(
      r1: CoverageReport, r2: CoverageReport, spans1: seq<Span>, spans2: seq<Span>,
      createdAt: Option<int>, now: int, floor: int)
    requires Describes(r1, spans1, createdAt, now, floor) && Describes(r2, spans2, createdAt, now, floor)
    requires forall s: Span :: s.start <= s.end ==> (s in spans1 <==> s in spans2)
    ensures r1 == r2
  {
    ExtentOfMembers(spans1, spans2);
    var m1: seq<Span> :| IsMergeOf(m1, spans1) && r1 == ReportOf(m1, createdAt, now, floor);
    var m2: seq<Span> :| IsMergeOf(m2, spans2) && r2 == ReportOf(m2, createdAt, now, floor);
    hide ReportOf, Covered, Touched;
    MergeIsUnique(m1, m2);
  }

  /** Merging already merged coverage again, or on top of the imports, changes nothing. */
  lemma MergingAgainChangesNothing(
      r1: CoverageReport, r2: CoverageReport, spans: seq<Span>, merged: seq<Span>,
      createdAt: Option<int>, now: int, floor: int)
    requires IsMergeOf(merged, spans)
    requires Describes(r1, spans, createdAt, now, floor)
    requires Describes(r2, merged, createdAt, now, floor) || Describes(r2, spans + merged, createdAt, now, floor)
    ensures r1 == r2
  {
    forall t
      ensures Covered(spans + merged, t) <==> Covered(spans, t)
      ensures Touched(spans + merged, t) <==> Touched(spans, t)
    {
      assert forall s :: s in spans + merged <==> s in spans || s in merged;
      assert Covered(merged, t) <==> Covered(spans, t);
      assert Touched(merged, t) <==> Touched(spans, t);
    }
    hide ReportOf, Covered, Touched;
    var m1: seq<Span> :| IsMergeOf(m1, spans) && r1 == ReportOf(m1, createdAt, now, floor);
    if Describes(r2, merged, createdAt, now, floor) {
      var m2: seq<Span> :| IsMergeOf(m2, merged) && r2 == ReportOf(m2, createdAt, now, floor);
      MergeIsUnique(m1, m2);
    } else {
      var m2: seq<Span> :| IsMergeOf(m2, spans + merged) && r2 == ReportOf(m2, createdAt, now, floor);
      MergeIsUnique(m1, m2);
    }
  }

  /** The reported ends are the first and the last point any import reaches; there are none without imports. */
  lemma EndsAreExtremes(r: CoverageReport, spans: seq<Span>, createdAt: Option<int>, now: int, floor: int)
    requires Describes(r, spans, createdAt, now, floor)
    ensures r.earliest.Some? <==> r.latest.Some?
    ensures r.earliest.Some? <==> exists s <- spans :: s.start <= s.end
    ensures r.earliest.Some? ==>
              && Touched(spans, r.earliest.value) && Touched(spans, r.latest.value)
              && forall t :: Touched(spans, t) ==> r.earliest.value <= t <= r.latest.value
  {
    var m: seq<Span> :| IsMergeOf(m, spans) && r == ReportOf(m, createdAt, now, floor);
    if m == [] {
      forall s | s in spans
        ensures s.start > s.end
      {
        assert s.start <= s.end ==> Touches(s, s.start) && Touched(spans, s.start);
        assert !Touched(m, s.start);
      }
    } else {
      PointsOf(m, m[0].start);
      PointsOf(m, m[|m| - 1].end);
      forall t | Touched(spans, t)
        ensures m[0].start <= t <= m[|m| - 1].end
      {
        PointsOf(m, t);
      }
      assert Touched(spans, m[0].start);
    }
  }

  // ---------- Covered seconds ----------

  lemma PrefixLiesBefore(m: seq<Span>, t: int)
    requires m != [] && Separated(m) && Covered(m[..|m| - 1], t)
    ensures t < m[|m| - 1].start
  {
    var p :| p in m[..|m| - 1] && Covers(p, t);
  }

  lemma {:induction false} SeparatedSize(m: seq<Span>)
    requires Separated(m)
    ensures |Seconds(m)| == TotalLength(m)
  {
    if m != [] {
      var prefix, s := m[..|m| - 1], m[|m| - 1];
      SeparatedSize(prefix);
      assert Seconds(m) == Seconds(prefix) + Interval(s.start, s.end);
      forall t | Covered(prefix, t)
        ensures t < s.start
      {
        PrefixLiesBefore(m, t);
      }
      hide Seconds, Interval, Covered;
      assert Seconds(prefix) !! Interval(s.start, s.end);
    }
  }

  lemma SameSeconds(a: seq<Span>, b: seq<Span>)
    requires SameExtent(a, b)
    ensures Seconds(a) == Seconds(b)
  {
    hide Covered, Touched;
    forall t
      ensures t in Seconds(a) <==> t in Seconds(b)
    {
      assert Covered(a, t) <==> Covered(b, t);
    }
  }

  lemma ReportedTotal(m: seq<Span>, createdAt: Option<int>, now: int, floor: int)
    ensures ReportOf(m, createdAt, now, floor).coveredSecs == TotalLength(m)
  {
  }

  /** The covered total is the number of distinct seconds in the union of the imports. */
  lemma CoveredSecsCountsSeconds(
      r: CoverageReport, spans: seq<Span>, createdAt: Option<int>, now: int, floor: int)
    requires Describes(r, spans, createdAt, now, floor)
    ensures r.coveredSecs == |Seconds(spans)|
  {
    hide SameExtent, Separated, ReportOf;
    var m: seq<Span> :| IsMergeOf(m, spans) && r == ReportOf(m, createdAt, now, floor);
    SeparatedSize(m);
    ReportedTotal(m, createdAt, now, floor);
    SameSeconds(m, spans);
  }

  // ---------- Gaps ----------

  /**
   A longest stretch `[a, b)` of `[created, now]` that no import reaches: it covers no second,
   has no import point strictly inside, and at each end meets the range's end or an import.
   */
  ghost predicate Unreached(spans: seq<Span>, created: int, now: int, a: int, b: int) {
    && created <= a < b <= now
    && (forall t :: a <= t < b ==> !Covered(spans, t))
    && (forall t :: a < t < b ==> !Touched(spans, t))
    && (a == created || Touched(spans, a))
    && (b == now || Touched(spans, b))
  }

  lemma {:induction false} GapsBetweenAre(m: seq<Span>, n: nat, floor: int)
    requires n <= |m|
    ensures forall g :: g in GapsBetween(m, n, floor) <==>
              exists i :: 0 <= i < n - 1 && g == CoverageGap(m[i].end, m[i + 1].start, BetweenImports, true)
                          && m[i + 1].start - m[i].end > floor
  {
    if n > 1 {
      GapsBetweenAre(m, n - 1, floor);
      forall g
        ensures g in GapsBetween(m, n, floor) <==>
                  exists i :: 0 <= i < n - 1 && g == CoverageGap(m[i].end, m[i + 1].start, BetweenImports, true)
                              && m[i + 1].start - m[i].end > floor
      {
        var last := CoverageGap(m[n - 2].end, m[n - 1].start, BetweenImports, true);
        assert g in GapsBetween(m, n, floor) <==>
                 g in GapsBetween(m, n - 1, floor) || (g == last && m[n - 1].start - m[n - 2].end > floor);
        if g == last && m[n - 1].start - m[n - 2].end > floor {
          assert g == CoverageGap(m[n - 2].end, m[n - 2 + 1].start, BetweenImports, true);
        }
      }
    }
  }

  /** The bounds of the stretches around the merged spans: before the first, between two, after the last. */
  predicate IsBound(m: seq<Span>, created: int, now: int, a: int, b: int)
    requires m != []
  {
    || (a == created && b == m[0].start)
    || (exists i :: 0 <= i < |m| - 1 && a == m[i].end && b == m[i + 1].start)
    || (a == m[|m| - 1].end && b == now)
  }

  lemma PointsOf(m: seq<Span>, t: int)
    requires Separated(m)
    ensures Touched(m, t) <==> exists i :: 0 <= i < |m| && m[i].start <= t <= m[i].end
    ensures Covered(m, t) <==> exists i :: 0 <= i < |m| && m[i].start <= t < m[i].end
  {
    assert forall i :: 0 <= i < |m| ==> m[i] in m;
    if Touched(m, t) {
      var s :| s in m && Touches(s, t);
    }
    if Covered(m, t) {
      var s :| s in m && Covers(s, t);
    }
  }

  lemma BoundIsUnreached(m: seq<Span>, created: int, now: int, a: int, b: int)
    requires m != [] && Separated(m) && created <= m[0].start && m[|m| - 1].end <= now
    requires IsBound(m, created, now, a, b) && a < b
    ensures Unreached(m, created, now, a, b)
  {
    forall t
      ensures a < t < b ==> !Touched(m, t)
      ensures a <= t < b ==> !Covered(m, t)
    {
      PointsOf(m, t);
    }
    PointsOf(m, a);
    PointsOf(m, b);
  }

  lemma UnreachedIsBound(m: seq<Span>, created: int, now: int, a: int, b: int)
    requires m != [] && Separated(m) && created <= m[0].start && m[|m| - 1].end <= now
    requires Unreached(m, created, now, a, b)
    ensures IsBound(m, created, now, a, b)
  {
    if Touched(m, a) {
      UnreachedAfterASpan(m, created, now, a, b);
    } else {
      UnreachedFromTheStart(m, created, now, a, b);
    }
  }

  lemma UnreachedAfterASpan(m: seq<Span>, created: int, now: int, a: int, b: int)
    requires m != [] && Separated(m) && created <= m[0].start && m[|m| - 1].end <= now
    requires Unreached(m, created, now, a, b) && Touched(m, a)
    ensures IsBound(m, created, now, a, b)
  {
    PointsOf(m, a);
    PointsOf(m, b);
    hide Covered, Touched;
    var i :| 0 <= i < |m| && m[i].start <= a <= m[i].end;
    assert !Covered(m, a);
    if i + 1 < |m| {
      PointsOf(m, m[i + 1].start);
    }
  }

  lemma UnreachedFromTheStart(m: seq<Span>, created: int, now: int, a: int, b: int)
    requires m != [] && Separated(m) && created <= m[0].start && m[|m| - 1].end <= now
    requires Unreached(m, created, now, a, b) && !Touched(m, a)
    ensures IsBound(m, created, now, a, b)
  {
    PointsOf(m, a);
    PointsOf(m, b);
    PointsOf(m, m[0].start);
    hide Covered, Touched;
  }

  /** The time a report speaks of: from the chat's creation, or the first import if that is unknown or later, */
  function SpeaksFrom(r: CoverageReport, createdAt: Option<int>): int
    requires r.earliest.Some?
  {
    if createdAt.Some? then Min(createdAt.value, r.earliest.value) else r.earliest.value
  }

  /** to now, or the last import if that is later. */
  function SpeaksTo(r: CoverageReport, now: int): int
    requires r.latest.Some?
  {
    Max(now, r.latest.value)
  }

  /** It says the same as one for just that time. */
  lemma ReportSpeaks(r: CoverageReport, spans: seq<Span>, createdAt: Option<int>, now: int, floor: int)
    requires Describes(r, spans, createdAt, now, floor) && r.earliest.Some? && floor >= 0
    ensures r.latest.Some?
    ensures Describes(r, spans, Some(SpeaksFrom(r, createdAt)), SpeaksTo(r, now), floor)
  {
    hide IsMergeOf, GapsBetween, TotalLength;
    var m: seq<Span> :| IsMergeOf(m, spans) && r == ReportOf(m, createdAt, now, floor);
    assert r == ReportOf(m, Some(SpeaksFrom(r, createdAt)), SpeaksTo(r, now), floor);
  }

  /**
   Gap completeness. If the floor is not negative, the reported gaps are exactly the longest unreached
   stretches longer than the floor, in the time from the chat's creation or the first import to now
   or the last, each classified by where it lies. Without imports there are none.
   */
  lemma GapsAreTheUnreached(
      r: CoverageReport, spans: seq<Span>, createdAt: Option<int>, now: int, floor: int, a: int, b: int)
    requires Describes(r, spans, createdAt, now, floor) && floor >= 0
    ensures r.earliest.Some? <==> r.latest.Some?
    ensures if r.earliest.None? then r.gaps == []
            else
              && (Unreached(spans, SpeaksFrom(r, createdAt), SpeaksTo(r, now), a, b) && b - a > floor
                  <==> exists g <- r.gaps :: g.start == a && g.end == b)
              && (forall g <- r.gaps ::
                    && g.canFill
                    && (g.kind == BeforeJoin <==> g.end <= r.earliest.value)
                    && (g.kind == AfterLast <==> g.start >= r.latest.value))
  {
    hide Unreached, IsMergeOf, GapBefore, GapAfter, GapsBetween;
    if r.earliest.Some? {
      ReportSpeaks(r, spans, createdAt, now, floor);
      hide Describes;
      GapsWithin(r, spans, SpeaksFrom(r, createdAt), SpeaksTo(r, now), floor, a, b);
    }
  }

  lemma GapsWithin(
      r: CoverageReport, spans: seq<Span>, created: int, now: int, floor: int, a: int, b: int)
    requires Describes(r, spans, Some(created), now, floor)
    requires r.earliest.Some? && created <= r.earliest.value && r.latest.value <= now && floor >= 0
    ensures r.latest.Some?
    ensures Unreached(spans, created, now, a, b) && b - a > floor
       <==> exists g <- r.gaps :: g.start == a && g.end == b
    ensures forall g <- r.gaps ::
              && g.canFill
              && (g.kind == BeforeJoin <==> g.end <= r.earliest.value)
              && (g.kind == AfterLast <==> g.start >= r.latest.value)
  {
    var m: seq<Span> :| IsMergeOf(m, spans) && r == ReportOf(m, Some(created), now, floor);
    GapsBetweenAre(m, |m|, floor);
    assert Unreached(spans, created, now, a, b) <==> Unreached(m, created, now, a, b) by {
      hide Covered, Touched;
    }
    if Unreached(m, created, now, a, b) {
      UnreachedIsBound(m, created, now, a, b);
    } else if a < b && IsBound(m, created, now, a, b) {
      BoundIsUnreached(m, created, now, a, b);
    }
    hide Unreached, Covered, Touched;
    GapsAreTheBounds(m, created, now, floor, a, b);
    GapsAreClassified(m, created, now, floor);
  }

  lemma GapsAreTheBounds(m: seq<Span>, created: int, now: int, floor: int, a: int, b: int)
    requires m != [] && Separated(m) && created <= m[0].start && m[|m| - 1].end <= now && floor >= 0
    ensures IsBound(m, created, now, a, b) && b - a > floor
       <==> exists g <- ReportOf(m, Some(created), now, floor).gaps :: g.start == a && g.end == b
  {
    hide GapsBetween, Separated;
    var before, between, after :=
      GapBefore(m, Some(created), floor), GapsBetween(m, |m|, floor), GapAfter(m, now, floor);
    var gaps := ReportOf(m, Some(created), now, floor).gaps;
    GapsBetweenAre(m, |m|, floor);
    assert forall g :: g in gaps <==> g in before || g in between || g in after;
    if IsBound(m, created, now, a, b) && b - a > floor {
      if a == created && b == m[0].start {
        assert before[0] in gaps;
      } else if a == m[|m| - 1].end && b == now {
        assert after[0] in gaps;
      } else {
        var i :| 0 <= i < |m| - 1 && a == m[i].end && b == m[i + 1].start;
        assert CoverageGap(a, b, BetweenImports, true) in between;
      }
    }
  }

  lemma GapsAreClassified(m: seq<Span>, created: int, now: int, floor: int)
    requires m != [] && Separated(m) && created <= m[0].start && m[|m| - 1].end <= now && floor >= 0
    ensures forall g <- ReportOf(m, Some(created), now, floor).gaps ::
              && g.canFill
              && (g.kind == BeforeJoin <==> g.end <= m[0].start)
              && (g.kind == AfterLast <==> g.start >= m[|m| - 1].end)
  {
    GapsBetweenAre(m, |m|, floor);
    hide GapsBetween;
  }

  /** Gaps in time order, none reaching past the start of the next. */
  predicate Ordered(gaps: seq<CoverageGap>) {
    forall i, j :: 0 <= i < j < |gaps| ==> gaps[i].end <= gaps[j].start
  }

  lemma OrderedAppend(a: seq<CoverageGap>, b: seq<CoverageGap>, t: int)
    requires Ordered(a) && Ordered(b)
    requires (forall g <- a :: g.end <= t) && (forall g <- b :: t <= g.start)
    ensures Ordered(a + b)
  {
    assert forall i :: 0 <= i < |a| ==> a[i] in a;
    assert forall i :: 0 <= i < |b| ==> b[i] in b;
  }

  /** Reported gaps come in time order and do not overlap. */
  lemma GapsAreOrdered(r: CoverageReport, spans: seq<Span>, createdAt: Option<int>, now: int, floor: int)
    requires Describes(r, spans, createdAt, now, floor)
    ensures Ordered(r.gaps)
  {
    hide IsMergeOf, ReportOf, Ordered;
    var m: seq<Span> :| IsMergeOf(m, spans) && r == ReportOf(m, createdAt, now, floor);
    ReportedGapsAreOrdered(m, spans, createdAt, now, floor);
  }

  lemma ReportedGapsAreOrdered(m: seq<Span>, spans: seq<Span>, createdAt: Option<int>, now: int, floor: int)
    requires IsMergeOf(m, spans)
    ensures Ordered(ReportOf(m, createdAt, now, floor).gaps)
  {
    hide SameExtent, GapsBetween, Ordered;
    if m == [] {
      NoGapsAreOrdered();
    } else {
      var before, between, after :=
        GapBefore(m, createdAt, floor), GapsBetween(m, |m|, floor), GapAfter(m, now, floor);
      BetweenOrdered(m, |m|, floor);
      FewGapsAreOrdered(before);
      FewGapsAreOrdered(after);
      OrderedAppend(before, between, m[0].start);
      assert forall g <- before + between :: g in before || g in between;
      assert m[0].end <= m[|m| - 1].end by { assert |m| > 1 ==> m[0].end < m[|m| - 1].start; }
      OrderedAppend(before + between, after, m[|m| - 1].end);
    }
  }

  lemma NoGapsAreOrdered()
    ensures Ordered([])
  {
  }

  lemma FewGapsAreOrdered(gaps: seq<CoverageGap>)
    requires |gaps| <= 1
    ensures Ordered(gaps)
  {
  }

  lemma {:induction false} BetweenOrdered(m: seq<Span>, n: nat, floor: int)
    requires Separated(m) && 1 <= n <= |m|
    ensures Ordered(GapsBetween(m, n, floor))
    ensures forall g <- GapsBetween(m, n, floor) :: m[0].end <= g.start && g.end <= m[n - 1].start
  {
    if n > 1 {
      BetweenOrdered(m, n - 1, floor);
      var before := GapsBetween(m, n - 1, floor);
      var last := if m[n - 1].start - m[n - 2].end > floor
                  then [CoverageGap(m[n - 2].end, m[n - 1].start, BetweenImports, true)] else [];
      assert m[0].end <= m[n - 2].end by { assert n > 2 ==> m[0].end < m[n - 2].start; }
      assert m[n - 2].start <= m[n - 2].end < m[n - 1].start;
      OrderedAppend(before, last, m[n - 2].end);
      assert GapsBetween(m, n, floor) == before + last;
    }
  }

  function GapLengths(gaps: seq<CoverageGap>): int {
    if gaps == [] then 0 else GapLengths(gaps[..|gaps| - 1]) + gaps[|gaps| - 1].end - gaps[|gaps| - 1].start
  }

  lemma {:induction false} GapLengthsAppend(a: seq<CoverageGap>, b: seq<CoverageGap>)
    ensures GapLengths(a + b) == GapLengths(a) + GapLengths(b)
  {
    if b == [] {
      assert a + b == a;
    } else {
      assert (a + b)[..|a + b| - 1] == a + b[..|b| - 1];
      GapLengthsAppend(a, b[..|b| - 1]);
    }
  }

  lemma {:induction false} BetweenAndCovered(m: seq<Span>, n: nat)
    requires Separated(m) && 1 <= n <= |m|
    ensures GapLengths(GapsBetween(m, n, 0)) + TotalLength(m[..n]) == m[n - 1].end - m[0].start
  {
    assert m[..n][..n - 1] == m[..n - 1];
    if n > 1 {
      BetweenAndCovered(m, n - 1);
      GapLengthsAppend(GapsBetween(m, n - 1, 0), [CoverageGap(m[n - 2].end, m[n - 1].start, BetweenImports, true)]);
    } else {
      assert m[..0] == [];
    }
  }

  /** Conservation: with no floor, covered seconds and gaps together make up all the time the report speaks of. */
  lemma CoverageAndGapsMakeUpTime(r: CoverageReport, spans: seq<Span>, createdAt: Option<int>, now: int)
    requires Describes(r, spans, createdAt, now, 0)
    ensures r.earliest.Some? <==> r.latest.Some?
    ensures r.coveredSecs + GapLengths(r.gaps)
         == if r.earliest.None? then 0 else SpeaksTo(r, now) - SpeaksFrom(r, createdAt)
  {
    hide IsMergeOf, GapBefore, GapAfter, GapsBetween;
    if r.earliest.Some? {
      ReportSpeaks(r, spans, createdAt, now, 0);
      hide Describes;
      TimeWithin(r, spans, SpeaksFrom(r, createdAt), SpeaksTo(r, now));
    }
  }

  lemma TimeWithin(r: CoverageReport, spans: seq<Span>, created: int, now: int)
    requires Describes(r, spans, Some(created), now, 0)
    requires r.earliest.Some? && created <= r.earliest.value
    ensures r.latest.Some? && (r.latest.value <= now ==> r.coveredSecs + GapLengths(r.gaps) == now - created)
  {
    var m: seq<Span> :| IsMergeOf(m, spans) && r == ReportOf(m, Some(created), now, 0);
    var before, between, after := GapBefore(m, Some(created), 0), GapsBetween(m, |m|, 0), GapAfter(m, now, 0);
    BetweenAndCovered(m, |m|);
    assert m[..|m|] == m;
    GapLengthsAppend(before + between, after);
    GapLengthsAppend(before, between);
    assert forall g: CoverageGap :: [g][..0] == [];
    hide GapsBetween, Covered, Touched;
  }

  // ---------- Zero-length imports ----------

  /** A longest run of uncovered seconds in `[created, now]`. */
  ghost predicate UncoveredRun(spans: seq<Span>, created: int, now: int, a: int, b: int) {
    && created <= a < b <= now
    && (forall t :: a <= t < b ==> !Covered(spans, t))
    && (a == created || Covered(spans, a - 1))
    && (b == now || Covered(spans, b))
  }

  /** An import of a single instant, strictly inside the range and away from all other coverage. */
  ghost predicate Isolated(spans: seq<Span>, created: int, now: int, p: int) {
    created < p < now && Touched(spans, p) && !Covered(spans, p) && !Covered(spans, p - 1)
  }

  /**
   The unreached stretches are the longest runs of uncovered seconds exactly when no import of a
   single instant stands alone: such an import covers nothing and still splits a gap in two.
   */
  lemma OnlyIsolatedInstantsSplitGaps(spans: seq<Span>, merged: seq<Span>, created: int, now: int)
    requires IsMergeOf(merged, spans)
    ensures (forall a, b :: Unreached(spans, created, now, a, b) <==> UncoveredRun(spans, created, now, a, b))
       <==> forall p :: !Isolated(spans, created, now, p)
  {
    if p :| Isolated(spans, created, now, p) {
      var a := StretchBefore(spans, merged, created, now, p);
      assert Unreached(spans, created, now, a, p) && !UncoveredRun(spans, created, now, a, p);
    } else {
      forall a, b
        ensures Unreached(spans, created, now, a, b) <==> UncoveredRun(spans, created, now, a, b)
      {
        NoInstantNoSplit(spans, created, now, a, b);
      }
    }
  }

  lemma TouchedNextToCovered(spans: seq<Span>, t: int)
    ensures Covered(spans, t) ==> Touched(spans, t) && Touched(spans, t + 1)
  {
    if Covered(spans, t) {
      var s :| s in spans && Covers(s, t);
      assert Touches(s, t) && Touches(s, t + 1);
    }
  }

  lemma NoInstantNoSplit(spans: seq<Span>, created: int, now: int, a: int, b: int)
    requires forall p :: !Isolated(spans, created, now, p)
    ensures Unreached(spans, created, now, a, b) <==> UncoveredRun(spans, created, now, a, b)
  {
    TouchedNextToCovered(spans, a - 1);
    TouchedNextToCovered(spans, b);
    hide Covered, Touched;
    assert !Isolated(spans, created, now, a) && !Isolated(spans, created, now, b);
    if UncoveredRun(spans, created, now, a, b) {
      forall t | a < t < b
        ensures !Touched(spans, t)
      {
        assert !Isolated(spans, created, now, t);
        assert !Covered(spans, t) && !Covered(spans, t - 1);
      }
    }
  }

  /** The stretch that ends at an isolated instant starts at the import before it, or at the creation. */
  lemma StretchBefore(spans: seq<Span>, m: seq<Span>, created: int, now: int, p: int) returns (a: int)
    requires IsMergeOf(m, spans) && Isolated(spans, created, now, p)
    ensures Unreached(spans, created, now, a, p)
  {
    assert Touched(m, p) && !Covered(m, p) && !Covered(m, p - 1);
    PointsOf(m, p);
    PointsOf(m, p - 1);
    hide Covered, Touched;
    var i :| 0 <= i < |m| && m[i].start <= p <= m[i].end;
    assert m[i] == Span(p, p);
    a := if i > 0 then Max(created, m[i - 1].end) else created;
    StretchToInstant(m, created, now, i);
    assert Unreached(m, created, now, a, p);
  }

  /** Before a merged span of one instant lies a stretch back to the span before, or to the start. */
  lemma StretchToInstant(m: seq<Span>, created: int, now: int, i: nat)
    requires Separated(m) && i < |m| && m[i].start == m[i].end && created < m[i].start < now
    ensures Unreached(m, created, now, if i > 0 then Max(created, m[i - 1].end) else created, m[i].start)
  {
    hide Covered, Touched;
    var p, a := m[i].start, if i > 0 then Max(created, m[i - 1].end) else created;
    PointsOf(m, p);
    PointsOf(m, a);
    forall t
      ensures a < t < p ==> !Touched(m, t)
      ensures a <= t < p ==> !Covered(m, t)
    {
      PointsOf(m, t);
    }
  }
}
