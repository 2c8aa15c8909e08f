/**
 * ArcSpline: the spline of a FreeformLine. Corners and the straight segments
 * between them become markers; the stretches between markers become biarcs;
 * every marker and biarc half becomes a display shape or a corner point.
 */
module ArcSplines {
  import opened Common
  import opened Vectors
  import opened FreeformLines
  import opened Geometry
  import opened ArcSplineUtil
  import opened SplineElements

  // ---------------------------------------------------------------------
  // Sorting markers by Range::isLess
  // ---------------------------------------------------------------------

  /** No range comes after one it is less than (Range::isLess). */
  predicate Ascending(s: seq<Range>)
  {
    forall i, j :: 0 <= i < j < |s| ==> !Range.IsLess(s[j], s[i])
  }

  /** x inserted before the first range that is not less than it. */
  function InsertInOrder(x: Range, s: seq<Range>): seq<Range>
  {
    if s == [] || !Range.IsLess(s[0], x) then [x] + s
    else [s[0]] + InsertInOrder(x, s[1..])
  }

  /** Insertion keeps the order and adds exactly x. */
  lemma InsertInOrderFacts(x: Range, s: seq<Range>)
    ensures multiset(InsertInOrder(x, s)) == multiset(s) + multiset{x}
    ensures Ascending(s) ==> Ascending(InsertInOrder(x, s))
  {
    InsertInOrderCount(x, s);
    if Ascending(s) {
      InsertInOrderAscending(x, s);
    }
  }

  lemma {:induction false} InsertInOrderCount(x: Range, s: seq<Range>)
    ensures multiset(InsertInOrder(x, s)) == multiset(s) + multiset{x}
  {
    if s != [] && Range.IsLess(s[0], x) {
      InsertInOrderCount(x, s[1..]);
      assert s == [s[0]] + s[1..];
    }
  }

  /** No element of s sorts before h. */
  predicate NoneBelow(h: Range, s: seq<Range>)
  {
    forall j :: 0 <= j < |s| ==> !Range.IsLess(s[j], h)
  }

  lemma {:induction false} InsertInOrderAscending(x: Range, s: seq<Range>)
    requires Ascending(s)
    ensures Ascending(InsertInOrder(x, s))
  {
    if s == [] || !Range.IsLess(s[0], x) {
      AscendingCons(x, s);
    } else {
      assert Ascending(s[1..]);
      InsertInOrderAscending(x, s[1..]);
      InsertNoneBelow(s[0], x, s[1..]);
      AscendingCons(s[0], InsertInOrder(x, s[1..]));
    }
  }

  lemma {:induction false} InsertNoneBelow(h: Range, x: Range, s: seq<Range>)
    requires NoneBelow(h, s) && !Range.IsLess(x, h)
    ensures NoneBelow(h, InsertInOrder(x, s))
  {
    if s != [] && Range.IsLess(s[0], x) {
      InsertNoneBelow(h, x, s[1..]);
    }
  }

  lemma AscendingCons(h: Range, s: seq<Range>)
    requires Ascending(s) && (s == [] || !Range.IsLess(s[0], h))
    ensures Ascending([h] + s)
  {
  }

  /** The insertion sort of s: the model of std::sort over a strict total order. */
  function SortRanges(s: seq<Range>): seq<Range>
    decreases |s|
  {
    if s == [] then [] else InsertInOrder(s[|s| - 1], SortRanges(s[..|s| - 1]))
  }

  lemma {:induction false} SortRangesFacts(s: seq<Range>)
    ensures Ascending(SortRanges(s)) && multiset(SortRanges(s)) == multiset(s)
    decreases |s|
  {
    if s != [] {
      SortRangesFacts(s[..|s| - 1]);
      InsertInOrderFacts(s[|s| - 1], SortRanges(s[..|s| - 1]));
      assert s == s[..|s| - 1] + [s[|s| - 1]];
    }
  }

  /** The first range of an ascending sequence is not after any of its ranges. */
  lemma AscendingHead(a: seq<Range>, x: Range)
    requires Ascending(a) && x in a
    ensures !Range.IsLess(x, a[0])
  {
    var k :| 0 <= k < |a| && a[k] == x;
    if 0 < k {
      assert !Range.IsLess(a[k], a[0]);
    }
  }

  /**
   * Two orderings of the same ranges are the same sequence: Range::isLess is a
   * strict total order, so the result of any sort is determined.
   */
  lemma {:induction false} AscendingUnique(a: seq<Range>, b: seq<Range>)
    requires Ascending(a) && Ascending(b) && multiset(a) == multiset(b)
    ensures a == b
    decreases |a|
  {
    assert |b| == |a| by { assert |multiset(a)| == |a| && |multiset(b)| == |b|; }
    if a != [] {
      SameHeads(a, b);
      SameTails(a, b);
      AscendingUnique(a[1..], b[1..]);
      assert a == [a[0]] + a[1..] && b == [b[0]] + b[1..];
    }
  }

  lemma SameHeads(a: seq<Range>, b: seq<Range>)
    requires Ascending(a) && Ascending(b) && multiset(a) == multiset(b) && a != [] && b != []
    ensures a[0] == b[0]
  {
    assert a[0] in multiset(b) && b[0] in multiset(a);
    AscendingHead(b, a[0]);
    AscendingHead(a, b[0]);
    IsLessStrictTotalOrder(a[0], b[0], b[0]);
  }

  lemma SameTails(a: seq<Range>, b: seq<Range>)
    requires multiset(a) == multiset(b) && a != [] && b != [] && a[0] == b[0]
    ensures multiset(a[1..]) == multiset(b[1..])
  {
    assert a == [a[0]] + a[1..] && b == [b[0]] + b[1..];
    assert multiset(a[1..]) == multiset(a) - multiset{a[0]};
    assert multiset(b[1..]) == multiset(b) - multiset{b[0]};
  }

  /** std::sort of the markers: an ascending permutation, which is SortRanges. */
  method SortMarkers(s: seq<Range>) returns (sorted: seq<Range>)
    ensures Ascending(sorted) && multiset(sorted) == multiset(s)
    ensures sorted == SortRanges(s)
  {
    sorted := [];
    for i := 0 to |s|
      invariant sorted == SortRanges(s[..i])
    {
      assert s[..i + 1][..i] == s[..i];
      sorted := InsertInOrder(s[i], sorted);
    }
    assert s[..|s|] == s;
    SortRangesFacts(s);
  }

  // ---------------------------------------------------------------------
  // Corners and segments
  // ---------------------------------------------------------------------

  /** Both bounds inside the keyed range of a stroke, where getPointAt is defined. */
  predicate InKeys(r: Range)
  {
    -ALot <= r.start < ALot && -ALot <= r.end < ALot
  }

  /**
   * The gaps between consecutive markers of cs: from prev up to the first
   * one's start, then from each one's end up to the next one's start.
   */
  function Gaps(prev: real, cs: seq<Range>): (gaps: seq<Range>)
    ensures |gaps| == |cs|
    ensures forall i :: 0 <= i < |cs| ==> gaps[i] == Range(if i == 0 then prev else cs[i - 1].end, cs[i].start)
    decreases |cs|
  {
    if cs == [] then [] else [Range(prev, cs[0].start)] + Gaps(cs[0].end, cs[1..])
  }

  /** The candidate segments: the gaps between the corners, from 0 up to a terminal at the line's length. */
  function CandidateGaps(corners: seq<Range>, length: real): seq<Range>
  {
    Gaps(0.0, corners + [Range(length, length)])
  }

  /** findCornersAndSegments' test as written: longer than MaxSplineGap and accepted by isSegment. */
  predicate SegmentTestAsWritten(points: real -> Vector2, g: Range, input: SegmentsInput, sqrt: real -> real)
    requires IsSqrt(sqrt) && 0.0 < input.tStep && input.referenceSegmentLength != 0.0
  {
    MaxSplineGap < g.Length() &&
    SegmentAccepted(SegmentError(points, g, input.tStep, sqrt), ChordLength(points, g, sqrt), input)
  }

  /** The corrected test: in addition, the end points of the candidate are more than Epsilon apart. */
  predicate SegmentTest(points: real -> Vector2, g: Range, input: SegmentsInput, sqrt: real -> real)
    requires IsSqrt(sqrt) && 0.0 < input.tStep && input.referenceSegmentLength != 0.0
  {
    MaxSplineGap < g.Length() && Epsilon2 < points(g.end).Minus(points(g.start)).Norm2() &&
    SegmentAccepted(SegmentError(points, g, input.tStep, sqrt), ChordLength(points, g, sqrt), input)
  }

  /**
   * A section whose stroke goes out and comes back to where it started: the
   * test as written accepts it as a straight segment, although the sample at
   * 15 lies 75 away from both of its end points; the corrected test rejects it.
   */
  lemma OutAndBackAcceptedAsWritten(sqrt: real -> real)
    requires IsSqrt(sqrt)
    ensures var points, g := OutAndBack(), Range(0.0, 40.0);
            SegmentTestAsWritten(points, g, SegmentsInput.Default(), sqrt) &&
            !SegmentTest(points, g, SegmentsInput.Default(), sqrt) &&
            0 < SamplesBefore(g.start, g.end, SegmentsInput.Default().tStep) &&
            points(SamplePosition(g.start, SegmentsInput.Default().tStep, 1)).Minus(points(g.start)) == Vector2(75.0, 0.0)
  {
    OutAndBackPoints();
    OutAndBackAccepted(sqrt);
    OutAndBackChord();
  }

  lemma OutAndBackAccepted(sqrt: real -> real)
    requires IsSqrt(sqrt)
    ensures SegmentTestAsWritten(OutAndBack(), Range(0.0, 40.0), SegmentsInput.Default(), sqrt)
  {
    OutAndBackPoints();
    DegenerateChordAccepted(OutAndBack(), Range(0.0, 40.0), SegmentsInput.Default(), sqrt);
  }

  lemma OutAndBackPoints()
    ensures OutAndBack()(0.0) == Zero && OutAndBack()(40.0) == Zero
    ensures SamplePosition(0.0, SegmentsInput.Default().tStep, 1) == 15.0
    ensures OutAndBack()(15.0).Minus(OutAndBack()(0.0)) == Vector2(75.0, 0.0)
  {
    assert SamplePosition(0.0, 15.0, 1) == SamplePosition(15.0, 15.0, 0);
  }

  lemma OutAndBackChord()
    ensures !(Epsilon2 < OutAndBack()(40.0).Minus(OutAndBack()(0.0)).Norm2())
  {
    Epsilon2Positive();
    var w := OutAndBack()(40.0).Minus(OutAndBack()(0.0));
    assert w == Vector2(0.0, 0.0) by { OutAndBackPoints(); }
    assert w.Norm2() == 0.0 by { Norm2Def(w); }
  }

  /** A stroke that runs 100 along x up to t = 20 and back again by t = 40. */
  function OutAndBack(): real -> Vector2
  {
    t => if t <= 20.0 then Vector2(5.0 * t, 0.0) else Vector2(5.0 * (40.0 - t), 0.0)
  }

  /**
   * The corrected test measures against a proper line: the test line's normal
   * is a unit vector to float tolerance, so the accepted error is a mean
   * squared distance. It accepts only what the test as written accepts.
   */
  lemma SegmentTestUnitChord(points: real -> Vector2, g: Range, input: SegmentsInput, sqrt: real -> real)
    requires IsSqrt(sqrt) && 0.0 < input.tStep && input.referenceSegmentLength != 0.0
    requires SegmentTest(points, g, input, sqrt)
    ensures IsEqual(ChordLine(points, g, sqrt).Normal().Norm2(), 1.0, 0.0001)
    ensures SegmentTestAsWritten(points, g, input, sqrt)
  {
  }

  /** The candidates that pass the segment test, in order. */
  function AcceptedSegments(points: real -> Vector2, gaps: seq<Range>, input: SegmentsInput, sqrt: real -> real)
    : (segments: seq<Range>)
    requires IsSqrt(sqrt) && 0.0 < input.tStep && input.referenceSegmentLength != 0.0
    ensures forall g :: g in segments <==> g in gaps && SegmentTest(points, g, input, sqrt)
    decreases |gaps|
  {
    if gaps == [] then []
    else
      var last := gaps[|gaps| - 1];
      assert gaps == gaps[..|gaps| - 1] + [last];
      AcceptedSegments(points, gaps[..|gaps| - 1], input, sqrt) +
        (if SegmentTest(points, last, input, sqrt) then [last] else [])
  }

  /** The markers: the corners and the accepted segments between them, sorted. */
  function MarkersOf(points: real -> Vector2, corners: seq<Range>, length: real, input: SegmentsInput,
                     sqrt: real -> real): seq<Range>
    requires IsSqrt(sqrt) && 0.0 < input.tStep && input.referenceSegmentLength != 0.0
  {
    SortRanges(corners + AcceptedSegments(points, CandidateGaps(corners, length), input, sqrt))
  }

  /**
   * The markers are sorted; each is a corner or an accepted gap between
   * corners, and every corner and every accepted gap is one of them.
   */
  lemma MarkersFacts(points: real -> Vector2, corners: seq<Range>, length: real, input: SegmentsInput,
                     sqrt: real -> real)
    requires IsSqrt(sqrt) && 0.0 < input.tStep && input.referenceSegmentLength != 0.0
    ensures var markers := MarkersOf(points, corners, length, input, sqrt);
            Ascending(markers) &&
            forall r :: r in markers <==>
              r in corners || (r in CandidateGaps(corners, length) && SegmentTest(points, r, input, sqrt))
  {
    var segments := AcceptedSegments(points, CandidateGaps(corners, length), input, sqrt);
    SortRangesFacts(corners + segments);
    forall r
      ensures r in SortRanges(corners + segments) <==> r in corners + segments
    {
      assert r in SortRanges(corners + segments) <==> r in multiset(SortRanges(corners + segments));
    }
  }

  /** Markers built from corners inside the keyed range, on a stroke, stay inside it. */
  lemma MarkersInKeys(points: real -> Vector2, corners: seq<Range>, length: real, input: SegmentsInput,
                      sqrt: real -> real)
    requires IsSqrt(sqrt) && 0.0 < input.tStep && input.referenceSegmentLength != 0.0
    requires 0.0 <= length < ALot && forall i :: 0 <= i < |corners| ==> InKeys(corners[i])
    ensures var markers := MarkersOf(points, corners, length, input, sqrt);
            forall i :: 0 <= i < |markers| ==> InKeys(markers[i])
  {
    var markers := MarkersOf(points, corners, length, input, sqrt);
    MarkersFacts(points, corners, length, input, sqrt);
    var cs := corners + [Range(length, length)];
    var gaps := CandidateGaps(corners, length);
    assert forall i :: 0 <= i < |cs| ==> InKeys(cs[i]);
    assert forall i :: 0 <= i < |gaps| ==> InKeys(gaps[i]) by {
      forall i | 0 <= i < |gaps|
        ensures InKeys(gaps[i])
      {
        if 0 < i {
          assert InKeys(cs[i - 1]);
        }
        assert InKeys(cs[i]);
      }
    }
    forall i | 0 <= i < |markers|
      ensures InKeys(markers[i])
    {
      assert markers[i] in markers;
    }
  }

  // ---------------------------------------------------------------------
  // Validity of the gaps (the Range constructor at lines 50 and 85)
  // ---------------------------------------------------------------------

  /** Neither range reaches into the other: one ends before the other starts. */
  predicate Apart(a: Range, b: Range)
  {
    a.end <= b.start || b.end <= a.start
  }

  /** Every two ranges of s at different positions are apart. */
  predicate PairwiseApart(s: seq<Range>)
  {
    forall i, j :: 0 <= i < j < |s| ==> Apart(s[i], s[j])
  }

  /** Each range of ms ends no later than the next one starts, and the first starts no earlier than prev. */
  predicate Chained(prev: real, ms: seq<Range>)
  {
    (0 < |ms| ==> prev <= ms[0].start) && forall i :: 0 <= i < |ms| - 1 ==> ms[i].end <= ms[i + 1].start
  }

  /** Single points at non-decreasing positions, none before prev. */
  predicate PointChain(prev: real, cs: seq<Range>)
  {
    (forall i :: 0 <= i < |cs| ==> cs[i].start == cs[i].end && prev <= cs[i].start) &&
    (forall i, j :: 0 <= i < j < |cs| ==> cs[i].start <= cs[j].start)
  }

  /** The gaps between chained ranges are valid ranges. */
  lemma ChainedGapsValid(prev: real, ms: seq<Range>)
    requires Chained(prev, ms)
    ensures forall g :: g in Gaps(prev, ms) ==> g.IsValid()
  {
    var gaps := Gaps(prev, ms);
    forall g | g in gaps
      ensures g.IsValid()
    {
      var i :| 0 <= i < |gaps| && gaps[i] == g;
      if 0 < i {
        assert ms[i - 1].end <= ms[i].start;
      }
    }
  }

  /**
   * The gaps between points in order are pairwise apart, and each point is
   * apart from each gap.
   */
  lemma PointGapsApart(prev: real, cs: seq<Range>)
    requires PointChain(prev, cs)
    ensures PairwiseApart(Gaps(prev, cs))
    ensures forall k, g :: 0 <= k < |cs| && g in Gaps(prev, cs) ==> Apart(cs[k], g)
  {
    var gaps := Gaps(prev, cs);
    forall i, j | 0 <= i < j < |gaps|
      ensures Apart(gaps[i], gaps[j])
    {
      assert gaps[i] == Range(if i == 0 then prev else cs[i - 1].end, cs[i].start);
      assert gaps[j] == Range(cs[j - 1].end, cs[j].start);
      assert cs[j - 1].end == cs[j - 1].start;
      if i < j - 1 {
        assert cs[i].start <= cs[j - 1].start;
      }
    }
    forall k, g | 0 <= k < |cs| && g in gaps
      ensures Apart(cs[k], g)
    {
      var i :| 0 <= i < |gaps| && gaps[i] == g;
      assert g.end == cs[i].start && cs[k].end == cs[k].start;
      if k < i {
        assert g.start == cs[i - 1].end == cs[i - 1].start;
        if k < i - 1 {
          assert cs[k].start <= cs[i - 1].start;
        }
      } else if i < k {
        assert cs[i].start <= cs[k].start;
      }
    }
  }

  /** Keeping some of the ranges keeps them pairwise apart. */
  lemma {:induction false} AcceptedApart(points: real -> Vector2, gaps: seq<Range>, input: SegmentsInput,
                                         sqrt: real -> real)
    requires IsSqrt(sqrt) && 0.0 < input.tStep && input.referenceSegmentLength != 0.0
    requires PairwiseApart(gaps)
    ensures PairwiseApart(AcceptedSegments(points, gaps, input, sqrt))
    decreases |gaps|
  {
    if gaps != [] {
      var front, last := gaps[..|gaps| - 1], gaps[|gaps| - 1];
      assert gaps == front + [last];
      assert PairwiseApart(front);
      AcceptedApart(points, front, input, sqrt);
      var kept := AcceptedSegments(points, front, input, sqrt);
      forall i | 0 <= i < |kept|
        ensures Apart(kept[i], last)
      {
        assert kept[i] in kept;
        var j :| 0 <= j < |front| && front[j] == kept[i];
        assert Apart(gaps[j], gaps[|gaps| - 1]);
      }
    }
  }

  /** Inserting a range apart from all others keeps the ranges pairwise apart. */
  lemma {:induction false} InsertApart(x: Range, s: seq<Range>)
    requires PairwiseApart(s) && forall i :: 0 <= i < |s| ==> Apart(x, s[i])
    ensures PairwiseApart(InsertInOrder(x, s))
    decreases |s|
  {
    if s != [] && Range.IsLess(s[0], x) {
      var tail := s[1..];
      assert PairwiseApart(tail);
      InsertApart(x, tail);
      var ins := InsertInOrder(x, tail);
      InsertInOrderCount(x, tail);
      forall j | 0 <= j < |ins|
        ensures Apart(s[0], ins[j])
      {
        assert ins[j] in multiset(ins);
        if ins[j] != x {
          var k :| 0 <= k < |tail| && tail[k] == ins[j];
          assert Apart(s[0], s[k + 1]);
        }
      }
      assert InsertInOrder(x, s) == [s[0]] + ins;
    }
  }

  /** Sorting keeps the ranges pairwise apart. */
  lemma {:induction false} SortApart(s: seq<Range>)
    requires PairwiseApart(s)
    ensures PairwiseApart(SortRanges(s))
    decreases |s|
  {
    if s != [] {
      var front, last := s[..|s| - 1], s[|s| - 1];
      assert PairwiseApart(front);
      SortApart(front);
      var sorted := SortRanges(front);
      SortRangesFacts(front);
      forall i | 0 <= i < |sorted|
        ensures Apart(last, sorted[i])
      {
        assert sorted[i] in multiset(front);
        var k :| 0 <= k < |front| && front[k] == sorted[i];
        assert Apart(s[k], s[|s| - 1]);
      }
      InsertApart(last, sorted);
    }
  }

  /** Ascending, valid and pairwise apart ranges are chained. */
  lemma AscendingApartChained(prev: real, ms: seq<Range>)
    requires Ascending(ms) && PairwiseApart(ms)
    requires forall i :: 0 <= i < |ms| ==> ms[i].IsValid() && prev <= ms[i].start
    ensures Chained(prev, ms)
  {
    forall i | 0 <= i < |ms| - 1
      ensures ms[i].end <= ms[i + 1].start
    {
      assert Apart(ms[i], ms[i + 1]) && !Range.IsLess(ms[i + 1], ms[i]);
    }
  }

  /** The corners followed by the terminal point at length: points in order from 0. */
  lemma CornerChain(corners: seq<Range>, length: real)
    requires PointChain(0.0, corners) && 0.0 <= length && forall i :: 0 <= i < |corners| ==> corners[i].end <= length
    ensures PointChain(0.0, corners + [Range(length, length)])
  {
  }

  /** The corners and the accepted gaps between them are pairwise apart. */
  lemma MarkerSourcesApart(points: real -> Vector2, corners: seq<Range>, length: real, input: SegmentsInput,
                           sqrt: real -> real)
    requires IsSqrt(sqrt) && 0.0 < input.tStep && input.referenceSegmentLength != 0.0
    requires PointChain(0.0, corners + [Range(length, length)])
    ensures PairwiseApart(corners + AcceptedSegments(points, CandidateGaps(corners, length), input, sqrt))
  {
    var cs := corners + [Range(length, length)];
    var gaps := CandidateGaps(corners, length);
    PointGapsApart(0.0, cs);
    var segments := AcceptedSegments(points, gaps, input, sqrt);
    AcceptedApart(points, gaps, input, sqrt);
    var all := corners + segments;
    forall i, j | 0 <= i < j < |all|
      ensures Apart(all[i], all[j])
    {
      if j < |corners| {
        assert all[i] == cs[i] && all[j] == cs[j];
      } else if i < |corners| {
        assert all[i] == cs[i] && all[j] in segments;
      } else {
        assert all[i] == segments[i - |corners|] && all[j] == segments[j - |corners|];
      }
    }
  }

  /** Every marker is valid and lies inside [0, length]. */
  lemma MarkersInside(points: real -> Vector2, corners: seq<Range>, length: real, input: SegmentsInput,
                      sqrt: real -> real)
    requires IsSqrt(sqrt) && 0.0 < input.tStep && input.referenceSegmentLength != 0.0
    requires PointChain(0.0, corners + [Range(length, length)])
    ensures var markers := MarkersOf(points, corners, length, input, sqrt);
      forall i :: 0 <= i < |markers| ==> markers[i].IsValid() && 0.0 <= markers[i].start && markers[i].end <= length
  {
    var markers := MarkersOf(points, corners, length, input, sqrt);
    MarkersFacts(points, corners, length, input, sqrt);
    forall i | 0 <= i < |markers|
      ensures markers[i].IsValid() && 0.0 <= markers[i].start && markers[i].end <= length
    {
      assert markers[i] in markers;
      if markers[i] in corners {
        CornerInside(corners, length, markers[i]);
      } else {
        GapInside(corners, length, markers[i]);
      }
    }
  }

  /** A corner of a point chain ending at length is a point inside [0, length]. */
  lemma CornerInside(corners: seq<Range>, length: real, r: Range)
    requires PointChain(0.0, corners + [Range(length, length)]) && r in corners
    ensures r.IsValid() && 0.0 <= r.start && r.end <= length
  {
    var cs := corners + [Range(length, length)];
    var k :| 0 <= k < |corners| && corners[k] == r;
    assert cs[k] == corners[k] && cs[k].start <= cs[|corners|].start;
  }

  /** A gap between the points of a chain ending at length is valid and inside [0, length]. */
  lemma GapInside(corners: seq<Range>, length: real, r: Range)
    requires PointChain(0.0, corners + [Range(length, length)]) && r in CandidateGaps(corners, length)
    ensures r.IsValid() && 0.0 <= r.start && r.end <= length
  {
    var cs := corners + [Range(length, length)];
    var gaps := CandidateGaps(corners, length);
    assert gaps == Gaps(0.0, cs);
    var k :| 0 <= k < |gaps| && gaps[k] == r;
    assert gaps[k] == Range(if k == 0 then 0.0 else cs[k - 1].end, cs[k].start);
    if k < |corners| {
      assert cs[k].start <= cs[|corners|].start;
    }
    if 0 < k {
      assert gaps[k].start == cs[k - 1].end == cs[k - 1].start;
      assert cs[k - 1].start <= cs[k].start;
    }
  }

  /**
   * For corners that are single points in order inside [0, length], every
   * range findCornersAndSegments builds between two corners (line 50) and
   * every range generateBiarcsAndFinalShapes builds between two markers
   * (line 85) is valid: the markers, sorted and followed by the terminal,
   * are chained from 0.
   */
  lemma OrderedCornersGiveValidGaps(points: real -> Vector2, corners: seq<Range>, length: real,
                                    input: SegmentsInput, sqrt: real -> real)
    requires IsSqrt(sqrt) && 0.0 < input.tStep && input.referenceSegmentLength != 0.0
    requires PointChain(0.0, corners) && 0.0 <= length && forall i :: 0 <= i < |corners| ==> corners[i].end <= length
    ensures forall g :: g in CandidateGaps(corners, length) ==> g.IsValid()
    ensures Chained(0.0, MarkersOf(points, corners, length, input, sqrt) + [Terminal(length)])
    ensures forall g :: g in Gaps(0.0, MarkersOf(points, corners, length, input, sqrt) + [Terminal(length)]) ==>
              g.IsValid()
  {
    var cs := corners + [Range(length, length)];
    CornerChain(corners, length);
    assert Chained(0.0, cs) by {
      forall i | 0 <= i < |cs| - 1
        ensures cs[i].end <= cs[i + 1].start
      {
        assert cs[i].start <= cs[i + 1].start;
      }
    }
    ChainedGapsValid(0.0, cs);
    MarkerSourcesApart(points, corners, length, input, sqrt);
    var markers := MarkersOf(points, corners, length, input, sqrt);
    SortApart(corners + AcceptedSegments(points, CandidateGaps(corners, length), input, sqrt));
    SortRangesFacts(corners + AcceptedSegments(points, CandidateGaps(corners, length), input, sqrt));
    MarkersInside(points, corners, length, input, sqrt);
    AscendingApartChained(0.0, markers);
    var walked := markers + [Terminal(length)];
    assert Chained(0.0, walked) by {
      if 0 < |markers| {
        assert walked[|markers| - 1].end <= walked[|markers|].start;
      }
    }
    ChainedGapsValid(0.0, walked);
  }

  /**
   * The outcome of a search is at least as far along dir as any position
   * that beats -FLT_MAX.
   */
  lemma OutcomeAtLeast(points: real -> Vector2, dir: Vector2, t: real, n: nat, mid: real, x: real, k: nat)
    requires SearchOutcome(points, dir, t, n, mid, x)
    requires k < n && -FltMax < dir.Dot(points(Position(t, k)))
    ensures dir.Dot(points(Position(t, k))) <= dir.Dot(points(x))
  {
    assert AnyBeyond(points, dir, t, n, -FltMax);
  }

  /**
   * Line queries around two corner runs at [50, 52] and [57, 59]: with the
   * offsets -10 and 10, the tangents turn by (1, 0) around the first run and
   * by (0, 1) around the second; the point at 72 lies furthest along (1, 0)
   * and the point at 37 furthest along (0, 1).
   */
  ghost predicate CrossingQueries(tangents: real -> Vector2, points: real -> Vector2)
  {
    tangents(40.0) == Vector2(1.0, 0.0) && tangents(62.0) == Zero &&
    tangents(47.0) == Vector2(0.0, 1.0) && tangents(69.0) == Zero &&
    points(72.0) == Vector2(1.0, 0.0) && points(37.0) == Vector2(0.0, 1.0) &&
    (forall t :: t != 72.0 ==> points(t).x < 1.0) && (forall t :: t != 37.0 ==> points(t).y < 1.0)
  }

  /** Tangents that turn by (1, 0) around the first run and by (0, 1) around the second. */
  function CrossTangents(): real -> Vector2
  {
    t => if t == 40.0 then Vector2(1.0, 0.0) else if t == 47.0 then Vector2(0.0, 1.0) else Zero
  }

  /** Points that lie furthest along (1, 0) at 72 and furthest along (0, 1) at 37. */
  function CrossPoints(): real -> Vector2
  {
    t => if t == 72.0 then Vector2(1.0, 0.0) else if t == 37.0 then Vector2(0.0, 1.0) else Zero
  }

  /** Such queries exist. */
  lemma CrossingQueriesExist()
    ensures CrossingQueries(CrossTangents(), CrossPoints())
  {
  }

  /**
   * The reduction of the corner runs need not keep their order: for two
   * runs more than the merge distance apart, with the default corner
   * settings at spread 10 (padding 20), the queries of CrossingQueries
   * reduce them to 72 and 37, so the range built between them at line 50 is
   * not valid, whatever the line's length.
   */
  lemma ReducedCornersMayCross(tangents: real -> Vector2, points: real -> Vector2, runs: seq<Range>,
                               input: CornersInput, spread: real, corners: seq<Range>, length: real)
    requires CrossingQueries(tangents, points)
    requires |runs| == 2 && runs[0] == Range(50.0, 52.0) && runs[1] == Range(57.0, 59.0)
    requires input == CornersInput.Default() && spread == 10.0
    requires corners == ReduceAll(tangents, points, runs, input.Offsets(spread), input.SearchPadding(spread))
    ensures runs[0].end + input.maxDistBetweenCornersToMerge as real < runs[1].start
    ensures corners == [Range(72.0, 72.0), Range(37.0, 37.0)]
    ensures CandidateGaps(corners, length)[1] == Range(72.0, 37.0) && !CandidateGaps(corners, length)[1].IsValid()
  {
    DefaultCorners(spread);
    var d, pad := input.Offsets(spread), input.SearchPadding(spread);
    ReducedPair(tangents, points, runs, d, pad, corners);
    CrossFirst(tangents, points, runs[0], d, pad, corners[0]);
    CrossSecond(tangents, points, runs[1], d, pad, corners[1]);
    CrossedGap(corners, length);
  }

  /** Both reduced corners of two runs represent their runs. */
  lemma ReducedPair(tangents: real -> Vector2, points: real -> Vector2, runs: seq<Range>, d: seq<real>, pad: real,
                    corners: seq<Range>)
    requires |d| == 4 && 0.0 <= pad && |runs| == 2
    requires corners == ReduceAll(tangents, points, runs, d, pad)
    ensures |corners| == 2
    ensures RepresentsCorner(tangents, points, runs[0], d, pad, corners[0])
    ensures RepresentsCorner(tangents, points, runs[1], d, pad, corners[1])
  {
  }

  /** Corners at 72 and then 37 put the range from 72 to 37 between them. */
  lemma CrossedGap(corners: seq<Range>, length: real)
    requires |corners| == 2 && corners[0] == Range(72.0, 72.0) && corners[1] == Range(37.0, 37.0)
    ensures corners == [Range(72.0, 72.0), Range(37.0, 37.0)]
    ensures CandidateGaps(corners, length)[1] == Range(72.0, 37.0) && !CandidateGaps(corners, length)[1].IsValid()
  {
    assert corners == [corners[0], corners[1]];
  }

  /** The first run, [50, 52], is represented by 72. */
  lemma CrossFirst(tangents: real -> Vector2, points: real -> Vector2, c: Range, d: seq<real>, pad: real, r: Range)
    requires CrossingQueries(tangents, points)
    requires c == Range(50.0, 52.0) && d == [-30.0, -10.0, 10.0, 30.0] && pad == 20.0
    requires RepresentsCorner(tangents, points, c, d, pad, r)
    ensures r == Range(72.0, 72.0)
  {
    TurnedCornerOutcome(tangents, points, c, d, pad, r, Vector2(1.0, 0.0));
    FurthestAlongX(points, r.start);
  }

  /** The second run, [57, 59], is represented by 37. */
  lemma CrossSecond(tangents: real -> Vector2, points: real -> Vector2, c: Range, d: seq<real>, pad: real, r: Range)
    requires CrossingQueries(tangents, points)
    requires c == Range(57.0, 59.0) && d == [-30.0, -10.0, 10.0, 30.0] && pad == 20.0
    requires RepresentsCorner(tangents, points, c, d, pad, r)
    ensures r == Range(37.0, 37.0)
  {
    TurnedCornerOutcome(tangents, points, c, d, pad, r, Vector2(0.0, 1.0));
    FurthestAlongY(points, r.start);
  }

  /**
   * A run two long whose tangents turn by a unit vector dir is represented
   * by the outcome of the search along dir over the 43 positions from 20
   * before its start.
   */
  lemma TurnedCornerOutcome(tangents: real -> Vector2, points: real -> Vector2, c: Range, d: seq<real>, pad: real,
                            r: Range, dir: Vector2)
    requires |d| == 4 && c.end == c.start + 2.0 && pad == 20.0
    requires RepresentsCorner(tangents, points, c, d, pad, r)
    requires tangents(c.start + d[1]) == dir && tangents(c.end + d[2]) == Zero && dir.Norm2() == 1.0
    ensures r.start == r.end && SearchOutcome(points, dir, c.start - 20.0, 43, c.start + 1.0, r.start)
  {
    Epsilon2Positive();
    CrossWindow(c, pad, c.start - 20.0);
  }

  /** Of the positions 30 to 72, only 72 reaches 1 along (1, 0). */
  lemma FurthestAlongX(points: real -> Vector2, x: real)
    requires points(72.0) == Vector2(1.0, 0.0) && (forall t :: t != 72.0 ==> points(t).x < 1.0)
    requires SearchOutcome(points, Vector2(1.0, 0.0), 30.0, 43, 51.0, x)
    ensures x == 72.0
  {
    assert Position(30.0, 42) == 72.0;
    OutcomeAtLeast(points, Vector2(1.0, 0.0), 30.0, 43, 51.0, x, 42);
  }

  /** Of the positions 37 to 79, only 37 reaches 1 along (0, 1). */
  lemma FurthestAlongY(points: real -> Vector2, x: real)
    requires points(37.0) == Vector2(0.0, 1.0) && (forall t :: t != 37.0 ==> points(t).y < 1.0)
    requires SearchOutcome(points, Vector2(0.0, 1.0), 37.0, 43, 58.0, x)
    ensures x == 37.0
  {
    assert Position(37.0, 0) == 37.0;
    OutcomeAtLeast(points, Vector2(0.0, 1.0), 37.0, 43, 58.0, x, 0);
  }

  /** A run two long widened by 20 on both sides has 43 whole-numbered positions. */
  lemma CrossWindow(c: Range, pad: real, first: real)
    requires c.end == c.start + 2.0 && pad == 20.0 && first == c.start - 20.0
    ensures c.Inflate(pad).start == first && StepsLeft(first, c.Inflate(pad).end, 1.0) == 43
  {
    assert (c.Inflate(pad).end - first) / 1.0 == 42.0;
  }

  // ---------------------------------------------------------------------
  // Display shapes
  // ---------------------------------------------------------------------

  /** Both cached shapes are set, as calcCachedShapes leaves them. */
  predicate HasShapes(b: Biarc)
  {
    !b.shape0.Invalid? && !b.shape1.Invalid?
  }

  /** The display shape of one biarc half from p0 to p1: an arc on a circular shape, a segment on a straight one. */
  function HalfShape(shape: CircleOrLine, p0: Vector2, tangentAtP0: Vector2, p1: Vector2, idx: int): SplineElement
    requires !shape.Invalid?
  {
    if shape.CircleShape? then SplineArc(shape.circle, p0, tangentAtP0, p1, idx) else SplineSegment(p0, p1, idx)
  }

  /** The halves of b whose end points are at least MaxSplineGap apart, as display shapes. */
  function BiarcShapes(b: Biarc, sqrt: real -> real): seq<SplineElement>
    requires IsSqrt(sqrt) && HasShapes(b)
  {
    var mid := b.MidPoint();
    (if MaxSplineGap <= b.point0.DistTo(mid, sqrt) then [HalfShape(b.shape0, b.point0, b.tangent0, mid, 0)] else []) +
    (if MaxSplineGap <= b.point1.DistTo(mid, sqrt) then [HalfShape(b.shape1, mid, b.MidTangent(sqrt), b.point1, 1)]
     else [])
  }

  /**
   * A biarc gives one shape per half whose end points are at least
   * MaxSplineGap apart: the first half tagged 0 from point0 to the
   * mid-point, the second tagged 1 from the mid-point to point1, each an arc
   * exactly when its cached shape is a circle.
   */
  lemma BiarcShapesFacts(b: Biarc, sqrt: real -> real)
    requires IsSqrt(sqrt) && HasShapes(b)
    ensures var shapes, mid := BiarcShapes(b, sqrt), b.MidPoint();
            |shapes| == (if MaxSplineGap <= b.point0.DistTo(mid, sqrt) then 1 else 0) +
                        (if MaxSplineGap <= b.point1.DistTo(mid, sqrt) then 1 else 0) &&
            forall e :: e in shapes ==>
              (e.idxInBiarc == 0 && e.p0 == b.point0 && e.p1 == mid && (e.SplineArc? <==> b.shape0.CircleShape?)) ||
              (e.idxInBiarc == 1 && e.p0 == mid && e.p1 == b.point1 && (e.SplineArc? <==> b.shape1.CircleShape?))
  {
  }

  /** The display shapes of a sequence of biarcs, in order. */
  function AllBiarcShapes(biarcs: seq<Biarc>, sqrt: real -> real): seq<SplineElement>
    requires IsSqrt(sqrt) && forall b :: b in biarcs ==> HasShapes(b)
    decreases |biarcs|
  {
    if biarcs == [] then []
    else AllBiarcShapes(biarcs[..|biarcs| - 1], sqrt) + BiarcShapes(biarcs[|biarcs| - 1], sqrt)
  }

  /** Every biarc convertLineToBiarcs returns has both cached shapes. */
  ghost predicate ConvertGivesShapes(convert: Range -> seq<Biarc>)
  {
    forall g {:trigger convert(g)} :: forall b :: b in convert(g) ==> HasShapes(b)
  }

  /** What generateBiarcsAndFinalShapes has produced so far: corner points, display shapes, and the biarcs' tBounds. */
  datatype Output = Output(corners: seq<Vector2>, shapes: seq<SplineElement>, tBounds: Range)

  /** The terminal marker: one unit long, so that it is neither a segment nor a corner. */
  function Terminal(length: real): (r: Range)
    ensures r.Length() == MaxSplineGap
  {
    Range(length, length + 1.0)
  }

  /**
   * The shapes for one marker s after the previous one ending at prevEnd:
   * the biarcs of the gap between them when it is longer than MaxSplineGap,
   * then s as a segment when it is longer than MaxSplineGap.
   */
  function StepShapes(points: real -> Vector2, convert: Range -> seq<Biarc>, prevEnd: real, s: Range,
                      sqrt: real -> real): seq<SplineElement>
    requires IsSqrt(sqrt) && ConvertGivesShapes(convert)
  {
    var gap := Range(prevEnd, s.start);
    (if gap.Length() > MaxSplineGap then AllBiarcShapes(convert(gap), sqrt) else []) +
    (if s.Length() > MaxSplineGap then [SplineSegment(points(s.start), points(s.end), -1)] else [])
  }

  /**
   * One marker s after the previous one ending at prevEnd: its shapes; a
   * corner point when s has length 0 (never also a segment, as MaxSplineGap
   * is positive); and the gap as the biarcs' bounds when it was converted.
   */
  function MarkerStep(points: real -> Vector2, convert: Range -> seq<Biarc>, prevEnd: real, s: Range, out: Output,
                      sqrt: real -> real): Output
    requires IsSqrt(sqrt) && ConvertGivesShapes(convert)
  {
    var gap := Range(prevEnd, s.start);
    Output(out.corners + (if s.Length() == 0.0 then [points(s.start)] else []),
           out.shapes + StepShapes(points, convert, prevEnd, s, sqrt),
           if gap.Length() > MaxSplineGap then gap else out.tBounds)
  }

  /** The walk over the markers ms, the previous one ending at prevEnd. */
  function WalkMarkers(points: real -> Vector2, convert: Range -> seq<Biarc>, prevEnd: real, ms: seq<Range>,
                       out: Output, sqrt: real -> real): Output
    requires IsSqrt(sqrt) && ConvertGivesShapes(convert)
    decreases |ms|
  {
    if ms == [] then out
    else WalkMarkers(points, convert, ms[0].end, ms[1..], MarkerStep(points, convert, prevEnd, ms[0], out, sqrt), sqrt)
  }

  /** The points at the markers of length 0, in order. */
  function CornerPoints(points: real -> Vector2, ms: seq<Range>): seq<Vector2>
  {
    if ms == [] then []
    else (if ms[0].Length() == 0.0 then [points(ms[0].start)] else []) + CornerPoints(points, ms[1..])
  }

  /** A segment tagged -1 from the point at the start to the point at the end of each marker longer than MaxSplineGap. */
  function MarkerSegments(points: real -> Vector2, ms: seq<Range>): seq<SplineElement>
  {
    if ms == [] then []
    else (if ms[0].Length() > MaxSplineGap then [SplineSegment(points(ms[0].start), points(ms[0].end), -1)] else []) +
         MarkerSegments(points, ms[1..])
  }

  /** The corner points the walk appends are those of the markers of length 0, whatever convertLineToBiarcs returns. */
  lemma {:induction false} WalkCorners(points: real -> Vector2, convert: Range -> seq<Biarc>, prevEnd: real,
                                       ms: seq<Range>, out: Output, sqrt: real -> real)
    requires IsSqrt(sqrt) && ConvertGivesShapes(convert)
    ensures WalkMarkers(points, convert, prevEnd, ms, out, sqrt).corners == out.corners + CornerPoints(points, ms)
    decreases |ms|
  {
    if ms != [] {
      var next := MarkerStep(points, convert, prevEnd, ms[0], out, sqrt);
      WalkCorners(points, convert, ms[0].end, ms[1..], next, sqrt);
      WalkUnfold(points, convert, prevEnd, ms, out, sqrt);
      StepCorners(points, convert, prevEnd, ms, out, sqrt);
    }
  }

  lemma WalkUnfold(points: real -> Vector2, convert: Range -> seq<Biarc>, prevEnd: real,
                   ms: seq<Range>, out: Output, sqrt: real -> real)
    requires IsSqrt(sqrt) && ConvertGivesShapes(convert) && ms != []
    ensures WalkMarkers(points, convert, prevEnd, ms, out, sqrt) ==
            WalkMarkers(points, convert, ms[0].end, ms[1..], MarkerStep(points, convert, prevEnd, ms[0], out, sqrt), sqrt)
  {
  }

  lemma StepCorners(points: real -> Vector2, convert: Range -> seq<Biarc>, prevEnd: real,
                    ms: seq<Range>, out: Output, sqrt: real -> real)
    requires IsSqrt(sqrt) && ConvertGivesShapes(convert) && ms != []
    ensures MarkerStep(points, convert, prevEnd, ms[0], out, sqrt).corners + CornerPoints(points, ms[1..]) ==
            out.corners + CornerPoints(points, ms)
  {
    var head := if ms[0].Length() == 0.0 then [points(ms[0].start)] else [];
    assert (out.corners + head) + CornerPoints(points, ms[1..]) == out.corners + (head + CornerPoints(points, ms[1..]));
  }

  /** The walk keeps the shapes it starts from and appends to them. */
  lemma {:induction false} WalkKeepsShapes(points: real -> Vector2, convert: Range -> seq<Biarc>, prevEnd: real,
                                           ms: seq<Range>, out: Output, sqrt: real -> real)
    requires IsSqrt(sqrt) && ConvertGivesShapes(convert)
    ensures var r := WalkMarkers(points, convert, prevEnd, ms, out, sqrt);
            |out.shapes| <= |r.shapes| && r.shapes[..|out.shapes|] == out.shapes
    decreases |ms|
  {
    if ms != [] {
      var next := MarkerStep(points, convert, prevEnd, ms[0], out, sqrt);
      WalkKeepsShapes(points, convert, ms[0].end, ms[1..], next, sqrt);
      var r := WalkMarkers(points, convert, ms[0].end, ms[1..], next, sqrt);
      assert r.shapes[..|next.shapes|][..|out.shapes|] == r.shapes[..|out.shapes|];
    }
  }

  /**
   * When convertLineToBiarcs returns no biarcs (its body is not shared), the
   * shapes the walk appends are exactly the marker segments.
   */
  lemma {:induction false} WalkWithoutBiarcs(points: real -> Vector2, convert: Range -> seq<Biarc>, prevEnd: real,
                                             ms: seq<Range>, out: Output, sqrt: real -> real)
    requires IsSqrt(sqrt) && ConvertGivesShapes(convert)
    requires forall g {:trigger convert(g)} :: convert(g) == []
    ensures WalkMarkers(points, convert, prevEnd, ms, out, sqrt).shapes == out.shapes + MarkerSegments(points, ms)
    decreases |ms|
  {
    if ms != [] {
      var next := MarkerStep(points, convert, prevEnd, ms[0], out, sqrt);
      assert convert(Range(prevEnd, ms[0].start)) == [];
      WalkWithoutBiarcs(points, convert, ms[0].end, ms[1..], next, sqrt);
      WalkUnfold(points, convert, prevEnd, ms, out, sqrt);
      StepSegments(points, convert, prevEnd, ms, out, sqrt);
    }
  }

  lemma StepSegments(points: real -> Vector2, convert: Range -> seq<Biarc>, prevEnd: real,
                     ms: seq<Range>, out: Output, sqrt: real -> real)
    requires IsSqrt(sqrt) && ConvertGivesShapes(convert) && ms != []
    requires convert(Range(prevEnd, ms[0].start)) == []
    ensures MarkerStep(points, convert, prevEnd, ms[0], out, sqrt).shapes + MarkerSegments(points, ms[1..]) ==
            out.shapes + MarkerSegments(points, ms)
  {
    var head := if ms[0].Length() > MaxSplineGap then [SplineSegment(points(ms[0].start), points(ms[0].end), -1)]
                else [];
    assert StepShapes(points, convert, prevEnd, ms[0], sqrt) == head;
    assert (out.shapes + head) + MarkerSegments(points, ms[1..]) == out.shapes + (head + MarkerSegments(points, ms[1..]));
  }

  /** Every marker segment joins the points at the ends of a long marker. */
  lemma {:induction false} MarkerSegmentsFacts(points: real -> Vector2, ms: seq<Range>)
    ensures forall e :: e in MarkerSegments(points, ms) ==>
              e.SplineSegment? && e.idxInBiarc == -1 &&
              exists i :: 0 <= i < |ms| && MaxSplineGap < ms[i].Length() && e.p0 == points(ms[i].start) &&
                          e.p1 == points(ms[i].end)
    decreases |ms|
  {
    if ms != [] {
      MarkerSegmentsFacts(points, ms[1..]);
      forall e | e in MarkerSegments(points, ms[1..])
        ensures exists i :: 0 <= i < |ms| && MaxSplineGap < ms[i].Length() && e.p0 == points(ms[i].start) &&
                            e.p1 == points(ms[i].end)
      {
        var i :| 0 <= i < |ms[1..]| && MaxSplineGap < ms[1..][i].Length() && e.p0 == points(ms[1..][i].start) &&
                 e.p1 == points(ms[1..][i].end);
        assert ms[i + 1] == ms[1..][i];
      }
    }
  }

  /** The corner points are the points at the markers of length 0. */
  lemma {:induction false} CornerPointsMembers(points: real -> Vector2, ms: seq<Range>)
    ensures forall r :: r in ms && r.Length() == 0.0 ==> points(r.start) in CornerPoints(points, ms)
    ensures forall p :: p in CornerPoints(points, ms) ==>
              exists r :: r in ms && r.Length() == 0.0 && p == points(r.start)
    decreases |ms|
  {
    if ms != [] {
      CornerPointsMembers(points, ms[1..]);
      var head := if ms[0].Length() == 0.0 then [points(ms[0].start)] else [];
      assert CornerPoints(points, ms) == head + CornerPoints(points, ms[1..]);
      forall r | r in ms && r.Length() == 0.0
        ensures points(r.start) in CornerPoints(points, ms)
      {
        if r != ms[0] {
          assert r in ms[1..];
        }
      }
      forall p | p in CornerPoints(points, ms)
        ensures exists r :: r in ms && r.Length() == 0.0 && p == points(r.start)
      {
        if p in CornerPoints(points, ms[1..]) {
          var r :| r in ms[1..] && r.Length() == 0.0 && p == points(r.start);
          assert r in ms;
        } else {
          assert ms[0] in ms;
        }
      }
    }
  }

  /**
   * Every marker longer than MaxSplineGap ends up among the shapes, as a
   * segment tagged -1 between the points at its ends.
   */
  lemma {:induction false} WalkIncludesSegments(points: real -> Vector2, convert: Range -> seq<Biarc>, prevEnd: real,
                                                ms: seq<Range>, out: Output, sqrt: real -> real)
    requires IsSqrt(sqrt) && ConvertGivesShapes(convert)
    ensures forall r :: r in ms && MaxSplineGap < r.Length() ==>
              SplineSegment(points(r.start), points(r.end), -1) in WalkMarkers(points, convert, prevEnd, ms, out, sqrt).shapes
    decreases |ms|
  {
    if ms != [] {
      var next := MarkerStep(points, convert, prevEnd, ms[0], out, sqrt);
      WalkIncludesSegments(points, convert, ms[0].end, ms[1..], next, sqrt);
      WalkKeepsShapes(points, convert, ms[0].end, ms[1..], next, sqrt);
      var r := WalkMarkers(points, convert, ms[0].end, ms[1..], next, sqrt);
      assert WalkMarkers(points, convert, prevEnd, ms, out, sqrt) == r;
      if MaxSplineGap < ms[0].Length() {
        var e := SplineSegment(points(ms[0].start), points(ms[0].end), -1);
        assert next.shapes[|next.shapes| - 1] == e;
        assert r.shapes[..|next.shapes|][|next.shapes| - 1] == e;
      }
      forall x | x in ms && MaxSplineGap < x.Length()
        ensures SplineSegment(points(x.start), points(x.end), -1) in r.shapes
      {
        if x != ms[0] {
          assert x in ms[1..];
        }
      }
    }
  }

  /** The terminal marker itself adds no corner point and no segment. */
  lemma TerminalAddsNoMarkerShape(points: real -> Vector2, convert: Range -> seq<Biarc>, prevEnd: real, length: real,
                                  out: Output, sqrt: real -> real)
    requires IsSqrt(sqrt) && ConvertGivesShapes(convert)
    ensures var r := MarkerStep(points, convert, prevEnd, Terminal(length), out, sqrt);
            var gap := Range(prevEnd, length);
            r.corners == out.corners &&
            r.shapes == out.shapes + (if gap.Length() > MaxSplineGap then AllBiarcShapes(convert(gap), sqrt) else [])
  {
  }

  // ---------------------------------------------------------------------
  // The spline of a line
  // ---------------------------------------------------------------------

  /**
   * The corner scan and its search fit between the sentinel keys of a stroke
   * of the given length, for the bounds [0, length] findCornersAndSegments
   * sets; the scan bounds are floats.
   */
  predicate StrokeFitsScan(length: real, spread: real, input: CornersInput)
  {
    var first, last := input.Margin(), length - input.Margin();
    var pad := input.SearchPadding(spread);
    -FltMax <= first && last <= FltMax && -ALot <= first - pad && last + pad < ALot
  }

  /** The state of a line that has no entries, such as a new line or one whose loading failed. */
  predicate EmptyStroke(s: seq<Entry>, length: real)
  {
    s == [] && length == 0.0
  }

  /**
   * What RecreateSpline needs of its source line and its configuration: a
   * stroke, or an empty line with a scan margin above 0, so that the corner
   * scan has no position and no query reaches the line.
   */
  ghost predicate ReadyToSpline(line: FreeformLine, input: ProcessingInput)
    reads line, input
  {
    line.Valid() && Epsilon < line.halfSmoothingSpread &&
    (IsStroke(line.points, line.cachedLength) ||
     (EmptyStroke(line.points, line.cachedLength) && 0.0 < input.corners.Margin())) &&
    0.0 < input.corners.tStep && 0.0 <= input.corners.innerInterMeasurementFactor &&
    StrokeFitsScan(line.cachedLength, line.halfSmoothingSpread, input.corners) &&
    0.0 < input.segments.tStep && input.segments.referenceSegmentLength != 0.0
  }

  /** The corners of a stroke scanned over [0, length]. */
  ghost function StrokeCorners(s: seq<Entry>, length: real, spread: real, input: CornersInput,
                               angleTo: (Vector2, Vector2) -> real, sqrt: real -> real): seq<Range>
    requires 0.0 < input.tStep && 0.0 <= input.innerInterMeasurementFactor && 0.0 <= spread
  {
    var bounds := Range(0.0, length);
    Corners(TangentsOf(s, spread, bounds, ClippingMargin(spread, bounds), sqrt), PointsOf(s), bounds, spread, input,
            angleTo)
  }

  /** The markers of a stroke: its corners and the segments between them, sorted. */
  ghost function StrokeMarkers(s: seq<Entry>, length: real, spread: real, corners: CornersInput,
                               segments: SegmentsInput, angleTo: (Vector2, Vector2) -> real,
                               sqrt: real -> real): seq<Range>
    requires IsSqrt(sqrt) && 0.0 < corners.tStep && 0.0 <= corners.innerInterMeasurementFactor && 0.0 <= spread
    requires 0.0 < segments.tStep && segments.referenceSegmentLength != 0.0
  {
    MarkersOf(PointsOf(s), StrokeCorners(s, length, spread, corners, angleTo, sqrt), length, segments, sqrt)
  }

  /** A stroke's length is not negative: its real keys run from 0 up to it. */
  lemma StrokeLength(s: seq<Entry>, length: real)
    requires IsStroke(s, length)
    ensures 0.0 <= length
  {
    if 1 < |s| - 2 {
      assert s[1].t < s[|s| - 2].t;
    }
  }

  /** The corners of a stroke whose scan fits lie inside the keyed range. */
  lemma StrokeCornersInKeys(s: seq<Entry>, length: real, spread: real, input: CornersInput,
                            angleTo: (Vector2, Vector2) -> real, sqrt: real -> real)
    requires 0.0 < input.tStep && 0.0 <= input.innerInterMeasurementFactor && 0.0 <= spread
    requires StrokeFitsScan(length, spread, input)
    ensures var corners := StrokeCorners(s, length, spread, input, angleTo, sqrt);
            forall i :: 0 <= i < |corners| ==> InKeys(corners[i])
  {
    var bounds := Range(0.0, length);
    CornersFromRuns(TangentsOf(s, spread, bounds, ClippingMargin(spread, bounds), sqrt), PointsOf(s), bounds, spread,
                    input, angleTo);
  }

  /** The corners findCorners reports are single points. */
  lemma StrokeCornersArePoints(s: seq<Entry>, length: real, spread: real, corners: CornersInput,
                               angleTo: (Vector2, Vector2) -> real, sqrt: real -> real)
    requires 0.0 < corners.tStep && 0.0 <= corners.innerInterMeasurementFactor && 0.0 <= spread
    requires StrokeFitsScan(length, spread, corners)
    ensures forall c :: c in StrokeCorners(s, length, spread, corners, angleTo, sqrt) ==> c.Length() == 0.0
  {
    var bounds := Range(0.0, length);
    var found := StrokeCorners(s, length, spread, corners, angleTo, sqrt);
    CornersFromRuns(TangentsOf(s, spread, bounds, ClippingMargin(spread, bounds), sqrt), PointsOf(s), bounds, spread,
                    corners, angleTo);
    forall c | c in found
      ensures c.Length() == 0.0
    {
      var i :| 0 <= i < |found| && found[i] == c;
    }
  }

  /**
   * When the markers are the corners, all single points, and ranges longer
   * than MaxSplineGap, the corner points of the walk over them and the
   * terminal are the points at the corners.
   */
  lemma MarkerCornerPoints(points: real -> Vector2, found: seq<Range>, markers: seq<Range>, length: real)
    requires forall c :: c in found ==> c.Length() == 0.0 && c in markers
    requires forall r :: r in markers ==> r in found || MaxSplineGap < r.Length()
    ensures forall p :: p in CornerPoints(points, markers + [Terminal(length)]) <==>
              exists c :: c in found && p == points(c.start)
  {
    var ms := markers + [Terminal(length)];
    CornerPointsMembers(points, ms);
    forall p
      ensures p in CornerPoints(points, ms) <==> exists c :: c in found && p == points(c.start)
    {
      if p in CornerPoints(points, ms) {
        var r :| r in ms && r.Length() == 0.0 && p == points(r.start);
        assert r in markers;
      }
      if exists c :: c in found && p == points(c.start) {
        var c :| c in found && p == points(c.start);
        assert c in ms;
      }
    }
  }

  /**
   * The corner points of a stroke's spline are exactly the points at the
   * corners findCorners reports over [0, length], whatever the biarcs are.
   */
  lemma StrokeSplineCorners(s: seq<Entry>, length: real, spread: real, corners: CornersInput, segments: SegmentsInput,
                            angleTo: (Vector2, Vector2) -> real, sqrt: real -> real, convert: Range -> seq<Biarc>,
                            tBounds: Range)
    requires IsSqrt(sqrt) && ConvertGivesShapes(convert)
    requires 0.0 < corners.tStep && 0.0 <= corners.innerInterMeasurementFactor && 0.0 <= spread
    requires 0.0 < segments.tStep && segments.referenceSegmentLength != 0.0
    requires StrokeFitsScan(length, spread, corners)
    ensures var points, found := PointsOf(s), StrokeCorners(s, length, spread, corners, angleTo, sqrt);
            var out := WalkMarkers(points, convert, 0.0,
                                   StrokeMarkers(s, length, spread, corners, segments, angleTo, sqrt) + [Terminal(length)],
                                   Output([], [], tBounds), sqrt);
            forall p :: p in out.corners <==> exists c :: c in found && p == points(c.start)
  {
    var points, found := PointsOf(s), StrokeCorners(s, length, spread, corners, angleTo, sqrt);
    var markers := StrokeMarkers(s, length, spread, corners, segments, angleTo, sqrt);
    StrokeCornersArePoints(s, length, spread, corners, angleTo, sqrt);
    MarkersFacts(points, found, length, segments, sqrt);
    WalkCorners(points, convert, 0.0, markers + [Terminal(length)], Output([], [], tBounds), sqrt);
    MarkerCornerPoints(points, found, markers, length);
  }

  /**
   * Every gap between a stroke's corners that passes the segment test is a
   * shape of its spline: a segment tagged -1 between the points at its ends.
   */
  lemma StrokeSplineSegments(s: seq<Entry>, length: real, spread: real, corners: CornersInput, segments: SegmentsInput,
                             angleTo: (Vector2, Vector2) -> real, sqrt: real -> real, convert: Range -> seq<Biarc>,
                             tBounds: Range)
    requires IsSqrt(sqrt) && ConvertGivesShapes(convert)
    requires 0.0 < corners.tStep && 0.0 <= corners.innerInterMeasurementFactor && 0.0 <= spread
    requires 0.0 < segments.tStep && segments.referenceSegmentLength != 0.0
    ensures var points, found := PointsOf(s), StrokeCorners(s, length, spread, corners, angleTo, sqrt);
            var out := WalkMarkers(points, convert, 0.0,
                                   StrokeMarkers(s, length, spread, corners, segments, angleTo, sqrt) + [Terminal(length)],
                                   Output([], [], tBounds), sqrt);
            forall g :: g in CandidateGaps(found, length) && SegmentTest(points, g, segments, sqrt) ==>
              SplineSegment(points(g.start), points(g.end), -1) in out.shapes
  {
    var points, found := PointsOf(s), StrokeCorners(s, length, spread, corners, angleTo, sqrt);
    var markers := StrokeMarkers(s, length, spread, corners, segments, angleTo, sqrt);
    var ms := markers + [Terminal(length)];
    MarkersFacts(points, found, length, segments, sqrt);
    WalkIncludesSegments(points, convert, 0.0, ms, Output([], [], tBounds), sqrt);
    forall g | g in CandidateGaps(found, length) && SegmentTest(points, g, segments, sqrt)
      ensures g in ms
    {
      assert g in markers;
    }
  }

  /**
   * An empty line with a scan margin above 0 gives no marker, and the walk
   * over the terminal alone adds no corner point and no shape and leaves the
   * biarcs' bounds as they were: the gap before the terminal is empty and the
   * terminal is exactly MaxSplineGap long.
   */
  lemma EmptyStrokeGivesNothing(spread: real, corners: CornersInput, segments: SegmentsInput,
                                angleTo: (Vector2, Vector2) -> real, sqrt: real -> real, convert: Range -> seq<Biarc>,
                                tBounds: Range)
    requires IsSqrt(sqrt) && ConvertGivesShapes(convert)
    requires 0.0 < corners.tStep && 0.0 <= corners.innerInterMeasurementFactor && 0.0 <= spread
    requires 0.0 < segments.tStep && segments.referenceSegmentLength != 0.0
    requires 0.0 < corners.Margin()
    ensures StrokeCorners([], 0.0, spread, corners, angleTo, sqrt) == []
    ensures var markers := StrokeMarkers([], 0.0, spread, corners, segments, angleTo, sqrt);
            markers == [] &&
            WalkMarkers(PointsOf([]), convert, 0.0, markers + [Terminal(0.0)], Output([], [], tBounds), sqrt) ==
            Output([], [], tBounds)
  {
    var bounds := Range(0.0, 0.0);
    var tangents := TangentsOf([], spread, bounds, ClippingMargin(spread, bounds), sqrt);
    EmptyScanNoRuns(CornerTest(tangents, corners.Offsets(spread), corners, angleTo), bounds, corners);
    var gaps := CandidateGaps([], 0.0);
    assert gaps == [Range(0.0, 0.0)];
    assert AcceptedSegments(PointsOf([]), gaps, segments, sqrt) == [];
  }

  /** A stroke ready to spline, bounded to [0, length], is ready for the corner scan. */
  lemma FullBoundsReady(line: FreeformLine, input: ProcessingInput)
    requires ReadyToSpline(line, input)
    requires line.clippingRange == Range(0.0, line.cachedLength)
    requires line.clippingMargin == ClippingMargin(line.halfSmoothingSpread, line.clippingRange)
    ensures -FltMax <= ScanStart(line.clippingRange, input.corners) && ScanEnd(line.clippingRange, input.corners) <= FltMax
    ensures IsStroke(line.points, line.cachedLength) ==> ReadyForTangents(line) && ScanInside(line, input.corners)
    ensures !IsStroke(line.points, line.cachedLength) ==> ScanIsEmpty(line.clippingRange, input.corners)
  {
    if IsStroke(line.points, line.cachedLength) {
      StrokeLength(line.points, line.cachedLength);
      assert 0.0 <= line.clippingMargin <= line.cachedLength;
    }
  }

  lemma LinePointsQuery(line: FreeformLine)
    requires line.Valid() && 0 < |line.points|
    ensures PointQuery(line, LinePoints(line))
  {
  }

  /**
   * ArcSpline: the source line, the configuration it shares with other
   * splines, and the two output lists.
   */
  class ArcSpline {
    const sourceLine: FreeformLine
    var processingInput: ProcessingInput?
    var displayShapes: seq<SplineElement>
    var debugCorners: seq<Vector2>

    /**
     * The constructor keeps the line and builds the spline with the given
     * configuration. `convert` stands for convertLineToBiarcs on the line
     * bounded to a gap, whose body is not shared.
     */
    constructor (line: FreeformLine, input: ProcessingInput, angleTo: (Vector2, Vector2) -> real,
                 sqrt: real -> real, convert: Range -> seq<Biarc>)
      requires IsSqrt(sqrt) && ConvertGivesShapes(convert) && ReadyToSpline(line, input)
      modifies input
      ensures sourceLine == line && processingInput == input
      ensures input.corners == old(input.corners) && input.segments == old(input.segments)
      ensures var s, length, spread := line.points, line.cachedLength, line.halfSmoothingSpread;
              var markers := StrokeMarkers(s, length, spread, input.corners, input.segments, angleTo, sqrt);
              var out := WalkMarkers(PointsOf(s), convert, 0.0, markers + [Terminal(length)],
                                     Output([], [], old(input.biarcs.tBounds)), sqrt);
              debugCorners == out.corners && displayShapes == out.shapes &&
              input.biarcs == old(input.biarcs).(tBounds := out.tBounds)
    {
      sourceLine := line;
      processingInput := null;
      displayShapes := [];
      debugCorners := [];
      new;
      RecreateSpline(input, angleTo, sqrt, convert);
    }

    /**
     * recreateSpline (lines 15-31): adopts the given configuration if there is
     * one, clears both output lists and rebuilds them from a copy of the
     * source line, which itself stays untouched.
     */
    method RecreateSpline(input: ProcessingInput?, angleTo: (Vector2, Vector2) -> real, sqrt: real -> real,
                          convert: Range -> seq<Biarc>)
      requires input != null || processingInput != null
      requires IsSqrt(sqrt) && ConvertGivesShapes(convert)
      requires ReadyToSpline(sourceLine, if input != null then input else processingInput)
      modifies this, if input != null then input else processingInput
      ensures processingInput == if input != null then input else old(processingInput)
      ensures var chosen := processingInput;
              chosen.corners == old(chosen.corners) && chosen.segments == old(chosen.segments)
      ensures var s, length, spread := sourceLine.points, sourceLine.cachedLength, sourceLine.halfSmoothingSpread;
              var chosen := processingInput;
              var markers := StrokeMarkers(s, length, spread, chosen.corners, chosen.segments, angleTo, sqrt);
              var out := WalkMarkers(PointsOf(s), convert, 0.0, markers + [Terminal(length)],
                                     Output([], [], old(chosen.biarcs.tBounds)), sqrt);
              debugCorners == out.corners && displayShapes == out.shapes &&
              chosen.biarcs == old(chosen.biarcs).(tBounds := out.tBounds)
    {
      if input != null {
        processingInput := input;
      }
      debugCorners := [];
      displayShapes := [];
      Rebuild(angleTo, sqrt, convert);
    }

    /**
     * Lines 24-30 of recreateSpline: the markers of a copy of the source line,
     * then the marker loop over them, appending to both output lists.
     */
    method Rebuild(angleTo: (Vector2, Vector2) -> real, sqrt: real -> real, convert: Range -> seq<Biarc>)
      requires processingInput != null && IsSqrt(sqrt) && ConvertGivesShapes(convert)
      requires ReadyToSpline(sourceLine, processingInput)
      modifies this, processingInput
      ensures processingInput == old(processingInput)
      ensures processingInput.corners == old(processingInput.corners)
      ensures processingInput.segments == old(processingInput.segments)
      ensures var s, length, spread := sourceLine.points, sourceLine.cachedLength, sourceLine.halfSmoothingSpread;
              var markers := StrokeMarkers(s, length, spread, processingInput.corners, processingInput.segments,
                                           angleTo, sqrt);
              var out := WalkMarkers(PointsOf(s), convert, 0.0, markers + [Terminal(length)],
                                     Output(old(debugCorners), old(displayShapes), old(processingInput.biarcs.tBounds)),
                                     sqrt);
              debugCorners == out.corners && displayShapes == out.shapes &&
              processingInput.biarcs == old(processingInput.biarcs).(tBounds := out.tBounds)
    {
      var lineCopy := new FreeformLine.Copy(sourceLine);
      var cornersAndSegments := FindCornersAndSegments(lineCopy, angleTo, sqrt);
      var _ := GenerateBiarcsAndFinalShapes(lineCopy, cornersAndSegments, sqrt, convert);
    }

    /**
     * findCornersAndSegments (lines 33-66): the corners over [0, length], then
     * each gap between consecutive corners (up to a terminal at the length)
     * that passes the segment test, then both lists sorted together. The test
     * is the corrected one: a gap whose end points coincide is not a segment.
     */
    method FindCornersAndSegments(line: FreeformLine, angleTo: (Vector2, Vector2) -> real, sqrt: real -> real)
      returns (result: seq<Range>)
      requires processingInput != null && IsSqrt(sqrt) && ReadyToSpline(line, processingInput)
      modifies line
      ensures line.points == old(line.points) && line.cachedLength == old(line.cachedLength)
      ensures line.halfSmoothingSpread == old(line.halfSmoothingSpread)
      ensures result == StrokeMarkers(line.points, line.cachedLength, line.halfSmoothingSpread, processingInput.corners,
                                      processingInput.segments, angleTo, sqrt)
      ensures Ascending(result) && forall i :: 0 <= i < |result| ==> InKeys(result[i])
      ensures EmptyStroke(line.points, line.cachedLength) ==> result == []
    {
      var length := line.Length();
      line.SetBounds(Range(0.0, length));
      FullBoundsReady(line, processingInput);
      if IsStroke(line.points, line.cachedLength) {
        StrokeLength(line.points, length);
        LineQueries(line, sqrt);
      }
      ghost var tangents, points := LineTangents(line, sqrt), LinePoints(line);
      var corners := FindCorners(line, processingInput.corners, angleTo, sqrt, tangents, points);
      assert corners == StrokeCorners(line.points, length, line.halfSmoothingSpread, processingInput.corners, angleTo,
                                      sqrt);
      StrokeCornersInKeys(line.points, length, line.halfSmoothingSpread, processingInput.corners, angleTo, sqrt);
      var segments := SegmentsBetween(line, corners, processingInput.segments, sqrt, points);
      result := SortMarkers(corners + segments);
      MarkersFacts(points, corners, length, processingInput.segments, sqrt);
      MarkersInKeys(points, corners, length, processingInput.segments, sqrt);
    }

    /**
     * Lines 45-58 of findCornersAndSegments: each gap between consecutive
     * corners, up to a terminal at the length, that passes the corrected
     * segment test.
     */
    method SegmentsBetween(line: FreeformLine, corners0: seq<Range>, input: SegmentsInput, sqrt: real -> real,
                           ghost points: real -> Vector2)
      returns (segments: seq<Range>)
      requires IsSqrt(sqrt) && line.Valid()
      requires (IsStroke(line.points, line.cachedLength) && PointQuery(line, points)) ||
               (EmptyStroke(line.points, line.cachedLength) && corners0 == [])
      requires 0.0 < input.tStep && input.referenceSegmentLength != 0.0
      requires 0.0 <= line.cachedLength && forall i :: 0 <= i < |corners0| ==> InKeys(corners0[i])
      ensures segments == AcceptedSegments(points, CandidateGaps(corners0, line.cachedLength), input, sqrt)
    {
      ghost var gaps := CandidateGaps(corners0, line.cachedLength);
      segments := [];
      var corners := corners0 + [Range(line.Length(), line.Length())];
      var prevCorner := 0.0;
      for i := 0 to |corners|
        invariant prevCorner == if i == 0 then 0.0 else corners[i - 1].end
        invariant segments == AcceptedSegments(points, gaps[..i], input, sqrt)
      {
        var segment := Range(prevCorner, corners[i].start);
        assert segment == gaps[i];
        assert gaps[..i + 1][..i] == gaps[..i];
        assert InKeys(segment) by {
          if 0 < i {
            assert InKeys(corners[i - 1]);
          }
          assert InKeys(corners[i]);
        }
        var accepted := TestSegment(line, segment, input, sqrt, points);
        if accepted {
          segments := segments + [segment];
        }
        prevCorner := corners[i].end;
      }
      assert gaps[..|corners|] == gaps;
    }

    /**
     * The condition of line 52, corrected: longer than MaxSplineGap, end
     * points more than Epsilon apart, and accepted by isSegment.
     */
    method TestSegment(line: FreeformLine, segment: Range, input: SegmentsInput, sqrt: real -> real,
                       ghost points: real -> Vector2)
      returns (accepted: bool)
      requires IsSqrt(sqrt) && line.Valid()
      requires (IsStroke(line.points, line.cachedLength) && PointQuery(line, points)) || segment.Length() <= MaxSplineGap
      requires 0.0 < input.tStep && input.referenceSegmentLength != 0.0 && InKeys(segment)
      ensures accepted == SegmentTest(points, segment, input, sqrt)
    {
      accepted := false;
      if MaxSplineGap < segment.Length() {
        var p0 := QueryPoint(line, segment.start, points);
        var p1 := QueryPoint(line, segment.end, points);
        if Epsilon2 < p1.Minus(p0).Norm2() {
          var meanError2;
          accepted, meanError2 := IsSegment(line, segment, input, sqrt, points);
        }
      }
    }

    /** Lines 103-120: the display shapes of the halves of each biarc of one gap. */
    method AddBiarcShapes(biarcs: seq<Biarc>, sqrt: real -> real)
      requires IsSqrt(sqrt) && forall b :: b in biarcs ==> HasShapes(b)
      modifies this
      ensures displayShapes == old(displayShapes) + AllBiarcShapes(biarcs, sqrt)
      ensures debugCorners == old(debugCorners) && processingInput == old(processingInput)
    {
      for j := 0 to |biarcs|
        invariant displayShapes == old(displayShapes) + AllBiarcShapes(biarcs[..j], sqrt)
        invariant debugCorners == old(debugCorners) && processingInput == old(processingInput)
      {
        var b := biarcs[j];
        assert b in biarcs;
        assert biarcs[..j + 1][..j] == biarcs[..j] && biarcs[..j + 1][j] == b;
        var midPoint := b.MidPoint();
        ghost var before := displayShapes;
        if MaxSplineGap <= b.point0.DistTo(midPoint, sqrt) {
          var shape := HalfShape(b.shape0, b.point0, b.tangent0, midPoint, 0);
          displayShapes := displayShapes + [shape];
        }
        if MaxSplineGap <= b.point1.DistTo(midPoint, sqrt) {
          var shape := HalfShape(b.shape1, midPoint, b.MidTangent(sqrt), b.point1, 1);
          displayShapes := displayShapes + [shape];
        }
        assert displayShapes == before + BiarcShapes(b, sqrt);
      }
      assert biarcs[..|biarcs|] == biarcs;
    }

    /**
     * One pass of the marker loop (lines 84-136): biarcs for the gap before
     * the marker s when it is longer than MaxSplineGap, then s as a segment
     * or a corner point. `convert` stands for convertLineToBiarcs on the line
     * bounded to the gap.
     */
    method AddMarker(line: FreeformLine, prevEnd: real, s: Range, sqrt: real -> real, convert: Range -> seq<Biarc>,
                     ghost points: real -> Vector2)
      requires processingInput != null && IsSqrt(sqrt) && ConvertGivesShapes(convert)
      requires line.Valid() && points == LinePoints(line)
      requires IsStroke(line.points, line.cachedLength) || 0.0 < s.Length() <= MaxSplineGap
      requires -ALot <= s.start < ALot && (MaxSplineGap < s.Length() ==> s.end < ALot)
      modifies this, line, processingInput
      ensures processingInput == old(processingInput)
      ensures line.points == old(line.points) && line.cachedLength == old(line.cachedLength)
      ensures line.halfSmoothingSpread == old(line.halfSmoothingSpread)
      ensures processingInput.corners == old(processingInput.corners)
      ensures processingInput.segments == old(processingInput.segments)
      ensures var out := MarkerStep(points, convert, prevEnd, s,
                                    Output(old(debugCorners), old(displayShapes), old(processingInput.biarcs.tBounds)), sqrt);
              debugCorners == out.corners && displayShapes == out.shapes &&
              processingInput.biarcs == old(processingInput.biarcs).(tBounds := out.tBounds)
    {
      var boundsBetweenMarkers := Range(prevEnd, s.start);
      AddGapBiarcs(line, boundsBetweenMarkers, sqrt, convert);
      ghost var gapShapes := displayShapes;
      if s.Length() > MaxSplineGap {
        LinePointsQuery(line);
        var p0 := QueryPoint(line, s.start, points);
        var p1 := QueryPoint(line, s.end, points);
        displayShapes := displayShapes + [SplineSegment(p0, p1, -1)];
      } else if s.Length() == 0.0 {
        LinePointsQuery(line);
        var p := QueryPoint(line, s.start, points);
        debugCorners := debugCorners + [p];
      }
      assert displayShapes == gapShapes + (if s.Length() > MaxSplineGap then [SplineSegment(points(s.start), points(s.end), -1)] else []);
    }

    /**
     * The first half of a pass of the marker loop (lines 84-91): a gap longer
     * than MaxSplineGap becomes the biarcs' bounds and the line's clipping
     * range, and the shapes of the biarcs convertLineToBiarcs finds there
     * are appended.
     */
    method AddGapBiarcs(line: FreeformLine, gap: Range, sqrt: real -> real, convert: Range -> seq<Biarc>)
      requires processingInput != null && IsSqrt(sqrt) && ConvertGivesShapes(convert)
      modifies this, line, processingInput
      ensures processingInput == old(processingInput) && debugCorners == old(debugCorners)
      ensures line.points == old(line.points) && line.cachedLength == old(line.cachedLength)
      ensures line.halfSmoothingSpread == old(line.halfSmoothingSpread)
      ensures processingInput.corners == old(processingInput.corners)
      ensures processingInput.segments == old(processingInput.segments)
      ensures gap.Length() > MaxSplineGap ==>
                displayShapes == old(displayShapes) + AllBiarcShapes(convert(gap), sqrt) &&
                processingInput.biarcs == old(processingInput.biarcs).(tBounds := gap) &&
                line.clippingRange == gap && line.clippingMargin == ClippingMargin(line.halfSmoothingSpread, gap)
      ensures gap.Length() <= MaxSplineGap ==>
                displayShapes == old(displayShapes) && processingInput.biarcs == old(processingInput.biarcs) &&
                line.clippingRange == old(line.clippingRange) && line.clippingMargin == old(line.clippingMargin)
    {
      if gap.Length() > MaxSplineGap {
        processingInput.biarcs := processingInput.biarcs.(tBounds := gap);
        line.SetBounds(gap);
        var biarcs := convert(gap);
        AddBiarcShapes(biarcs, sqrt);
      }
    }

    /**
     * generateBiarcsAndFinalShapes (lines 68-140): walks the markers followed
     * by a terminal one unit long, from a previous marker ending at 0, and
     * leaves the marker list as it found it.
     */
    method GenerateBiarcsAndFinalShapes(line: FreeformLine, markers: seq<Range>, sqrt: real -> real,
                                        convert: Range -> seq<Biarc>)
      returns (markersAfter: seq<Range>)
      requires processingInput != null && IsSqrt(sqrt) && ConvertGivesShapes(convert)
      requires line.Valid()
      requires IsStroke(line.points, line.cachedLength) || (EmptyStroke(line.points, line.cachedLength) && markers == [])
      requires forall i :: 0 <= i < |markers| ==> InKeys(markers[i])
      modifies this, line, processingInput
      ensures markersAfter == markers && processingInput == old(processingInput)
      ensures line.points == old(line.points) && line.cachedLength == old(line.cachedLength)
      ensures line.halfSmoothingSpread == old(line.halfSmoothingSpread)
      ensures processingInput.corners == old(processingInput.corners)
      ensures processingInput.segments == old(processingInput.segments)
      ensures var out := WalkMarkers(PointsOf(line.points), convert, 0.0, markers + [Terminal(line.cachedLength)],
                                     Output(old(debugCorners), old(displayShapes), old(processingInput.biarcs.tBounds)),
                                     sqrt);
              debugCorners == out.corners && displayShapes == out.shapes &&
              processingInput.biarcs == old(processingInput.biarcs).(tBounds := out.tBounds)
    {
      if IsStroke(line.points, line.cachedLength) {
        StrokeLength(line.points, line.cachedLength);
      }
      var cornersAndSegments := markers + [Terminal(line.Length())];
      assert !IsStroke(line.points, line.cachedLength) ==> cornersAndSegments == [Range(0.0, 1.0)];
      MarkerLoop(line, cornersAndSegments, sqrt, convert, LinePoints(line));
      markersAfter := cornersAndSegments[..|cornersAndSegments| - 1];
    }

    /**
     * The marker loop (lines 83-136): one pass per marker, from a previous
     * marker ending at 0. The line is asked for points only at segments and
     * corners, so a line without entries is fine when no marker is one.
     */
    method MarkerLoop(line: FreeformLine, ms: seq<Range>, sqrt: real -> real, convert: Range -> seq<Biarc>,
                      ghost points: real -> Vector2)
      requires processingInput != null && IsSqrt(sqrt) && ConvertGivesShapes(convert)
      requires line.Valid() && points == LinePoints(line)
      requires forall k :: 0 <= k < |ms| ==> -ALot <= ms[k].start < ALot && (MaxSplineGap < ms[k].Length() ==> ms[k].end < ALot)
      requires IsStroke(line.points, line.cachedLength) || forall k :: 0 <= k < |ms| ==> 0.0 < ms[k].Length() <= MaxSplineGap
      modifies this, line, processingInput
      ensures processingInput == old(processingInput)
      ensures line.points == old(line.points) && line.cachedLength == old(line.cachedLength)
      ensures line.halfSmoothingSpread == old(line.halfSmoothingSpread)
      ensures processingInput.corners == old(processingInput.corners)
      ensures processingInput.segments == old(processingInput.segments)
      ensures var out := WalkMarkers(points, convert, 0.0, ms,
                                     Output(old(debugCorners), old(displayShapes), old(processingInput.biarcs.tBounds)),
                                     sqrt);
              debugCorners == out.corners && displayShapes == out.shapes &&
              processingInput.biarcs == old(processingInput.biarcs).(tBounds := out.tBounds)
    {
      ghost var goal := WalkMarkers(points, convert, 0.0, ms,
                                    Output(debugCorners, displayShapes, processingInput.biarcs.tBounds), sqrt);
      var prevMarker := Range(-1.0, 0.0);
      for i := 0 to |ms|
        invariant processingInput == old(processingInput)
        invariant line.points == old(line.points) && line.cachedLength == old(line.cachedLength)
        invariant line.halfSmoothingSpread == old(line.halfSmoothingSpread) && line.Valid()
        invariant processingInput.corners == old(processingInput.corners)
        invariant processingInput.segments == old(processingInput.segments)
        invariant processingInput.biarcs == old(processingInput.biarcs).(tBounds := processingInput.biarcs.tBounds)
        invariant goal == WalkMarkers(points, convert, prevMarker.end, ms[i..],
                                      Output(debugCorners, displayShapes, processingInput.biarcs.tBounds), sqrt)
      {
        assert ms[i..] == [ms[i]] + ms[i + 1..];
        AddMarker(line, prevMarker.end, ms[i], sqrt, convert, points);
        prevMarker := ms[i];
      }
    }
  }
}
