/**
 * The steps that turn a FreeformLine into spline material: the configuration
 * of each step, the corner detector (a scan over the line with a run-length
 * state machine, then a reduction of each run to one point), the segment
 * acceptance test and the two sampling loops that score a fitted shape.
 */
module ArcSplineUtil {
  import opened Common
  import opened Vectors
  import opened FreeformLines
  import opened Geometry

  /** Which points on the line qualify as corners. */
  datatype CornersInput = CornersInput(
    tStep: real,
    innerMinAngleInDeg: real,
    outerMaxAngleInDeg: real,
    minNumberTestPositivesInSeries: nat,
    maxDistBetweenCornersToMerge: nat,
    innerInterMeasurementFactor: real,
    outerInterMeasurementFactor: real)
  {
    static function Default(): CornersInput
    {
      CornersInput(1.0, 45.0, 25.0, 2, 4, 1.0, 2.0)
    }

    /** The distance kept from both bounds so the outer samples stay inside: ceil(outer + inner / 2). */
    function Margin(): real
    {
      Ceil(outerInterMeasurementFactor + 0.5 * innerInterMeasurementFactor)
    }

    /** The four tangent sample offsets d[0..3] around a scan position, scaled by the spread. */
    function Offsets(spread: real): (d: seq<real>)
      ensures |d| == 4
      ensures d[0] == -d[3] && d[1] == -d[2]
      ensures 0.0 < innerInterMeasurementFactor && 0.0 < spread ==> d[1] < 0.0 < d[2]
      ensures 0.0 <= outerInterMeasurementFactor && 0.0 <= spread ==> d[0] <= d[1] && d[2] <= d[3]
    {
      var d := [-(outerInterMeasurementFactor + innerInterMeasurementFactor), -innerInterMeasurementFactor,
                innerInterMeasurementFactor, innerInterMeasurementFactor + outerInterMeasurementFactor];
      OffsetsOrdered(innerInterMeasurementFactor, outerInterMeasurementFactor, spread);
      [d[0] * spread, d[1] * spread, d[2] * spread, d[3] * spread]
    }

    /** How far a corner run is widened before the search for its sharpest point. */
    function SearchPadding(spread: real): (pad: real)
      ensures 0.0 <= innerInterMeasurementFactor && 0.0 <= spread ==> 0.0 <= pad
    {
      PaddingSign(innerInterMeasurementFactor, spread);
      2.0 * innerInterMeasurementFactor * spread
    }
  }

  lemma PaddingSign(inner: real, spread: real)
    ensures 0.0 <= inner && 0.0 <= spread ==> 0.0 <= 2.0 * inner * spread
  {
    if 0.0 <= inner && 0.0 <= spread {
      MulLeq(spread, 0.0, 2.0 * inner);
      assert spread * (2.0 * inner) == 2.0 * inner * spread;
    }
  }

  lemma OffsetsOrdered(inner: real, outer: real, spread: real)
    ensures 0.0 < inner && 0.0 < spread ==> -inner * spread < 0.0 < inner * spread
    ensures 0.0 <= outer && 0.0 <= spread ==>
      -(outer + inner) * spread <= -inner * spread && inner * spread <= (inner + outer) * spread
  {
    if 0.0 < inner && 0.0 < spread {
      MulLess(spread, 0.0, inner);
      MulLess(spread, -inner, 0.0);
      assert spread * inner == inner * spread && spread * -inner == -inner * spread;
    }
    if 0.0 <= outer && 0.0 <= spread {
      MulLeq(spread, -(outer + inner), -inner);
      MulLeq(spread, inner, inner + outer);
      assert spread * -(outer + inner) == -(outer + inner) * spread && spread * -inner == -inner * spread;
      assert spread * inner == inner * spread && spread * (inner + outer) == (inner + outer) * spread;
    }
  }

  /** Whether a line section qualifies as a segment. */
  datatype SegmentsInput = SegmentsInput(
    tStep: real,
    maxMeanErrorAtReferenceLength: real,
    referenceSegmentLength: real)
  {
    static function Default(): SegmentsInput
    {
      SegmentsInput(15.0, 2.5, 20.0)
    }
  }

  /** How line sections become biarcs. tBounds is run-time state, invalid by default. */
  datatype BiarcsInput = BiarcsInput(
    tBounds: Range,
    tStep: real,
    maxMeanError: real,
    maxBiarcRatio: real,
    minBiarcRatio: real,
    numBiarcRatioSamples: int,
    distToErrorThreshold: real,
    endOfLineOkayFactor: real,
    allowHalfArcAtSectionEnd: bool,
    endAngleTolerance: real,
    allowExtraToleranceForSingleArcSections: bool,
    endAngleToleranceForSingleArcSection: real)
  {
    /** The defaults; minBiarcRatio is initialised from maxBiarcRatio. */
    static function Default(): BiarcsInput
    {
      var maxBiarcRatio := 5.0;
      BiarcsInput(Range.Invalid(), 15.0, 10.0, maxBiarcRatio, 1.0 / maxBiarcRatio, 9, 1.01, 0.0,
                  true, 15.0, false, 45.0)
    }
  }

  /**
   * The default configuration: the corner scan keeps a margin of 3 and samples
   * tangents at -3, -1, 1 and 3 spreads; the biarc ratios span [1/5, 5]
   * symmetrically around 1 with an odd number of samples, so r = 1 is one of
   * them; the biarcs' bounds start out invalid.
   */
  lemma DefaultInputs(spread: real)
    ensures CornersInput.Default().Margin() == 3.0
    ensures CornersInput.Default().Offsets(spread) == [-3.0 * spread, -spread, spread, 3.0 * spread]
    ensures CornersInput.Default().SearchPadding(spread) == 2.0 * spread
    ensures BiarcsInput.Default().minBiarcRatio * BiarcsInput.Default().maxBiarcRatio == 1.0
    ensures 0.0 < BiarcsInput.Default().minBiarcRatio < 1.0 < BiarcsInput.Default().maxBiarcRatio
    ensures BiarcsInput.Default().numBiarcRatioSamples % 2 == 1
    ensures !BiarcsInput.Default().tBounds.IsValid()
    ensures SegmentsInput.Default().maxMeanErrorAtReferenceLength * SegmentsInput.Default().maxMeanErrorAtReferenceLength == 6.25
  {
    DefaultCorners(spread);
    DefaultBiarcs();
  }

  lemma DefaultCorners(spread: real)
    ensures CornersInput.Default().Margin() == 3.0
    ensures CornersInput.Default().Offsets(spread) == [-3.0 * spread, -spread, spread, 3.0 * spread]
    ensures CornersInput.Default().SearchPadding(spread) == 2.0 * spread
  {
    assert (-(2.5)).Floor == -3;
    var d := CornersInput.Default().Offsets(spread);
    assert d[0] == -3.0 * spread && d[1] == -spread && d[2] == spread && d[3] == 3.0 * spread;
  }

  lemma DefaultBiarcs()
    ensures BiarcsInput.Default().minBiarcRatio * BiarcsInput.Default().maxBiarcRatio == 1.0
    ensures 0.0 < BiarcsInput.Default().minBiarcRatio < 1.0 < BiarcsInput.Default().maxBiarcRatio
    ensures BiarcsInput.Default().numBiarcRatioSamples % 2 == 1
    ensures !BiarcsInput.Default().tBounds.IsValid()
    ensures SegmentsInput.Default().maxMeanErrorAtReferenceLength * SegmentsInput.Default().maxMeanErrorAtReferenceLength == 6.25
  {
  }

  /** ProcessingInput: the three configuration groups, shared by reference between splines. */
  class ProcessingInput {
    var corners: CornersInput
    var segments: SegmentsInput
    var biarcs: BiarcsInput

    constructor ()
      ensures corners == CornersInput.Default() && segments == SegmentsInput.Default()
      ensures biarcs == BiarcsInput.Default()
    {
      corners := CornersInput.Default();
      segments := SegmentsInput.Default();
      biarcs := BiarcsInput.Default();
    }
  }

  // ---------------------------------------------------------------------
  // Corners
  // ---------------------------------------------------------------------

  /** |angleTo(a, b)| in degrees. `angleTo` is the atan2-based angle between two vectors. */
  function AngleDeg(a: Vector2, b: Vector2, angleTo: (Vector2, Vector2) -> real): (deg: real)
    ensures 0.0 <= deg
  {
    Abs(angleTo(a, b)) * RadToDeg
  }

  /**
   * The per-sample corner test on the three angles between consecutive
   * tangents. A zero middle angle makes the float quotients infinite or NaN,
   * and the comparisons false.
   */
  predicate IsCornerSample(a0: real, a1: real, a2: real, input: CornersInput)
  {
    a0 < input.outerMaxAngleInDeg &&
    a1 > input.innerMinAngleInDeg &&
    a2 < input.outerMaxAngleInDeg &&
    a1 != 0.0 && a0 / a1 < 1.0 / 3.0 && a2 / a1 < 1.0 / 3.0
  }

  /**
   * The meaning of the test: both outer angles below the outer maximum, the
   * middle one above the inner minimum, and the middle angle more than three
   * times each outer one.
   */
  predicate SharpCorner(a0: real, a1: real, a2: real, input: CornersInput)
  {
    a0 < input.outerMaxAngleInDeg && a1 > input.innerMinAngleInDeg && a2 < input.outerMaxAngleInDeg &&
    3.0 * a0 < a1 && 3.0 * a2 < a1
  }

  /** For non-negative angles, as the absolute angles in degrees are, the test as written means SharpCorner. */
  lemma CornerSampleTest(a0: real, a1: real, a2: real, input: CornersInput)
    requires 0.0 <= a0 && 0.0 <= a1 && 0.0 <= a2
    ensures IsCornerSample(a0, a1, a2, input) <==> SharpCorner(a0, a1, a2, input)
  {
    if 0.0 < a1 {
      QuotientBelowThird(a0, a1);
      QuotientBelowThird(a2, a1);
    }
  }

  lemma QuotientBelowThird(a: real, b: real)
    requires 0.0 < b
    ensures a / b < 1.0 / 3.0 <==> 3.0 * a < b
  {
    var q := a / b;
    assert q * b == a;
    if q < 1.0 / 3.0 {
      MulLess(b, q, 1.0 / 3.0);
    } else {
      MulLeq(b, 1.0 / 3.0, q);
    }
  }

  /**
   * The line state findCorners relies on: an ordered, non-empty map whose
   * keys bracket the clipping range, a clipping margin that fits into the
   * range, and a spread above Epsilon.
   */
  ghost predicate ReadyForTangents(line: FreeformLine)
    reads line
  {
    line.Valid() && 0 < |line.points| &&
    line.points[0].t <= line.clippingRange.start && line.clippingRange.end < line.points[|line.points| - 1].t &&
    0.0 <= line.clippingMargin && line.clippingRange.start + line.clippingMargin <= line.clippingRange.end &&
    Epsilon < line.halfSmoothingSpread
  }

  /** A line ready for tangents answers getTangentAt at every position. */
  lemma TangentDefined(line: FreeformLine, t: real)
    requires ReadyForTangents(line)
    ensures line.TangentWindowValid() && line.TangentSamplesInside(t)
  {
    WindowAlwaysInside(line.points, line.halfSmoothingSpread, line.clippingRange, line.clippingMargin, t);
  }

  /** The tangent at t, through the line's query. */
  function Tangent(line: FreeformLine, t: real, sqrt: real -> real): Vector2
    reads line
    requires IsSqrt(sqrt) && ReadyForTangents(line)
  {
    TangentDefined(line, t);
    line.GetTangentAt(t, sqrt)
  }

  /**
   * The line's tangent query as a function of the position: `tangents`
   * answers what getTangentAt answers at every t. The specification of the
   * corner detector is stated over this function; its methods ask the line.
   */
  ghost predicate TangentQuery(line: FreeformLine, tangents: real -> Vector2, sqrt: real -> real)
    reads line
    requires IsSqrt(sqrt) && ReadyForTangents(line)
  {
    forall t {:trigger Tangent(line, t, sqrt)} :: tangents(t) == Tangent(line, t, sqrt)
  }

  /** The line's point query getPointAt as a function of the position, inside the keyed range. */
  ghost predicate PointQuery(line: FreeformLine, points: real -> Vector2)
    reads line
    requires line.Valid() && 0 < |line.points|
  {
    forall t {:trigger line.GetPointAt(t)} :: line.points[0].t <= t < line.points[|line.points| - 1].t ==>
      points(t) == line.GetPointAt(t)
  }

  /** getTangentAt on a line state, and the zero vector where the state does not define it. */
  ghost function TangentOrZero(s: seq<Entry>, spread: real, range: Range, margin: real, t: real,
                               sqrt: real -> real): Vector2
  {
    if IsSqrt(sqrt) && range.start + margin <= range.end + Epsilon && WindowInside(s, spread, range, margin, t) then
      TangentAt(s, spread, range, margin, t, sqrt)
    else
      Vector2(0.0, 0.0)
  }

  /** getPointAt on a map of entries, and the zero vector outside its keyed range. */
  ghost function PointOrZero(s: seq<Entry>, t: real): Vector2
  {
    if Ordered(s) && 0 < |s| && s[0].t <= t < s[|s| - 1].t then PointAt(s, t) else Vector2(0.0, 0.0)
  }

  /** The tangent query of a line state: its entries, spread, clipping range and margin. */
  ghost function TangentsOf(s: seq<Entry>, spread: real, range: Range, margin: real, sqrt: real -> real): real -> Vector2
  {
    t => TangentOrZero(s, spread, range, margin, t, sqrt)
  }

  /** The point query of a map of entries. */
  ghost function PointsOf(s: seq<Entry>): real -> Vector2
  {
    t => PointOrZero(s, t)
  }

  /** The tangent query of the line in its current state. */
  ghost function LineTangents(line: FreeformLine, sqrt: real -> real): real -> Vector2
    reads line
  {
    TangentsOf(line.points, line.halfSmoothingSpread, line.clippingRange, line.clippingMargin, sqrt)
  }

  /** The point query of the line in its current state. */
  ghost function LinePoints(line: FreeformLine): real -> Vector2
    reads line
  {
    PointsOf(line.points)
  }

  /** A line ready for tangents has both queries. */
  lemma LineQueries(line: FreeformLine, sqrt: real -> real)
    requires IsSqrt(sqrt) && ReadyForTangents(line)
    ensures TangentQuery(line, LineTangents(line, sqrt), sqrt)
    ensures PointQuery(line, LinePoints(line))
  {
    forall t
      ensures LineTangents(line, sqrt)(t) == Tangent(line, t, sqrt)
    {
      TangentDefined(line, t);
    }
  }

  /**
   * Whether the scan position t is a corner sample: the angles between the
   * tangents at the four offsets d from t make a sharp corner.
   */
  predicate CornerAt(tangents: real -> Vector2, t: real, d: seq<real>, input: CornersInput,
                     angleTo: (Vector2, Vector2) -> real)
    requires |d| == 4
  {
    var t0, t1 := tangents(t + d[0]), tangents(t + d[1]);
    var t2, t3 := tangents(t + d[2]), tangents(t + d[3]);
    SharpCorner(AngleDeg(t0, t1, angleTo), AngleDeg(t1, t2, angleTo), AngleDeg(t2, t3, angleTo), input)
  }

  /** CornerAt is the test of lines 22-31 on the four tangents at t. */
  lemma CornerAtTest(tangents: real -> Vector2, t: real, d: seq<real>, input: CornersInput,
                     angleTo: (Vector2, Vector2) -> real)
    requires |d| == 4
    ensures var t0, t1 := tangents(t + d[0]), tangents(t + d[1]);
      var t2, t3 := tangents(t + d[2]), tangents(t + d[3]);
      CornerAt(tangents, t, d, input, angleTo) <==>
        IsCornerSample(AngleDeg(t0, t1, angleTo), AngleDeg(t1, t2, angleTo), AngleDeg(t2, t3, angleTo), input)
  {
    var t0, t1 := tangents(t + d[0]), tangents(t + d[1]);
    var t2, t3 := tangents(t + d[2]), tangents(t + d[3]);
    CornerSampleTest(AngleDeg(t0, t1, angleTo), AngleDeg(t1, t2, angleTo), AngleDeg(t2, t3, angleTo), input);
  }

  /** line.getTangentAt(t), the value of the line's tangent query at t. */
  method QueryTangent(line: FreeformLine, t: real, sqrt: real -> real, ghost tangents: real -> Vector2)
    returns (tangent: Vector2)
    requires IsSqrt(sqrt) && ReadyForTangents(line) && TangentQuery(line, tangents, sqrt)
    ensures tangent == tangents(t)
  {
    TangentDefined(line, t);
    tangent := line.GetTangentAt(t, sqrt);
    assert tangent == Tangent(line, t, sqrt);
  }

  /** The corner test of one scan position, asking the line for the four tangents (lines 22-31). */
  method TestCorner(line: FreeformLine, t: real, d: seq<real>, input: CornersInput,
                    angleTo: (Vector2, Vector2) -> real, sqrt: real -> real, ghost tangents: real -> Vector2)
    returns (positive: bool)
    requires IsSqrt(sqrt) && ReadyForTangents(line) && TangentQuery(line, tangents, sqrt) && |d| == 4
    ensures positive == CornerAt(tangents, t, d, input, angleTo)
  {
    var tangent0 := QueryTangent(line, t + d[0], sqrt, tangents);
    var tangent1 := QueryTangent(line, t + d[1], sqrt, tangents);
    var tangent2 := QueryTangent(line, t + d[2], sqrt, tangents);
    var tangent3 := QueryTangent(line, t + d[3], sqrt, tangents);
    var angle0, angle1 := AngleDeg(tangent0, tangent1, angleTo), AngleDeg(tangent1, tangent2, angleTo);
    var angle2 := AngleDeg(tangent2, tangent3, angleTo);
    positive := angle0 < input.outerMaxAngleInDeg && angle1 > input.innerMinAngleInDeg &&
                angle2 < input.outerMaxAngleInDeg && angle1 != 0.0 &&
                angle0 / angle1 < 1.0 / 3.0 && angle2 / angle1 < 1.0 / 3.0;
    CornerAtTest(tangents, t, d, input, angleTo);
  }
  /** The scan's state: the corner runs found so far and the run being grown. */
  datatype ScanState = ScanState(result: seq<Range>, section: Range)

  /**
   * A negative sample closes the running section, exactly as written: the
   * section is kept when its length reaches minNumberTestPositivesInSeries.
   * A kept section extends the previous run when it starts within
   * maxDistBetweenCornersToMerge of that run's end, and is appended
   * otherwise. The running section is invalidated in every case.
   */
  function CloseSectionAsWritten(st: ScanState, input: CornersInput): (r: ScanState)
    ensures r.section == Range.Invalid()
    ensures st.section.Length() < input.minNumberTestPositivesInSeries as real ==> r.result == st.result
  {
    var section := st.section;
    if section.Length() >= input.minNumberTestPositivesInSeries as real then
      MergeOrAppend(st.result, section, input)
    else
      ScanState(st.result, Range.Invalid())
  }

  /** Extends the last run to the section's end when the two are close enough, appends the section otherwise. */
  function MergeOrAppend(result: seq<Range>, section: Range, input: CornersInput): (r: ScanState)
    ensures r.section == Range.Invalid()
    ensures |r.result| == |result| || r.result == result + [section]
  {
    if |result| > 0 && result[|result| - 1].end + input.maxDistBetweenCornersToMerge as real >= section.start then
      var last := result[|result| - 1];
      ScanState(result[|result| - 1 := Range(last.start, section.end)], Range.Invalid())
    else
      ScanState(result + [section], Range.Invalid())
  }

  /**
   * With minNumberTestPositivesInSeries == 0 the length test also accepts the
   * invalidated section, whose length is 0: the first negative sample of a
   * scan records the invalid range {FLT_MAX, -FLT_MAX} as a corner run.
   */
  lemma ZeroMinimumRecordsInvalidRange(input: CornersInput)
    requires input.minNumberTestPositivesInSeries == 0
    ensures CloseSectionAsWritten(ScanState([], Range.Invalid()), input).result == [Range.Invalid()]
    ensures !CloseSectionAsWritten(ScanState([], Range.Invalid()), input).result[0].IsValid()
  {
  }

  /**
   * The closing step the scan uses: a section must also be valid, that is,
   * have seen at least one positive sample, before it is kept.
   */
  function CloseSection(st: ScanState, input: CornersInput): (r: ScanState)
    ensures r.section == Range.Invalid()
    ensures !st.section.IsValid() ==> r.result == st.result
    ensures 0 < input.minNumberTestPositivesInSeries ==> r == CloseSectionAsWritten(st, input)
  {
    var section := st.section;
    if section.IsValid() && section.Length() >= input.minNumberTestPositivesInSeries as real then
      MergeOrAppend(st.result, section, input)
    else
      ScanState(st.result, Range.Invalid())
  }

  /** One scan position: a positive sample grows the running section, a negative one closes it. */
  function ScanStep(st: ScanState, t: real, positive: bool, input: CornersInput): ScanState
  {
    if positive then ScanState(st.result, st.section.Include(t)) else CloseSection(st, input)
  }

  /** The number of scan positions t, t + step, ... not beyond last. */
  function StepsLeft(t: real, last: real, step: real): (n: nat)
    requires 0.0 < step
    ensures n == 0 <==> last < t
  {
    if t <= last then ((last - t) / step).Floor as nat + 1 else 0
  }

  /** One step forward leaves one position fewer. */
  lemma StepsLeftDecreases(t: real, last: real, step: real)
    requires 0.0 < step && t <= last
    ensures StepsLeft(t + step, last, step) == StepsLeft(t, last, step) - 1
  {
    QuotientShift(last - t, step);
    assert last - (t + step) == (last - t) - step;
    if t + step <= last {
      assert ((last - t) / step - 1.0).Floor == ((last - t) / step).Floor - 1;
    } else {
      assert (last - t) / step < 1.0 by {
        assert (last - t) / step - 1.0 < 0.0 by {
          QuotientSign(last - (t + step), step);
        }
      }
    }
  }

  lemma QuotientShift(a: real, step: real)
    requires 0.0 < step
    ensures (a - step) / step == a / step - 1.0
  {
    assert a / step - step / step == (a - step) / step;
  }

  lemma QuotientSign(a: real, step: real)
    requires 0.0 < step && a < 0.0
    ensures a / step < 0.0
  {
    var q := a / step;
    assert q * step == a;
    if 0.0 <= q {
      MulLeq(step, 0.0, q);
    }
  }

  /**
   * The scan from the state st over the n positions t, t + tStep, ..., with
   * flag(t) the corner test at position t.
   */
  function ScanFrom(flag: real -> bool, st: ScanState, t: real, n: nat, input: CornersInput): ScanState
    decreases n
  {
    if n == 0 then st
    else ScanFrom(flag, ScanStep(st, t, flag(t), input), t + input.tStep, n - 1, input)
  }

  /** The scan, one position at a time. */
  lemma ScanFromUnfold(flag: real -> bool, st: ScanState, next: ScanState, t: real, n: nat, input: CornersInput)
    requires 0 < n && next == ScanStep(st, t, flag(t), input)
    ensures ScanFrom(flag, st, t, n, input) == ScanFrom(flag, next, t + input.tStep, n - 1, input)
  {
  }

  /** One scan position done: one position fewer is left, and the rest of the scan starts from the new state. */
  lemma ScanAdvance(flag: real -> bool, st: ScanState, next: ScanState, t: real, last: real, n: nat, input: CornersInput)
    requires 0.0 < input.tStep && t <= last && n == StepsLeft(t, last, input.tStep)
    requires next == ScanStep(st, t, flag(t), input)
    ensures StepsLeft(t + input.tStep, last, input.tStep) == n - 1
    ensures ScanFrom(flag, st, t, n, input) == ScanFrom(flag, next, t + input.tStep, n - 1, input)
  {
    StepsLeftDecreases(t, last, input.tStep);
    ScanFromUnfold(flag, st, next, t, n, input);
  }

  /** flag is the corner test at every position. */
  ghost predicate IsCornerTest(flag: real -> bool, tangents: real -> Vector2, d: seq<real>, input: CornersInput,
                               angleTo: (Vector2, Vector2) -> real)
    requires |d| == 4
  {
    forall t {:trigger CornerAt(tangents, t, d, input, angleTo)} :: flag(t) == CornerAt(tangents, t, d, input, angleTo)
  }

  /** The corner test at the offsets d, as a function of the position. */
  function CornerTest(tangents: real -> Vector2, d: seq<real>, input: CornersInput,
                      angleTo: (Vector2, Vector2) -> real): (flag: real -> bool)
    requires |d| == 4
    ensures IsCornerTest(flag, tangents, d, input, angleTo)
  {
    t => CornerAt(tangents, t, d, input, angleTo)
  }

  /**
   * What the scan keeps between positions, for runs found in [lo, hi] before
   * the position t: every run is a valid range inside [lo, hi] ending before
   * t and at least minNumberTestPositivesInSeries long; consecutive runs are
   * further apart than maxDistBetweenCornersToMerge; the running section is
   * invalid, or a valid range inside [lo, hi] after the last run and before t.
   */
  ghost predicate ScanInvariant(st: ScanState, lo: real, t: real, hi: real, input: CornersInput)
  {
    (forall i :: 0 <= i < |st.result| ==>
       st.result[i].IsValid() && lo <= st.result[i].start && st.result[i].end < t && st.result[i].end <= hi &&
       input.minNumberTestPositivesInSeries as real <= st.result[i].Length()) &&
    (forall i :: 0 <= i < |st.result| - 1 ==>
       st.result[i].end + input.maxDistBetweenCornersToMerge as real < st.result[i + 1].start) &&
    (st.section == Range.Invalid() ||
       (st.section.IsValid() && lo <= st.section.start && st.section.end < t && st.section.end <= hi &&
        (0 < |st.result| ==> st.result[|st.result| - 1].end < st.section.start)))
  }

  /** Closing the section keeps the invariant. */
  lemma CloseSectionKeeps(st: ScanState, lo: real, t: real, hi: real, input: CornersInput)
    requires ScanInvariant(st, lo, t, hi, input)
    ensures ScanInvariant(CloseSection(st, input), lo, t, hi, input)
  {
    var section := st.section;
    if section.IsValid() && section.Length() >= input.minNumberTestPositivesInSeries as real {
      var md := input.maxDistBetweenCornersToMerge as real;
      if |st.result| > 0 && st.result[|st.result| - 1].end + md >= section.start {
        var last := st.result[|st.result| - 1];
        MergeKeeps(st, lo, t, hi, input);
        assert CloseSection(st, input) ==
               ScanState(st.result[|st.result| - 1 := Range(last.start, section.end)], Range.Invalid());
      } else {
        AppendKeeps(st, lo, t, hi, input);
        assert CloseSection(st, input) == ScanState(st.result + [section], Range.Invalid());
      }
    } else {
      DropSectionKeeps(st, lo, t, hi, input);
      assert CloseSection(st, input) == ScanState(st.result, Range.Invalid());
    }
  }

  /** Dropping the section keeps the invariant. */
  lemma DropSectionKeeps(st: ScanState, lo: real, t: real, hi: real, input: CornersInput)
    requires ScanInvariant(st, lo, t, hi, input)
    ensures ScanInvariant(ScanState(st.result, Range.Invalid()), lo, t, hi, input)
  {
  }

  /** Extending the last run to the end of a close section keeps the invariant. */
  lemma MergeKeeps(st: ScanState, lo: real, t: real, hi: real, input: CornersInput)
    requires ScanInvariant(st, lo, t, hi, input) && st.section.IsValid() && 0 < |st.result|
    requires input.minNumberTestPositivesInSeries as real <= st.section.Length()
    requires st.section.start <= st.result[|st.result| - 1].end + input.maxDistBetweenCornersToMerge as real
    ensures var last := st.result[|st.result| - 1];
      ScanInvariant(ScanState(st.result[|st.result| - 1 := Range(last.start, st.section.end)], Range.Invalid()),
                    lo, t, hi, input)
  {
    var last := st.result[|st.result| - 1];
    assert Range(last.start, st.section.end).Length() >= st.section.Length();
  }

  /** Appending a section far enough from the last run keeps the invariant. */
  lemma AppendKeeps(st: ScanState, lo: real, t: real, hi: real, input: CornersInput)
    requires ScanInvariant(st, lo, t, hi, input) && st.section.IsValid()
    requires input.minNumberTestPositivesInSeries as real <= st.section.Length()
    requires 0 < |st.result| ==>
      st.result[|st.result| - 1].end + input.maxDistBetweenCornersToMerge as real < st.section.start
    ensures ScanInvariant(ScanState(st.result + [st.section], Range.Invalid()), lo, t, hi, input)
  {
  }

  /** One scan step at a position t inside [lo, hi] keeps the invariant for the next position. */
  lemma ScanStepKeeps(st: ScanState, lo: real, t: real, hi: real, positive: bool, input: CornersInput)
    requires ScanInvariant(st, lo, t, hi, input)
    requires -FltMax <= lo <= t <= hi <= FltMax && 0.0 < input.tStep
    ensures ScanInvariant(ScanStep(st, t, positive, input), lo, t + input.tStep, hi, input)
  {
    if positive {
      var r := ScanStep(st, t, positive, input);
      assert r.section == st.section.Include(t);
      if st.section != Range.Invalid() {
        assert r.section == Range(st.section.start, t);
      }
    } else {
      CloseSectionKeeps(st, lo, t, hi, input);
    }
  }

  /** None of the n positions t, t + step, ... lies beyond hi. */
  predicate StepsWithin(t: real, n: nat, step: real, hi: real)
    decreases n
  {
    n == 0 || (t <= hi && StepsWithin(t + step, n - 1, step, hi))
  }

  /** The positions StepsLeft counts are not beyond last. */
  lemma {:induction false} StepsLeftWithin(t: real, last: real, step: real)
    requires 0.0 < step
    ensures StepsWithin(t, StepsLeft(t, last, step), step, last)
    decreases StepsLeft(t, last, step)
  {
    if t <= last {
      StepsLeftDecreases(t, last, step);
      StepsLeftWithin(t + step, last, step);
    }
  }

  /** The scan of n positions from t, none beyond hi, keeps the invariant. */
  lemma {:induction false} ScanKeeps(flag: real -> bool, st: ScanState, lo: real, t: real, hi: real, n: nat,
                                     input: CornersInput)
    requires 0.0 < input.tStep && StepsWithin(t, n, input.tStep, hi)
    requires -FltMax <= lo <= t && hi <= FltMax
    requires ScanInvariant(st, lo, t, hi, input)
    ensures ScanInvariant(ScanFrom(flag, st, t, n, input), lo, hi + input.tStep, hi, input)
    decreases n
  {
    if n == 0 {
      InvariantAfterScan(st, lo, t, hi, input);
    } else {
      var next := ScanStep(st, t, flag(t), input);
      ScanStepKeeps(st, lo, t, hi, flag(t), input);
      ScanKeeps(flag, next, lo, t + input.tStep, hi, n - 1, input);
      ScanFromUnfold(flag, st, next, t, n, input);
    }
  }

  /** Runs and section inside [lo, hi] also end before any position after hi. */
  lemma InvariantAfterScan(st: ScanState, lo: real, t: real, hi: real, input: CornersInput)
    requires ScanInvariant(st, lo, t, hi, input) && 0.0 < input.tStep
    ensures ScanInvariant(st, lo, hi + input.tStep, hi, input)
  {
  }

  /** The first and last scan positions: the clipping range shrunk by the margin. */
  function ScanStart(bounds: Range, input: CornersInput): real
  {
    bounds.start + input.Margin()
  }

  function ScanEnd(bounds: Range, input: CornersInput): real
  {
    bounds.end - input.Margin()
  }

  /**
   * A scan with no position: the margin shrinks the clipping range to
   * nothing, so the loop of line 19 does not run and no tangent is asked for.
   */
  predicate ScanIsEmpty(bounds: Range, input: CornersInput)
  {
    ScanEnd(bounds, input) < ScanStart(bounds, input)
  }

  /**
   * The corner runs of the scan over the clipping range `bounds` with the
   * corner test flag. A section still open when the scan ends is dropped:
   * only the result list survives.
   */
  function ScanRuns(flag: real -> bool, bounds: Range, input: CornersInput): seq<Range>
    requires 0.0 < input.tStep
  {
    var first, last := ScanStart(bounds, input), ScanEnd(bounds, input);
    ScanFrom(flag, ScanState([], Range.Invalid()), first, StepsLeft(first, last, input.tStep), input).result
  }

  /**
   * The corner runs of a line with tangent query `tangents` and spread
   * `spread`: the scan with the tangent offsets scaled by the spread.
   */
  function CornerRuns(tangents: real -> Vector2, bounds: Range, spread: real, input: CornersInput,
                      angleTo: (Vector2, Vector2) -> real): seq<Range>
    requires 0.0 < input.tStep
  {
    ScanRuns(CornerTest(tangents, input.Offsets(spread), input, angleTo), bounds, input)
  }

  /** A scan with no position reports no run, whatever the corner test. */
  lemma EmptyScanNoRuns(flag: real -> bool, bounds: Range, input: CornersInput)
    requires 0.0 < input.tStep
    ensures ScanIsEmpty(bounds, input) <==> StepsLeft(ScanStart(bounds, input), ScanEnd(bounds, input), input.tStep) == 0
    ensures ScanIsEmpty(bounds, input) ==> ScanRuns(flag, bounds, input) == []
  {
  }

  /**
   * The runs the scan reports lie inside the scanned stretch, are valid,
   * reach the minimum length, and are further apart than the merge distance.
   */
  lemma ScanRunsOrdered(flag: real -> bool, bounds: Range, input: CornersInput)
    requires 0.0 < input.tStep
    requires -FltMax <= ScanStart(bounds, input) && ScanEnd(bounds, input) <= FltMax
    ensures var runs := ScanRuns(flag, bounds, input);
      (forall i :: 0 <= i < |runs| ==>
         runs[i].IsValid() && ScanStart(bounds, input) <= runs[i].start && runs[i].end <= ScanEnd(bounds, input) &&
         input.minNumberTestPositivesInSeries as real <= runs[i].Length()) &&
      (forall i :: 0 <= i < |runs| - 1 ==>
         runs[i].end + input.maxDistBetweenCornersToMerge as real < runs[i + 1].start)
  {
    var first, last := ScanStart(bounds, input), ScanEnd(bounds, input);
    StepsLeftWithin(first, last, input.tStep);
    ScanKeeps(flag, ScanState([], Range.Invalid()), first, first, last, StepsLeft(first, last, input.tStep), input);
  }

  /** The k-th of the positions t, t + 1, ... */
  function Position(t: real, k: nat): real
  {
    t + k as real
  }

  /** `x` is one of the n positions t, t + 1, ... */
  predicate UnitSample(x: real, t: real, n: nat)
  {
    t <= x <= t + (n - 1) as real && (x - t).Floor as real == x - t
  }

  lemma UnitSampleShift(x: real, t: real, n: nat)
    requires 0 < n && UnitSample(x, t + 1.0, n - 1)
    ensures UnitSample(x, t, n)
  {
    var y := x - (t + 1.0);
    assert x - t == y + 1.0;
    assert (y + 1.0).Floor == y.Floor + 1;
  }

  /** With unit steps, the last of the positions counted from t is not beyond last. */
  lemma UnitStepsLeftBound(t: real, last: real)
    ensures 0 < StepsLeft(t, last, 1.0) ==> t + (StepsLeft(t, last, 1.0) - 1) as real <= last
  {
    assert (last - t) / 1.0 == last - t;
  }

  /**
   * The search for the line point furthest along dir among the n positions
   * t, t + 1, ...: a position replaces the best so far only when it lies
   * strictly further, so among equals the earliest wins.
   */
  function Furthest(points: real -> Vector2, dir: Vector2, t: real, n: nat, best: real, bestVal: real): (r: (real, real))
    decreases n
  {
    if n == 0 then (best, bestVal)
    else
      var v := dir.Dot(points(t));
      if bestVal < v then Furthest(points, dir, t + 1.0, n - 1, t, v)
      else Furthest(points, dir, t + 1.0, n - 1, best, bestVal)
  }

  /**
   * Furthest returns a value no smaller than the starting value and than the
   * value at every sampled position. It returns either the starting pair, or
   * a sampled position together with its own value, which beats the
   * starting value and every value sampled before it: a later position
   * equally far does not replace an earlier one.
   */
  lemma {:induction false} FurthestIsMaximal(points: real -> Vector2, dir: Vector2, t: real, n: nat,
                                             best: real, bestVal: real)
    ensures var r := Furthest(points, dir, t, n, best, bestVal);
      bestVal <= r.1 &&
      (forall k: nat :: k < n ==> dir.Dot(points(Position(t, k))) <= r.1) &&
      (r == (best, bestVal) ||
       (bestVal < r.1 &&
        exists j: nat :: j < n && r.0 == Position(t, j) && r.1 == dir.Dot(points(r.0)) &&
          forall k: nat :: k < j ==> dir.Dot(points(Position(t, k))) < r.1))
    decreases n
  {
    if n > 0 {
      var v := dir.Dot(points(t));
      var b, bv := if bestVal < v then t else best, if bestVal < v then v else bestVal;
      var r := Furthest(points, dir, t + 1.0, n - 1, b, bv);
      assert r == Furthest(points, dir, t, n, best, bestVal);
      FurthestIsMaximal(points, dir, t + 1.0, n - 1, b, bv);
      assert Position(t, 0) == t;
      forall k: nat | 0 < k
        ensures Position(t, k) == Position(t + 1.0, k - 1)
      {
      }
      if r == (b, bv) {
        if bestVal < v {
          assert r.0 == Position(t, 0) && r.1 == dir.Dot(points(r.0));
        }
      } else {
        var t1 := t + 1.0;
        var j: nat :| j < n - 1 && r.0 == Position(t1, j) && r.1 == dir.Dot(points(r.0)) &&
          forall k: nat :: k < j ==> dir.Dot(points(Position(t1, k))) < r.1;
        assert r.0 == Position(t, j + 1);
        forall k: nat | k < j + 1
          ensures dir.Dot(points(Position(t, k))) < r.1
        {
          if 0 < k {
            assert dir.Dot(points(Position(t1, k - 1))) < r.1;
          }
        }
      }
    }
  }

  /**
   * x is the earliest of the n positions t, t + 1, ... whose line point lies
   * furthest along dir: no position lies further, and every earlier one lies
   * strictly less far.
   */
  ghost predicate FirstFurthest(points: real -> Vector2, dir: Vector2, t: real, n: nat, x: real)
  {
    exists j: nat :: j < n && x == Position(t, j) &&
      (forall k: nat :: k < n ==> dir.Dot(points(Position(t, k))) <= dir.Dot(points(x))) &&
      (forall k: nat :: k < j ==> dir.Dot(points(Position(t, k))) < dir.Dot(points(x)))
  }

  /** The earliest furthest position, when there is one, is unique. */
  lemma FirstFurthestUnique(points: real -> Vector2, dir: Vector2, t: real, n: nat, x1: real, x2: real)
    requires FirstFurthest(points, dir, t, n, x1) && FirstFurthest(points, dir, t, n, x2)
    ensures x1 == x2
  {
    var j1: nat :| j1 < n && x1 == Position(t, j1) &&
      (forall k: nat :: k < n ==> dir.Dot(points(Position(t, k))) <= dir.Dot(points(x1))) &&
      (forall k: nat :: k < j1 ==> dir.Dot(points(Position(t, k))) < dir.Dot(points(x1)));
    var j2: nat :| j2 < n && x2 == Position(t, j2) &&
      (forall k: nat :: k < n ==> dir.Dot(points(Position(t, k))) <= dir.Dot(points(x2))) &&
      (forall k: nat :: k < j2 ==> dir.Dot(points(Position(t, k))) < dir.Dot(points(x2)));
    assert dir.Dot(points(Position(t, j2))) <= dir.Dot(points(x1));
    assert dir.Dot(points(Position(t, j1))) <= dir.Dot(points(x2));
    assert !(j1 < j2);
    assert !(j2 < j1);
  }

  /** Some of the n positions t, t + 1, ... lies further along dir than v. */
  ghost predicate AnyBeyond(points: real -> Vector2, dir: Vector2, t: real, n: nat, v: real)
  {
    exists k: nat :: k < n && v < dir.Dot(points(Position(t, k)))
  }

  /**
   * What the search loop of lines 65-77 finds over the n positions from t,
   * starting from mid with the value -FLT_MAX: the earliest furthest
   * position when some position beats -FLT_MAX, and mid otherwise.
   */
  ghost predicate SearchOutcome(points: real -> Vector2, dir: Vector2, t: real, n: nat, mid: real, x: real)
  {
    if AnyBeyond(points, dir, t, n, -FltMax) then FirstFurthest(points, dir, t, n, x) else x == mid
  }

  /** Furthest from (mid, -FLT_MAX) gives the search's outcome, which is mid or one of the positions. */
  lemma FurthestOutcome(points: real -> Vector2, dir: Vector2, t: real, n: nat, mid: real)
    ensures var x := Furthest(points, dir, t, n, mid, -FltMax).0;
      SearchOutcome(points, dir, t, n, mid, x) && (x == mid || t <= x <= t + (n - 1) as real)
  {
    FurthestIsMaximal(points, dir, t, n, mid, -FltMax);
    var r := Furthest(points, dir, t, n, mid, -FltMax);
    if AnyBeyond(points, dir, t, n, -FltMax) {
      var k: nat :| k < n && -FltMax < dir.Dot(points(Position(t, k)));
      assert r != (mid, -FltMax);
      var j: nat :| j < n && r.0 == Position(t, j) && r.1 == dir.Dot(points(r.0)) &&
        forall k: nat :: k < j ==> dir.Dot(points(Position(t, k))) < r.1;
      assert FirstFurthest(points, dir, t, n, r.0);
    }
  }

  /**
   * The search inside the run c widened by pad, along dir and starting from
   * the run's mid-point with the value -FLT_MAX: the earliest position of
   * the widened run whose line point lies furthest along dir, or the
   * mid-point when no position beats -FLT_MAX.
   */
  function SearchWidened(points: real -> Vector2, dir: Vector2, c: Range, pad: real): (tBest: real)
    requires 0.0 <= pad
    ensures var w := c.Inflate(pad);
      SearchOutcome(points, dir, w.start, StepsLeft(w.start, w.end, 1.0), 0.5 * (c.start + c.end), tBest)
    ensures tBest == 0.5 * (c.start + c.end) || c.start - pad <= tBest <= c.end + pad
  {
    var w := c.Inflate(pad);
    var n := StepsLeft(w.start, w.end, 1.0);
    UnitStepsLeftBound(w.start, w.end);
    FurthestOutcome(points, dir, w.start, n, 0.5 * (c.start + c.end));
    Furthest(points, dir, w.start, n, 0.5 * (c.start + c.end), -FltMax).0
  }

  /**
   * r is a single point at the mid-point of the run c or inside c widened
   * by pad on both sides.
   */
  predicate Represents(r: Range, c: Range, pad: real)
  {
    r.start == r.end && (r.start == 0.5 * (c.start + c.end) || c.start - pad <= r.start <= c.end + pad)
  }

  /**
   * r is the point findCorners reports for the run c: the tangents at the
   * inner offsets d[1] before the run's start and d[2] after its end give
   * the search direction; when they differ by at most Epsilon the point is
   * the run's mid-point, otherwise it is the outcome of the search along
   * their difference over the run widened by pad.
   */
  ghost predicate RepresentsCorner(tangents: real -> Vector2, points: real -> Vector2, c: Range, d: seq<real>,
                                   pad: real, r: Range)
    requires |d| == 4 && 0.0 <= pad
  {
    var dir := tangents(c.start + d[1]).Minus(tangents(c.end + d[2]));
    var mid := 0.5 * (c.start + c.end);
    var w := c.Inflate(pad);
    r.start == r.end &&
    (dir.Norm2() <= Epsilon2 ==> r.start == mid) &&
    (Epsilon2 < dir.Norm2() ==> SearchOutcome(points, dir, w.start, StepsLeft(w.start, w.end, 1.0), mid, r.start))
  }

  /**
   * The single point that represents the corner run c: the mid-point of the
   * run, or, when the tangents at the inner offsets d[1] before its start and
   * d[2] after its end differ by more than Epsilon, the whole-numbered offset
   * from the start of the run widened by pad whose line point lies furthest
   * along their difference.
   */
  function ReduceCorner(tangents: real -> Vector2, points: real -> Vector2, c: Range, d: seq<real>,
                        pad: real): (r: Range)
    requires |d| == 4 && 0.0 <= pad
    ensures RepresentsCorner(tangents, points, c, d, pad, r)
    ensures Represents(r, c, pad)
  {
    var dir := tangents(c.start + d[1]).Minus(tangents(c.end + d[2]));
    var mid := 0.5 * (c.start + c.end);
    if dir.Norm2() > Epsilon2 then
      var tBest := SearchWidened(points, dir, c, pad);
      Range(tBest, tBest)
    else
      Range(mid, mid)
  }

  /** Each run replaced by its representative point. */
  function ReduceAll(tangents: real -> Vector2, points: real -> Vector2, runs: seq<Range>, d: seq<real>,
                     pad: real): (corners: seq<Range>)
    requires |d| == 4 && 0.0 <= pad
    ensures |corners| == |runs|
    ensures forall i :: 0 <= i < |runs| ==> corners[i] == ReduceCorner(tangents, points, runs[i], d, pad)
  {
    if runs == [] then []
    else [ReduceCorner(tangents, points, runs[0], d, pad)] + ReduceAll(tangents, points, runs[1..], d, pad)
  }

  /** findCorners: the corner runs of the scan, each reduced to its representative point. */
  function Corners(tangents: real -> Vector2, points: real -> Vector2, bounds: Range, spread: real,
                   input: CornersInput, angleTo: (Vector2, Vector2) -> real): (corners: seq<Range>)
    requires 0.0 < input.tStep && 0.0 <= input.innerInterMeasurementFactor && 0.0 <= spread
  {
    ReduceAll(tangents, points, CornerRuns(tangents, bounds, spread, input, angleTo), input.Offsets(spread),
              input.SearchPadding(spread))
  }

  /**
   * findCorners reports one single-point range per corner run of the scan,
   * in the order of the runs. Each point is the run's mid-point when the
   * search direction is at most Epsilon long, and otherwise the earliest
   * position of the padded run furthest along that direction (or the
   * mid-point when none beats -FLT_MAX). So it is the mid-point or lies in
   * the run widened by the search padding, inside the scanned stretch
   * widened by the same padding.
   */
  lemma CornersFromRuns(tangents: real -> Vector2, points: real -> Vector2, bounds: Range, spread: real,
                        input: CornersInput, angleTo: (Vector2, Vector2) -> real)
    requires 0.0 < input.tStep && 0.0 <= input.innerInterMeasurementFactor && 0.0 <= spread
    requires -FltMax <= ScanStart(bounds, input) && ScanEnd(bounds, input) <= FltMax
    ensures var runs := CornerRuns(tangents, bounds, spread, input, angleTo);
      var corners := Corners(tangents, points, bounds, spread, input, angleTo);
      var pad := input.SearchPadding(spread);
      |corners| == |runs| &&
      forall i :: 0 <= i < |runs| ==>
        RepresentsCorner(tangents, points, runs[i], input.Offsets(spread), pad, corners[i]) &&
        (corners[i].start == 0.5 * (runs[i].start + runs[i].end) ||
         runs[i].start - pad <= corners[i].start <= runs[i].end + pad) &&
        ScanStart(bounds, input) - pad <= corners[i].start <= ScanEnd(bounds, input) + pad
  {
    ScanRunsOrdered(CornerTest(tangents, input.Offsets(spread), input, angleTo), bounds, input);
  }

  /** The padding the corner search needs inside the keyed range around the run c. */
  ghost predicate SearchInside(line: FreeformLine, c: Range, input: CornersInput)
    reads line
    requires 0 < |line.points|
  {
    var pad := input.SearchPadding(line.halfSmoothingSpread);
    line.points[0].t <= c.start - pad && c.end + pad < line.points[|line.points| - 1].t
  }

  /** All runs padded inside the keyed range. */
  ghost predicate AllSearchInside(line: FreeformLine, runs: seq<Range>, input: CornersInput)
    reads line
    requires 0 < |line.points|
  {
    forall i :: 0 <= i < |runs| ==> SearchInside(line, runs[i], input)
  }

  /**
   * The scanned stretch, widened by the search padding, lies inside the keyed
   * range (the sentinel keys of a stroke at -ALot and ALot make this hold for
   * every realistic line); and the scan bounds are floats.
   */
  ghost predicate ScanInside(line: FreeformLine, input: CornersInput)
    reads line
    requires 0 < |line.points|
  {
    var first, last := ScanStart(line.clippingRange, input), ScanEnd(line.clippingRange, input);
    var pad := input.SearchPadding(line.halfSmoothingSpread);
    -FltMax <= first && last <= FltMax &&
    (first <= last ==> line.points[0].t <= first - pad && last + pad < line.points[|line.points| - 1].t)
  }

  /** line.getPointAt(t), the value of the line's point query at t. */
  method QueryPoint(line: FreeformLine, t: real, ghost points: real -> Vector2) returns (p: Vector2)
    requires line.Valid() && 0 < |line.points| && PointQuery(line, points)
    requires line.points[0].t <= t < line.points[|line.points| - 1].t
    ensures p == points(t)
  {
    p := line.GetPointAt(t);
  }

  /** The search loop of lines 65-77 over the widened run c, from the mid-point tBest of the original run. */
  method SearchFurthest(line: FreeformLine, dir: Vector2, c: Range, tMid: real, ghost points: real -> Vector2)
    returns (tBest: real)
    requires line.Valid() && 0 < |line.points| && PointQuery(line, points)
    requires line.points[0].t <= c.start && c.end < line.points[|line.points| - 1].t
    ensures tBest == Furthest(points, dir, c.start, StepsLeft(c.start, c.end, 1.0), tMid, -FltMax).0
  {
    tBest := tMid;
    var furthestPosAlongDir := -FltMax;
    var t := c.start;
    ghost var n := StepsLeft(c.start, c.end, 1.0);
    while t <= c.end
      invariant n == StepsLeft(t, c.end, 1.0) && c.start <= t
      invariant Furthest(points, dir, c.start, StepsLeft(c.start, c.end, 1.0), tMid, -FltMax) ==
                Furthest(points, dir, t, n, tBest, furthestPosAlongDir)
      decreases n
    {
      var pointOnLine := QueryPoint(line, t, points);
      var posAlongDir := dir.Dot(pointOnLine);
      if furthestPosAlongDir < posAlongDir {
        tBest := t;
        furthestPosAlongDir := posAlongDir;
      }
      StepsLeftDecreases(t, c.end, 1.0);
      t := t + 1.0;
      n := n - 1;
    }
  }

  /** The difference of the tangents just before and just after the run c (lines 58-60). */
  method SearchDirection(line: FreeformLine, c: Range, d: seq<real>, sqrt: real -> real, ghost tangents: real -> Vector2)
    returns (searchDir: Vector2)
    requires IsSqrt(sqrt) && ReadyForTangents(line) && TangentQuery(line, tangents, sqrt) && |d| == 4
    ensures searchDir == tangents(c.start + d[1]).Minus(tangents(c.end + d[2]))
  {
    var tangent0 := QueryTangent(line, c.start + d[1], sqrt, tangents);
    var tangent1 := QueryTangent(line, c.end + d[2], sqrt, tangents);
    searchDir := tangent0.Minus(tangent1);
  }

  /** The reduction of lines 58-80 for one run. */
  method ReduceRun(line: FreeformLine, c0: Range, d: seq<real>, input: CornersInput, sqrt: real -> real,
                   ghost tangents: real -> Vector2, ghost points: real -> Vector2) returns (r: Range)
    requires IsSqrt(sqrt) && ReadyForTangents(line) && TangentQuery(line, tangents, sqrt) && PointQuery(line, points)
    requires 0.0 <= input.innerInterMeasurementFactor && SearchInside(line, c0, input) && |d| == 4
    ensures r == ReduceCorner(tangents, points, c0, d, input.SearchPadding(line.halfSmoothingSpread))
  {
    var c := c0;
    var searchDir := SearchDirection(line, c, d, sqrt, tangents);
    var tBest := 0.5 * (c.start + c.end);
    if searchDir.Norm2() > Epsilon2 {
      c := c.Inflate(input.SearchPadding(line.halfSmoothingSpread));
      tBest := SearchFurthest(line, searchDir, c, tBest, points);
      assert tBest == SearchWidened(points, searchDir, c0, input.SearchPadding(line.halfSmoothingSpread));
    }
    r := Range(tBest, tBest);
  }

  /**
   * One position of the scan's state machine (lines 27-52): a positive
   * sample grows the running section; a negative one keeps a valid section
   * that is long enough, merged into the last run when it starts close
   * enough after it, and invalidates the section.
   */
  method UpdateSection(result: seq<Range>, section: Range, t: real, positive: bool, input: CornersInput)
    returns (result': seq<Range>, section': Range)
    ensures ScanState(result', section') == ScanStep(ScanState(result, section), t, positive, input)
  {
    result', section' := result, section;
    if positive {
      section' := section'.Include(t);
    } else if section'.IsValid() && section'.Length() >= input.minNumberTestPositivesInSeries as real {
      if |result'| > 0 && result'[|result'| - 1].end + input.maxDistBetweenCornersToMerge as real >= section'.start {
        result' := result'[|result'| - 1 := result'[|result'| - 1].(end := section'.end)];
      } else {
        result' := result' + [section'];
      }
      section' := Range.Invalid();
    } else {
      section' := Range.Invalid();
    }
  }

  /**
   * The scan loop of findCorners (lines 19-53): the runs found so far are
   * kept in `result`, the running section in `cornerSection`.
   */
  method ScanCorners(line: FreeformLine, d: seq<real>, input: CornersInput, angleTo: (Vector2, Vector2) -> real,
                     sqrt: real -> real, ghost tangents: real -> Vector2, ghost flag: real -> bool)
    returns (result: seq<Range>)
    requires IsSqrt(sqrt)
    requires ScanIsEmpty(line.clippingRange, input) || (ReadyForTangents(line) && TangentQuery(line, tangents, sqrt))
    requires 0.0 < input.tStep && |d| == 4 && IsCornerTest(flag, tangents, d, input, angleTo)
    ensures result == ScanRuns(flag, line.clippingRange, input)
  {
    var tBounds := line.GetBounds();
    var cornerSection := Range.Invalid();
    result := [];
    var margin := Ceil(input.outerInterMeasurementFactor + 0.5 * input.innerInterMeasurementFactor);
    var first, last := tBounds.start + margin, tBounds.end - margin;
    ghost var n := StepsLeft(first, last, input.tStep);
    ghost var goal := ScanFrom(flag, ScanState([], Range.Invalid()), first, n, input);
    assert goal.result == ScanRuns(flag, line.clippingRange, input);
    var t := first;
    while t <= last
      invariant n == StepsLeft(t, last, input.tStep)
      invariant ScanIsEmpty(line.clippingRange, input) ==> n == 0
      invariant goal == ScanFrom(flag, ScanState(result, cornerSection), t, n, input)
      decreases n
    {
      ghost var st := ScanState(result, cornerSection);
      result, cornerSection := ScanPosition(line, t, d, input, angleTo, sqrt, tangents, flag, result, cornerSection);
      ScanAdvance(flag, st, ScanState(result, cornerSection), t, last, n, input);
      t := t + input.tStep;
      n := n - 1;
    }
  }

  /** One pass of the scan loop: the corner test at t, then the update of the runs and the running section. */
  method ScanPosition(line: FreeformLine, t: real, d: seq<real>, input: CornersInput, angleTo: (Vector2, Vector2) -> real,
                      sqrt: real -> real, ghost tangents: real -> Vector2, ghost flag: real -> bool,
                      result: seq<Range>, section: Range)
    returns (result': seq<Range>, section': Range)
    requires IsSqrt(sqrt) && ReadyForTangents(line) && TangentQuery(line, tangents, sqrt)
    requires |d| == 4 && IsCornerTest(flag, tangents, d, input, angleTo)
    ensures ScanState(result', section') == ScanStep(ScanState(result, section), t, flag(t), input)
  {
    var positive := TestCorner(line, t, d, input, angleTo, sqrt, tangents);
    result', section' := UpdateSection(result, section, t, positive, input);
  }

  /**
   * findCorners: the scan, then the reduction loop (lines 56-81) that
   * replaces each run by its representative point in place.
   */
  method FindCorners(line: FreeformLine, input: CornersInput, angleTo: (Vector2, Vector2) -> real,
                     sqrt: real -> real, ghost tangents: real -> Vector2, ghost points: real -> Vector2)
    returns (result: seq<Range>)
    requires IsSqrt(sqrt) && 0.0 < input.tStep && 0.0 <= input.innerInterMeasurementFactor &&
             Epsilon < line.halfSmoothingSpread
    requires -FltMax <= ScanStart(line.clippingRange, input) && ScanEnd(line.clippingRange, input) <= FltMax
    requires ScanIsEmpty(line.clippingRange, input) ||
             (ReadyForTangents(line) && TangentQuery(line, tangents, sqrt) && PointQuery(line, points) &&
              ScanInside(line, input))
    ensures result == Corners(tangents, points, line.clippingRange, line.halfSmoothingSpread, input, angleTo)
    ensures ScanIsEmpty(line.clippingRange, input) ==> result == []
  {
    var d := input.Offsets(line.halfSmoothingSpread);
    result := ScanCorners(line, d, input, angleTo, sqrt, tangents, CornerTest(tangents, d, input, angleTo));
    ghost var runs := result;
    ScanRunsOrdered(CornerTest(tangents, d, input, angleTo), line.clippingRange, input);
    EmptyScanNoRuns(CornerTest(tangents, d, input, angleTo), line.clippingRange, input);
    assert !ScanIsEmpty(line.clippingRange, input) ==> AllSearchInside(line, runs, input);
    for i := 0 to |result|
      invariant |result| == |runs| && (ScanIsEmpty(line.clippingRange, input) ==> runs == [])
      invariant forall j :: 0 <= j < i ==>
        result[j] == ReduceCorner(tangents, points, runs[j], d, input.SearchPadding(line.halfSmoothingSpread))
      invariant forall j :: i <= j < |result| ==> result[j] == runs[j]
    {
      var c := ReduceRun(line, result[i], d, input, sqrt, tangents, points);
      result := result[i := c];
    }
  }

  // ---------------------------------------------------------------------
  // Sampling a line section
  // ---------------------------------------------------------------------

  /** The number of sampling positions t, t + step, ... strictly before end. */
  function SamplesBefore(t: real, end: real, step: real): (n: nat)
    requires 0.0 < step
    ensures n == 0 <==> end <= t
  {
    if t < end then
      QuotientSign(t - end, step);
      (-((t - end) / step).Floor) as nat
    else
      0
  }

  /** One step forward leaves one sampling position fewer. */
  lemma SamplesBeforeDecreases(t: real, end: real, step: real)
    requires 0.0 < step && t < end
    ensures SamplesBefore(t + step, end, step) == SamplesBefore(t, end, step) - 1
  {
    var x := (t - end) / step;
    QuotientShift((t + step) - end, step);
    assert (t + step - end) / step == x + 1.0;
    assert (x + 1.0).Floor == x.Floor + 1;
    if end <= t + step {
      QuotientNonNegative(t + step - end, step);
      QuotientSign(t - end, step);
    }
  }

  lemma QuotientNonNegative(a: real, step: real)
    requires 0.0 < step && 0.0 <= a
    ensures 0.0 <= a / step
  {
    var q := a / step;
    assert q * step == a;
    if q < 0.0 {
      MulLess(step, q, 0.0);
    }
  }

  /** The k-th of the positions t, t + step, ... */
  function SamplePosition(t: real, step: real, k: nat): real
    decreases k
  {
    if k == 0 then t else SamplePosition(t + step, step, k - 1)
  }

  /** The sum of dist(points(t))² over the n positions t, t + step, ... */
  function SumOfSquares(points: real -> Vector2, dist: Vector2 -> real, t: real, step: real, n: nat): real
    decreases n
  {
    if n == 0 then 0.0
    else dist(points(t)) * dist(points(t)) + SumOfSquares(points, dist, t + step, step, n - 1)
  }

  /** The first term of a sum of squares, with the value e at the first position named. */
  lemma SumOfSquaresUnfold(points: real -> Vector2, dist: Vector2 -> real, t: real, step: real, n: nat, e: real)
    requires 0 < n && e == dist(points(t))
    ensures SumOfSquares(points, dist, t, step, n) == e * e + SumOfSquares(points, dist, t + step, step, n - 1)
  {
  }

  /**
   * A sum of squares is never negative, and it is at most n * bound when no
   * square exceeds bound.
   */
  lemma {:induction false} SumOfSquaresBounds(points: real -> Vector2, dist: Vector2 -> real, t: real, step: real,
                                              n: nat, bound: real)
    ensures 0.0 <= SumOfSquares(points, dist, t, step, n)
    ensures (forall k: nat {:trigger SamplePosition(t, step, k)} :: k < n ==>
               dist(points(SamplePosition(t, step, k))) * dist(points(SamplePosition(t, step, k))) <= bound)
            ==> SumOfSquares(points, dist, t, step, n) <= n as real * bound
    decreases n
  {
    if 0 < n {
      var e := dist(points(t));
      Square(e);
      SumOfSquaresBounds(points, dist, t + step, step, n - 1, bound);
      if forall k: nat {:trigger SamplePosition(t, step, k)} :: k < n ==>
           dist(points(SamplePosition(t, step, k))) * dist(points(SamplePosition(t, step, k))) <= bound
      {
        assert SamplePosition(t, step, 0) == t;
        forall k: nat {:trigger SamplePosition(t + step, step, k)} | k < n - 1
          ensures dist(points(SamplePosition(t + step, step, k))) * dist(points(SamplePosition(t + step, step, k))) <= bound
        {
          assert SamplePosition(t, step, k + 1) == SamplePosition(t + step, step, k);
        }
      }
    }
  }

  /**
   * calcMeanSquaredError: the mean of the squared distances of the sampled
   * line points; the count starts at FLT_MIN, so no sample leaves 0 / FLT_MIN.
   */
  function MeanSquaredError(points: real -> Vector2, dist: Vector2 -> real, tStart: real, tStep: real, tEnd: real): real
    requires 0.0 < tStep
  {
    var n := SamplesBefore(tStart, tEnd, tStep);
    SumOfSquares(points, dist, tStart, tStep, n) / (FltMin + n as real)
  }

  /**
   * The mean squared error is non-negative; it is 0 when no sample is taken,
   * and at most bound when no sampled square exceeds bound.
   */
  lemma MeanSquaredErrorBounds(points: real -> Vector2, dist: Vector2 -> real, tStart: real, tStep: real, tEnd: real,
                               bound: real)
    requires 0.0 < tStep
    ensures 0.0 <= MeanSquaredError(points, dist, tStart, tStep, tEnd)
    ensures tEnd <= tStart ==> MeanSquaredError(points, dist, tStart, tStep, tEnd) == 0.0
    ensures 0.0 <= bound &&
            (forall k: nat {:trigger SamplePosition(tStart, tStep, k)} ::
               k < SamplesBefore(tStart, tEnd, tStep) ==>
                 dist(points(SamplePosition(tStart, tStep, k))) * dist(points(SamplePosition(tStart, tStep, k))) <= bound)
            ==> MeanSquaredError(points, dist, tStart, tStep, tEnd) <= bound
  {
    var n := SamplesBefore(tStart, tEnd, tStep);
    var sum := SumOfSquares(points, dist, tStart, tStep, n);
    SumOfSquaresBounds(points, dist, tStart, tStep, n, bound);
    QuotientNonNegative(sum, FltMin + n as real);
    if 0.0 <= bound && sum <= n as real * bound {
      MeanBelowBound(sum, n as real, bound);
    }
  }

  lemma MeanBelowBound(sum: real, n: real, bound: real)
    requires 0.0 <= n && 0.0 <= bound && sum <= n * bound
    ensures sum / (FltMin + n) <= bound
  {
    var den := FltMin + n;
    var q := sum / den;
    assert q * den == sum;
    MulLeq(bound, n, den);
    if bound < q {
      MulLess(den, bound, q);
      assert false;
    }
  }

  /** The signed distance to l, as a function of the point. */
  function LineDist(l: Line): Vector2 -> real
  {
    p => l.SignedDistTo(p)
  }

  /**
   * calcMeanSquaredError (lines 105-118): the loop that samples the line from
   * tStart by tStep up to tEnd. The template's fitting shape is given by its
   * signed distance function.
   */
  method CalcMeanSquaredError(line: FreeformLine, tStart: real, tStep: real, tEnd: real, signedDistTo: Vector2 -> real,
                              ghost points: real -> Vector2)
    returns (meanError2: real)
    requires line.Valid() && 0 < |line.points| && PointQuery(line, points) && 0.0 < tStep
    requires tStart < tEnd ==> line.points[0].t <= tStart && tEnd <= line.points[|line.points| - 1].t
    ensures meanError2 == MeanSquaredError(points, signedDistTo, tStart, tStep, tEnd)
  {
    ghost var dist := signedDistTo;
    ghost var n := SamplesBefore(tStart, tEnd, tStep);
    ghost var k := n;
    var numMeasurements := FltMin;
    var sumError2 := 0.0;
    var tCurr := tStart;
    while tCurr < tEnd
      invariant tStart <= tCurr && k <= n
      invariant k == SamplesBefore(tCurr, tEnd, tStep)
      invariant numMeasurements == FltMin + (n - k) as real
      invariant SumOfSquares(points, dist, tStart, tStep, n) == sumError2 + SumOfSquares(points, dist, tCurr, tStep, k)
      decreases k
    {
      var pointOnLine := QueryPoint(line, tCurr, points);
      var signedDist := signedDistTo(pointOnLine);
      SumOfSquaresUnfold(points, dist, tCurr, tStep, k, signedDist);
      sumError2 := sumError2 + signedDist * signedDist;
      SamplesBeforeDecreases(tCurr, tEnd, tStep);
      tCurr := tCurr + tStep;
      numMeasurements := numMeasurements + 1.0;
      k := k - 1;
    }
    meanError2 := sumError2 / numMeasurements;
  }

  // ---------------------------------------------------------------------
  // Segments
  // ---------------------------------------------------------------------

  /** The test line of a section: the line through the line's points at both ends. */
  function ChordLine(points: real -> Vector2, bounds: Range, sqrt: real -> real): (l: Line)
    requires IsSqrt(sqrt)
    ensures l.SignedDistTo(points(bounds.start)) == 0.0 && l.SignedDistTo(points(bounds.end)) == 0.0
  {
    Line.Between(points(bounds.start), points(bounds.end), sqrt)
  }

  /** The distance between the line's points at both ends of a section. */
  function ChordLength(points: real -> Vector2, bounds: Range, sqrt: real -> real): (dist: real)
    requires IsSqrt(sqrt)
    ensures 0.0 <= dist
  {
    points(bounds.start).DistTo(points(bounds.end), sqrt)
  }

  /** The mean squared distance of the section's samples from its test line. */
  function SegmentError(points: real -> Vector2, bounds: Range, tStep: real, sqrt: real -> real): real
    requires IsSqrt(sqrt) && 0.0 < tStep
  {
    MeanSquaredError(points, LineDist(ChordLine(points, bounds, sqrt)), bounds.start, tStep, bounds.end)
  }

  /**
   * The acceptance test of isSegment: the mean squared error may be
   * maxMeanErrorAtReferenceLength² at the reference length and scales with the
   * chord's length.
   */
  predicate SegmentAccepted(meanError2: real, dist: real, input: SegmentsInput)
    requires input.referenceSegmentLength != 0.0
  {
    meanError2 <= input.maxMeanErrorAtReferenceLength * input.maxMeanErrorAtReferenceLength
                  * (dist / input.referenceSegmentLength)
  }

  /** A smaller error on a longer chord is accepted whenever the larger error on the shorter chord is. */
  lemma SegmentAcceptanceMonotone(e1: real, e2: real, dist1: real, dist2: real, input: SegmentsInput)
    requires 0.0 < input.referenceSegmentLength && e1 <= e2 && dist1 <= dist2
    requires SegmentAccepted(e2, dist1, input)
    ensures SegmentAccepted(e1, dist2, input)
  {
    var m := input.maxMeanErrorAtReferenceLength;
    var r := input.referenceSegmentLength;
    Square(m);
    assert dist1 / r <= dist2 / r by {
      QuotientNonNegative(dist2 - dist1, r);
      assert (dist2 - dist1) / r == dist2 / r - dist1 / r;
    }
    MulLeq(m * m, dist1 / r, dist2 / r);
  }

  /** A section all of whose samples lie on its test line has error 0 and is accepted. */
  lemma StraightSectionAccepted(points: real -> Vector2, bounds: Range, input: SegmentsInput, sqrt: real -> real)
    requires IsSqrt(sqrt) && 0.0 < input.tStep && 0.0 < input.referenceSegmentLength
    requires forall k: nat {:trigger SamplePosition(bounds.start, input.tStep, k)} ::
               k < SamplesBefore(bounds.start, bounds.end, input.tStep) ==>
                 ChordLine(points, bounds, sqrt).SignedDistTo(points(SamplePosition(bounds.start, input.tStep, k))) == 0.0
    ensures SegmentError(points, bounds, input.tStep, sqrt) == 0.0
    ensures SegmentAccepted(SegmentError(points, bounds, input.tStep, sqrt), ChordLength(points, bounds, sqrt), input)
  {
    var l := ChordLine(points, bounds, sqrt);
    MeanSquaredErrorBounds(points, LineDist(l), bounds.start, input.tStep, bounds.end, 0.0);
    var m := input.maxMeanErrorAtReferenceLength;
    Square(m);
    QuotientNonNegative(ChordLength(points, bounds, sqrt), input.referenceSegmentLength);
    MulLeq(m * m, 0.0, ChordLength(points, bounds, sqrt) / input.referenceSegmentLength);
  }

  /**
   * When the section's end points coincide, the test line is the zero line
   * 0 = 0, every sample lies on it and the chord is 0: the section is accepted
   * as a segment whatever the line does in between (a closed loop, an
   * out-and-back stroke).
   */
  lemma DegenerateChordAccepted(points: real -> Vector2, bounds: Range, input: SegmentsInput, sqrt: real -> real)
    requires IsSqrt(sqrt) && 0.0 < input.tStep && 0.0 < input.referenceSegmentLength
    requires points(bounds.start) == points(bounds.end)
    ensures ChordLine(points, bounds, sqrt) == Line(0.0, 0.0, 0.0)
    ensures SegmentError(points, bounds, input.tStep, sqrt) == 0.0
    ensures SegmentAccepted(SegmentError(points, bounds, input.tStep, sqrt), ChordLength(points, bounds, sqrt), input)
  {
    forall k: nat {:trigger SamplePosition(bounds.start, input.tStep, k)}
      ensures ChordLine(points, bounds, sqrt).SignedDistTo(points(SamplePosition(bounds.start, input.tStep, k))) == 0.0
    {
      ZeroLineDist(points(SamplePosition(bounds.start, input.tStep, k)));
    }
    StraightSectionAccepted(points, bounds, input, sqrt);
  }

  lemma ZeroLineDist(q: Vector2)
    ensures Line(0.0, 0.0, 0.0).SignedDistTo(q) == 0.0
  {
  }

  /**
   * isSegment (lines 84-94): the mean squared error of the section against its
   * test line, and whether it passes the acceptance test. Its assertion that
   * the section lies in [0, length()] is a debug check and not required here;
   * getPointAt's own demand is: both end positions inside the keyed range.
   */
  method IsSegment(line: FreeformLine, segmentBounds: Range, input: SegmentsInput, sqrt: real -> real,
                   ghost points: real -> Vector2)
    returns (accepted: bool, meanError2: real)
    requires IsSqrt(sqrt) && line.Valid() && IsStroke(line.points, line.cachedLength) && PointQuery(line, points)
    requires -ALot <= segmentBounds.start < ALot && -ALot <= segmentBounds.end < ALot
    requires 0.0 < input.tStep && input.referenceSegmentLength != 0.0
    ensures meanError2 == SegmentError(points, segmentBounds, input.tStep, sqrt)
    ensures accepted == SegmentAccepted(meanError2, ChordLength(points, segmentBounds, sqrt), input)
  {
    var p0 := QueryPoint(line, segmentBounds.start, points);
    var p1 := QueryPoint(line, segmentBounds.end, points);
    var testFitLine := Line.Between(p0, p1, sqrt);
    var dist := p0.DistTo(p1, sqrt);
    meanError2 := CalcMeanSquaredError(line, segmentBounds.start, input.tStep, segmentBounds.end,
                                       LineDist(testFitLine), points);
    var limitMultiplier := dist / input.referenceSegmentLength;
    accepted := meanError2 <= input.maxMeanErrorAtReferenceLength * input.maxMeanErrorAtReferenceLength * limitMultiplier;
  }

  // ---------------------------------------------------------------------
  // Distance to a biarc's mid-point
  // ---------------------------------------------------------------------

  /** The single-arc case of minDistToBiarcMidPoint: d1 == 0 and a circular first shape. */
  predicate SingleArc(b: Biarc)
  {
    b.param.d1 == 0.0 && b.shape0.CircleShape?
  }

  /**
   * The point minDistToBiarcMidPoint measures against: the biarc's mid-point,
   * except for a single arc, whose mid-point sits next to point1: there it is
   * moved onto the arc's circle, in the direction from the centre to the
   * chord's middle, on the side the start tangent points to.
   */
  function MidPointTarget(b: Biarc, sqrt: real -> real): Vector2
    requires IsSqrt(sqrt)
  {
    if SingleArc(b) then
      var centre := b.shape0.circle.Center();
      if 0.0 <= b.point1.Minus(b.point0).Dot(b.tangent0) then centre.Plus(SingleArcOffset(b, sqrt))
      else centre.Minus(SingleArcOffset(b, sqrt))
    else
      b.MidPoint()
  }

  /** The direction from the circle's centre to the chord's middle, scaled to the radius. */
  function SingleArcOffset(b: Biarc, sqrt: real -> real): Vector2
    requires IsSqrt(sqrt) && SingleArc(b)
  {
    var c := b.shape0.circle;
    b.point0.Plus(b.point1).Minus(c.Center().Times(2.0)).Normalized(sqrt).Times(c.radius)
  }

  /**
   * For a single arc the target is no further from the circle's centre than
   * the radius, and within 1e-4 of it relative to radius² (so on the circle
   * to float precision) unless the chord's middle is the centre itself.
   */
  lemma MidPointTargetOnCircle(b: Biarc, sqrt: real -> real)
    requires IsSqrt(sqrt) && SingleArc(b)
    ensures var c := b.shape0.circle;
            MidPointTarget(b, sqrt).Minus(c.Center()).Norm2() <= c.radius * c.radius
    ensures var c := b.shape0.circle;
            Epsilon2 < b.point0.Plus(b.point1).Minus(c.Center().Times(2.0)).Norm2() ==>
              (1.0 - 0.0001) * (c.radius * c.radius) <= MidPointTarget(b, sqrt).Minus(c.Center()).Norm2()
  {
    TargetOffset(b, sqrt);
    OffsetBounds(b.point0.Plus(b.point1).Minus(b.shape0.circle.Center().Times(2.0)), b.shape0.circle.radius, sqrt);
  }

  /** The target lies at SingleArcOffset from the centre, one way or the other. */
  lemma TargetOffset(b: Biarc, sqrt: real -> real)
    requires IsSqrt(sqrt) && SingleArc(b)
    ensures MidPointTarget(b, sqrt).Minus(b.shape0.circle.Center()).Norm2() == SingleArcOffset(b, sqrt).Norm2()
  {
    var centre := b.shape0.circle.Center();
    var offset := SingleArcOffset(b, sqrt);
    if 0.0 <= b.point1.Minus(b.point0).Dot(b.tangent0) {
      assert centre.Plus(offset).Minus(centre) == offset;
    } else {
      assert centre.Minus(offset).Minus(centre) == offset.Neg();
      assert offset.Neg().Norm2() == offset.Norm2() by { Norm2Def(offset); Norm2Def(offset.Neg()); }
    }
  }

  /** normalized() scaled by r has length at most |r|, and nearly |r| for a vector longer than Epsilon. */
  lemma OffsetBounds(v: Vector2, r: real, sqrt: real -> real)
    requires IsSqrt(sqrt)
    ensures v.Normalized(sqrt).Times(r).Norm2() <= r * r
    ensures Epsilon2 < v.Norm2() ==> (1.0 - 0.0001) * (r * r) <= v.Normalized(sqrt).Times(r).Norm2()
  {
    var u := v.Normalized(sqrt);
    Norm2Times(u, r);
    NormalizedFacts(v, sqrt);
    if Epsilon2 < v.Norm2() {
      NormalizedIsNearlyUnit(v, sqrt);
    }
    Square(r);
    assert u.Times(r).Norm2() == u.Norm2() * (r * r);
    ScaledSquareBounds(u.Norm2(), r * r, u.Times(r).Norm2());
  }

  lemma ScaledSquareBounds(n2: real, r2: real, x: real)
    requires n2 <= 1.0 && 0.0 <= r2 && x == n2 * r2
    ensures x <= r2
    ensures 1.0 - 0.0001 <= n2 ==> (1.0 - 0.0001) * r2 <= x
  {
    MulLeq(r2, n2, 1.0);
    if 1.0 - 0.0001 <= n2 {
      MulLeq(r2, 0.0, n2 - 0.9999);
      assert x - 0.9999 * r2 == r2 * (n2 - 0.9999);
    }
  }

  /** The squared distance of the line's point at t from the target. */
  function Dist2(points: real -> Vector2, target: Vector2, t: real): real
  {
    points(t).Minus(target).Norm2()
  }

  /**
   * The search for the smallest squared distance to the target over the n
   * positions t, t + step, ..., starting from best.
   */
  function Nearest2(points: real -> Vector2, target: Vector2, t: real, step: real, n: nat, best: real): real
    decreases n
  {
    if n == 0 then best
    else
      var dist2 := Dist2(points, target, t);
      Nearest2(points, target, t + step, step, n - 1, if dist2 < best then dist2 else best)
  }

  /**
   * The search ends with a value no larger than the start value and than any
   * sample, and that value is the start value or one of the samples.
   */
  lemma NearestIsMinimal(points: real -> Vector2, target: Vector2, t: real, step: real, n: nat, best: real)
    ensures Nearest2(points, target, t, step, n, best) <= best
    ensures forall k: nat {:trigger SamplePosition(t, step, k)} :: k < n ==>
              Nearest2(points, target, t, step, n, best) <= Dist2(points, target, SamplePosition(t, step, k))
    ensures Nearest2(points, target, t, step, n, best) == best ||
            exists k: nat {:trigger SamplePosition(t, step, k)} :: k < n &&
              Nearest2(points, target, t, step, n, best) == Dist2(points, target, SamplePosition(t, step, k))
  {
    NearestIsLower(points, target, t, step, n, best);
    NearestIsTaken(points, target, t, step, n, best);
  }

  lemma {:induction false} NearestIsLower(points: real -> Vector2, target: Vector2, t: real, step: real, n: nat,
                                          best: real)
    ensures Nearest2(points, target, t, step, n, best) <= best
    ensures forall k: nat {:trigger SamplePosition(t, step, k)} :: k < n ==>
              Nearest2(points, target, t, step, n, best) <= Dist2(points, target, SamplePosition(t, step, k))
    decreases n
  {
    if 0 < n {
      var dist2 := Dist2(points, target, t);
      var best' := if dist2 < best then dist2 else best;
      NearestIsLower(points, target, t + step, step, n - 1, best');
      assert SamplePosition(t, step, 0) == t;
    }
  }

  lemma {:induction false} NearestIsTaken(points: real -> Vector2, target: Vector2, t: real, step: real, n: nat,
                                          best: real)
    ensures Nearest2(points, target, t, step, n, best) == best ||
            exists k: nat {:trigger SamplePosition(t, step, k)} :: k < n &&
              Nearest2(points, target, t, step, n, best) == Dist2(points, target, SamplePosition(t, step, k))
    decreases n
  {
    if 0 < n {
      var dist2 := Dist2(points, target, t);
      var best' := if dist2 < best then dist2 else best;
      var r := Nearest2(points, target, t + step, step, n - 1, best');
      assert r == Nearest2(points, target, t, step, n, best);
      NearestIsTaken(points, target, t + step, step, n - 1, best');
      if r != best {
        if r == best' {
          assert SamplePosition(t, step, 0) == t;
          assert Nearest2(points, target, t, step, n, best) == Dist2(points, target, SamplePosition(t, step, 0));
        } else {
          var k: nat :| k < n - 1 && r == Dist2(points, target, SamplePosition(t + step, step, k));
          assert r == Dist2(points, target, SamplePosition(t, step, k + 1));
        }
      }
    }
  }

  /** minDistToBiarcMidPoint: the root of the smallest sampled squared distance, FLT_MAX when none is taken. */
  function MinDistToMidPoint(points: real -> Vector2, b: Biarc, tStart: real, tStep: real, tEnd: real,
                             sqrt: real -> real): real
    requires IsSqrt(sqrt) && 0.0 < tStep
  {
    sqrt(Nearest2(points, MidPointTarget(b, sqrt), tStart, tStep, SamplesBefore(tStart, tEnd, tStep), FltMax))
  }

  /**
   * The result is a distance no larger than that of any sampled line point
   * from the target; it is the distance of one of them or, when none is
   * closer than that, the root of FLT_MAX.
   */
  lemma MinDistToMidPointFacts(points: real -> Vector2, b: Biarc, tStart: real, tStep: real, tEnd: real,
                               sqrt: real -> real)
    requires IsSqrt(sqrt) && 0.0 < tStep
    ensures 0.0 <= MinDistToMidPoint(points, b, tStart, tStep, tEnd, sqrt)
    ensures forall k: nat {:trigger SamplePosition(tStart, tStep, k)} :: k < SamplesBefore(tStart, tEnd, tStep) ==>
              MinDistToMidPoint(points, b, tStart, tStep, tEnd, sqrt) <=
                points(SamplePosition(tStart, tStep, k)).DistTo(MidPointTarget(b, sqrt), sqrt)
    ensures MinDistToMidPoint(points, b, tStart, tStep, tEnd, sqrt) == sqrt(FltMax) ||
            exists k: nat {:trigger SamplePosition(tStart, tStep, k)} :: k < SamplesBefore(tStart, tEnd, tStep) &&
              MinDistToMidPoint(points, b, tStart, tStep, tEnd, sqrt) ==
                points(SamplePosition(tStart, tStep, k)).DistTo(MidPointTarget(b, sqrt), sqrt)
    ensures tEnd <= tStart ==> MinDistToMidPoint(points, b, tStart, tStep, tEnd, sqrt) == sqrt(FltMax)
  {
    var target := MidPointTarget(b, sqrt);
    var n := SamplesBefore(tStart, tEnd, tStep);
    var m := Nearest2(points, target, tStart, tStep, n, FltMax);
    NearestIsMinimal(points, target, tStart, tStep, n, FltMax);
    assert 0.0 <= m by {
      if 0 < n {
        assert m <= Dist2(points, target, SamplePosition(tStart, tStep, 0));
      }
      if m != FltMax {
        var k: nat :| k < n && m == Dist2(points, target, SamplePosition(tStart, tStep, k));
      }
    }
    forall k: nat {:trigger SamplePosition(tStart, tStep, k)} | k < n
      ensures sqrt(m) <= points(SamplePosition(tStart, tStep, k)).DistTo(target, sqrt)
    {
      SqrtMonotone(sqrt, m, Dist2(points, target, SamplePosition(tStart, tStep, k)));
    }
  }

  /** minDistToBiarcMidPoint (lines 120-145). */
  method MinDistToBiarcMidPoint(line: FreeformLine, tStart: real, tStep: real, tEnd: real, biarc: Biarc,
                                sqrt: real -> real, ghost points: real -> Vector2)
    returns (dist: real)
    requires IsSqrt(sqrt) && line.Valid() && 0 < |line.points| && PointQuery(line, points) && 0.0 < tStep
    requires tStart < tEnd ==> line.points[0].t <= tStart && tEnd <= line.points[|line.points| - 1].t
    ensures dist == MinDistToMidPoint(points, biarc, tStart, tStep, tEnd, sqrt)
  {
    var midPoint := biarc.MidPoint();
    if biarc.param.d1 == 0.0 && biarc.shape0.CircleShape? {
      var c := biarc.shape0.circle;
      midPoint := biarc.point0.Plus(biarc.point1).Minus(c.Center().Times(2.0)).Normalized(sqrt).Times(c.radius);
      if 0.0 <= biarc.point1.Minus(biarc.point0).Dot(biarc.tangent0) {
        midPoint := c.Center().Plus(midPoint);
      } else {
        midPoint := c.Center().Minus(midPoint);
      }
    }
    ghost var n := SamplesBefore(tStart, tEnd, tStep);
    ghost var k := n;
    var minDist2 := FltMax;
    var tCurr := tStart;
    while tCurr < tEnd
      invariant tStart <= tCurr
      invariant k == SamplesBefore(tCurr, tEnd, tStep)
      invariant Nearest2(points, midPoint, tStart, tStep, n, FltMax) == Nearest2(points, midPoint, tCurr, tStep, k, minDist2)
      decreases k
    {
      var pointOnLine := QueryPoint(line, tCurr, points);
      var dist2 := pointOnLine.Minus(midPoint).Norm2();
      if dist2 < minDist2 {
        minDist2 := dist2;
      }
      SamplesBeforeDecreases(tCurr, tEnd, tStep);
      tCurr := tCurr + tStep;
      k := k - 1;
    }
    dist := sqrt(minDist2);
  }
}
