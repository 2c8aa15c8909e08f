# Freeform stroke vectorisation: a Dafny model

This project models the core of a freehand-drawing tool that turns a
stroke into an *arc spline*. The spline is a chain of circular arcs and
straight segments, with sharp corners where the tangent jumps.

- A `FreeformLine` keeps the stroke's input points in an ordered map. Each
  point is keyed by the distance travelled to it, and a sentinel key at -A_LOT
  and one at +A_LOT repeat the first and last points.
- The line answers two queries: the interpolated point at a distance t, and a
  smoothed tangent at t. The tangent's sampling window is clipped to
  adjustable bounds.
- The line saves itself to a text stream and loads itself back.
- The `ArcSpline` pipeline works in three steps:
  1. It scans the tangents for corners and reduces each run of corner samples
     to one point.
  2. It tests every gap between corners for being a straight segment.
  3. It sorts the corners and segments into one list of markers. It turns
     each remaining stretch into biarcs and emits the display shapes (arcs and
     segments) together with the corner points.
- The geometry comes from `Line`, `Circle`, `CircleOrLine` (a circle or line
  fitted through two points with a start tangent) and `Biarc`. A biarc is two
  arcs that meet at a mid-point. Its candidate parameters come from solving the
  biarc condition for a series of arm ratios.
- `ref<T>` and `RefCounted` do the intrusive reference counting.

How the source's features are modelled:

- **Floats** are modelled as `real`. Rounding is not modelled.
- **Foreign maths.** `std::sqrt` is a parameter `sqrt`. The predicate `IsSqrt`
  says what is assumed of it: it returns the exact non-negative root. The
  atan2-based `Vector2::angleTo` is a parameter `angleTo`, and `std::pow` is a
  parameter as well.
- **Value types.** `Range`, `Vector2`, `Line`, `Circle`, `CircleOrLine`,
  `Biarc` and `SplineElement` are datatypes. An in-place update of one of them
  becomes a reassignment.
- **Classes.** `FreeformLine`, `ProcessingInput`, `ArcSpline`, `RefCounted`
  and `ref` are classes with the source's fields.
- **The point map.** The `std::map<float, Vector2>` of points is an ordered
  `seq<Entry>`, and `points[t] = p` is `Insert`.
- **Streams.** The text stream is a sequence of number tokens.
- **Line queries.** The line's point and tangent queries appear in
  specifications as ghost functions `points` and `tangents` of t. The
  predicates `PointQuery` and `TangentQuery` tie them to the line.
- **convertLineToBiarcs.** Its body is not part of this model. It is the
  parameter `convert`, which maps a gap to the biarcs found there.

`ME_ASSERT` is a debug-only check. Where a caller can establish the condition,
it becomes a `requires` of the leaf operation:

- `Range::inflate`
- `getClipped`
- `operator[]`
- `getPointAt`: its bracketing entries must exist.

`Vector2::normalized` has no assertion. `Line.Between` promises a near-unit
normal only for a chord longer than `ME_EPSILON`; the corrected segment guard
of `TestSegment` establishes that before the test line is used.

The other `ME_ASSERT`s get release semantics, so the model does what the
release build does:

- the validity check of the `Range(s, e)` constructor inside the pipeline;
- the bounds assertion of `isSegment`;
- `ME_ASSERT(false)` and `ME_ASSERT(foundSolution)` in
  `findPossibleBiarcParams`;
- the unit-normal check of `fromPointAndNormal`. The properties that need a
  unit normal take it as a hypothesis.

## Model

| member | source | states |
|---|---|---|
| Common.GetClipped | Common.h:46 | for min <= max the result lies in [min, max]; a value inside is unchanged, one below gives min, one above gives max; with bounds inverted by less than Epsilon the result is max, as fmin(fmax(min, v), max) gives |
| Common.IsEqualSymmetric | Common.h:49 | isEqual is symmetric in its two values and reflexive for any non-negative precision |
| Common.Range.Make | Common.h:59 | the asserting constructor gives a valid range with the given bounds and length end - start |
| Common.Range.Invalid | Common.h:68 | the default or invalidated range {FLT_MAX, -FLT_MAX} is not valid and has length 0 |
| Common.Range.Length | Common.h:62-65 | length is never negative, is 0 for an invalid range, and start + length == end for a valid one |
| Common.Range.Include | Common.h:71 | include(v) contains v and every value the range contained; its bounds are taken from the old bounds and v; including a float v into the invalid range gives {v, v} |
| Common.Range.Inflate | Common.h:74 | for padding >= 0 both bounds move outwards and the midpoint stays; a valid range stays valid and grows by 2 padding |
| Common.IsLessStrictTotalOrder | Common.h:80 | Range::isLess is irreflexive, asymmetric, transitive and total on distinct ranges, so std::sort has a unique result |
| Common.Ceil | ArcSplineUtil.cpp:12 | std::ceil(x) lies in [x, x + 1), the margin it gives the scan |
| Common.ProductSign | Geometry.cpp:133-135 | the sign of a product is the product of the signs, which is how the biarc chooses its half |
| RefCounting.RefCounted.constructor | Common.h:118 | a new object starts with count 0 and alive |
| RefCounting.RefCounted.Copy | Common.h:122 | copy construction does not copy the count: the copy starts at 0 and the original keeps its count |
| RefCounting.RefCounted.AssignFrom | Common.h:123-124 | copy assignment and swap leave the receiver's count and liveness alone |
| RefCounting.RefCounted.AddRef | Common.h:128 | the count goes up by one |
| RefCounting.RefCounted.RemoveRef | Common.h:131 | the count goes down by one, and the object destroys itself exactly when it reaches 0 |
| RefCounting.Ref.Empty | Common.h:91 | an empty holder holds nothing |
| RefCounting.Ref.FromPointer | Common.h:92 | the holder takes a reference on a non-null object, whose count goes up by one |
| RefCounting.Ref.Copy | Common.h:93 | the copy shares the other holder's object and counts one more reference on it |
| RefCounting.Ref.Assign | Common.h:97-98 | the holder ends up on the new object; assigning the held object to itself keeps its count and never destroys it; otherwise the new object gains one reference and the old one loses one, being destroyed exactly when its count reaches 0 |
| RefCounting.Ref.Release | Common.h:94 | the destructor drops the holder's reference, destroying the object exactly when the count reaches 0 |
| Vectors.Vector2.SetAt | Vector2.h:44 | writing component i through operator[] changes that component and keeps the other |
| Vectors.ScaleFacts | Vector2.h:49 | scale is commutative, (1, 1) is its identity, and scaling by (k, k) multiplies by k |
| Vectors.Vector2.Norm2 | Vector2.h:52 | norm2 is never negative |
| Vectors.Norm2IsSelfDot | Vector2.h:47-52 | norm2 is the vector's dot product with itself |
| Vectors.Vector2.Norm | Vector2.h:51 | norm is the non-negative number whose square is norm2 |
| Vectors.Vector2.DistTo | Vector2.h:53 | distTo is the non-negative number whose square is the squared length of the difference |
| Vectors.Vector2.Interpolate | Vector2.h:61 | interpolate(a, b, t) is a + (b - a) t: a at t = 0, b at t = 1, and a whenever a == b |
| Vectors.NormalizedFacts | Vector2.h:54 | normalized() is a non-negative multiple of the vector, never longer than 1, and maps zero to zero |
| Vectors.NormalizedIsNearlyUnit | Vector2.h:54 | normalized() of a vector longer than ME_EPSILON has squared length within 1e-4 of 1, the tolerance the source's unit-vector assertions use |
| Vectors.DistToZero | Vector2.h:53 | distTo is 0 exactly between equal points |
| Vectors.DistToSelf | Vector2.h:53 | the distance from a point to itself is 0 |
| Vectors.DistToSymmetric | Vector2.h:53 | distTo is symmetric |
| Vectors.ComponentsBelowNorm | Vector2.h:51 | neither component of a vector exceeds its norm in absolute value |
| Vectors.Rotate90Cycle | Vector2.h:57 | two quarter turns negate a vector and four give it back |
| Vectors.Rotate90Perpendicular | Vector2.h:57 | rotate90 gives a perpendicular vector of the same length, turned counter-clockwise (cross product = norm2) |
| Vectors.NegInverse | Vector2.h:36 | negation is the additive inverse and keeps the length |
| Vectors.DivTimes | Vector2.h:32-33 | dividing by a non-zero scalar undoes multiplying by it |
| Vectors.CrossAntisymmetric | Vector2.h:47-48 | cross is antisymmetric and zero on a vector with itself; dot is symmetric |
| Vectors.PlusMinusInverse | Vector2.h:30-31 | subtracting b undoes adding b |
| Vectors.DotLinear | Vector2.h:47 | dot is linear in its first argument |
| Vectors.Norm2Combination | Vector2.h:52 | norm2 of s a + t b expands into the dot products of a and b |
| Vectors.SqrtUnique | Vector2.h:51 | the square root norm() takes is determined by its square |
| Vectors.SqrtMonotone | Vector2.h:51 | square roots preserve order, so a smaller norm2 is a smaller norm |
| FreeformLines.Insert | FreeformLine.cpp:16 | `points[t] = p` keeps the keys strictly increasing, and the first key is t or the old first key |
| FreeformLines.InsertContents | FreeformLine.cpp:16 | map semantics: after `points[t] = p`, key t holds p and every other key keeps its point |
| FreeformLines.InsertAtKey | FreeformLine.cpp:16 | writing to an existing key replaces that entry in place |
| FreeformLines.InsertAtGap | FreeformLine.cpp:16 | writing to a new key between two consecutive keys inserts the entry between them |
| FreeformLines.GapHasNoKey | FreeformLine.cpp:16 | a key strictly between consecutive keys is not in the map |
| FreeformLines.NextKey | FreeformLine.cpp:14-15 | a new point's key is the last real key plus the distance to the last point, so it is never smaller |
| FreeformLines.SetLastPoint | FreeformLine.cpp:17 | `points.rbegin()->second = p` changes only the last entry's point |
| FreeformLines.AddFirstPoint | FreeformLine.cpp:22 | the first point goes under -A_LOT, 0 and A_LOT, which makes a stroke of length 0 whose entries all hold that point |
| FreeformLines.AddPointKeepsStroke | FreeformLine.cpp:12-19 | a later point keeps the stroke shape (sentinels, keys from 0 up to the length); the length never decreases; the first two entries are untouched; the new point is stored under its key just before the A_LOT sentinel, which repeats it; a point equal to the last one leaves the map unchanged |
| FreeformLines.AddPointRepeated | FreeformLine.cpp:12-19 | a point at distance 0 from the last one is that point, and addPoint leaves the map unchanged |
| FreeformLines.AddPointExtends | FreeformLine.cpp:12-19 | a point at a positive distance becomes one new entry just before the A_LOT sentinel, which repeats it |
| FreeformLines.ExtendedStroke | FreeformLine.cpp:16-18 | appending a larger key before the end sentinel gives a stroke of the new length with the first entries unchanged |
| FreeformLines.UpperBound | FreeformLine.inl:5 | upper_bound(t) is the first index whose key exceeds t: all keys before it are <= t and all keys from it on are > t |
| FreeformLines.LocalT | FreeformLine.inl:8 | the local fraction between two bracketing keys lies in [0, 1) and is 0 at the lower key |
| FreeformLines.PointAtBracket | FreeformLine.inl:3-10 | getPointAt(t) interpolates between any pair of consecutive keys that brackets t |
| FreeformLines.PointAtKey | FreeformLine.inl:3-10 | at a stored key other than the last, getPointAt returns the stored point exactly |
| FreeformLines.PointAtStrokeEnds | FreeformLine.inl:3-10 | on a stroke, getPointAt is the first point anywhere in [-A_LOT, 0] and the last point anywhere in [length, A_LOT) |
| FreeformLines.TangentWindow | FreeformLine.inl:17-18 | each tangent sample position lies within its clipping bounds, and the first never exceeds the second |
| FreeformLines.TangentWindowWidth | FreeformLine.inl:17-18 | with the margin setBounds gives and a range at least 2 spread long, the two samples are always exactly 2 spread apart: near an end the window stops instead of shrinking |
| FreeformLines.ClippingMargin | FreeformLine.cpp:29 | the margin is 2 spread or the range's length, whichever is smaller; it is never negative for a non-negative spread |
| FreeformLines.WindowAlwaysInside | FreeformLine.inl:17-19 | a clipping range inside the sentinel keys, with a margin that fits in it, makes every tangent query well defined |
| FreeformLines.TangentAt | FreeformLine.inl:12-21 | the tangent is never longer than 1 and points from the window's first sample to its second (non-negative dot product with their difference); coinciding samples give the zero tangent, and samples more than Epsilon apart give a tangent of squared length within 1e-4 of 1 |
| FreeformLines.EncodeEntries | FreeformLine.cpp:36 | operator<< writes three tokens per entry, in key order |
| FreeformLines.LoadEntries | FreeformLine.cpp:49-53 | the map built from the first k triples is ordered |
| FreeformLines.EncodeHeader | FreeformLine.cpp:34-35 | the text form starts with the spread and the entry count, and the count reads back as the number of entries |
| FreeformLines.EncodedEntry | FreeformLine.cpp:36 | the k-th triple of the text form holds the k-th entry's key and point |
| FreeformLines.LoadStep | FreeformLine.cpp:51-52 | reading one more triple stores it into the map read so far |
| FreeformLines.AppendInOrder | FreeformLine.cpp:52 | storing the next entry of an ordered sequence appends it |
| FreeformLines.SaveLoadRoundTrip | FreeformLine.cpp:32-56 | reading back what operator<< wrote is well formed and gives back the same spread and the same map; for a stroke, the length operator>> derives from the map read back is the stroke's length |
| FreeformLines.FirstInserts | FreeformLine.cpp:22 | the three chained writes of the first addPoint give the three sentinel entries in key order |
| FreeformLines.FreeformLine.constructor | FreeformLine.h:31 | a new line has spread 10, length 0, no points, clipping range {-A_LOT, A_LOT} and margin 0 |
| FreeformLines.FreeformLine.Copy | ArcSpline.cpp:25 | the copy has the same points, length, spread and clipping state |
| FreeformLines.FreeformLine.AddPoint | FreeformLine.cpp:10-24 | the new map is the one addPoint defines (first point or extension), still ordered; the length becomes the new key after the first point; the clipping state and spread are kept |
| FreeformLines.FreeformLine.SetBounds | FreeformLine.cpp:26-30 | stores the range and the margin min(2 spread, length), which lies in [0, length]; the points, length and spread are kept |
| FreeformLines.FreeformLine.GetTangentAt | FreeformLine.inl:12-21 | getTangentAt on the line's current state is never longer than 1 and points from getPointAt at the clipped window's first position to getPointAt at its second; coinciding points give the zero tangent, points more than Epsilon apart a tangent of nearly unit length |
| FreeformLines.FreeformLine.Save | FreeformLine.cpp:32-38 | the tokens are the spread, the count, then one triple per entry in key order |
| FreeformLines.FreeformLine.Load | FreeformLine.cpp:40-56 | on a well-formed stream: the spread read, the map of all triples, and the length taken from the last real key; otherwise an empty map and length 0; the clipping state is kept |
| Geometry.Line.FromPointAndNormal | Geometry.cpp:8-16 | the line has the given normal and passes through the point |
| Geometry.Line.Between | Geometry.h:24 | the line passes through p0 and p1; its normal is perpendicular to p1 - p0 and unit (to 1e-4) for a chord longer than Epsilon; for p0 == p1 it is the zero line |
| Geometry.BetweenPerpendicular | Geometry.h:24 | the normal of between(p0, p1) is perpendicular to p1 - p0 |
| Geometry.ProjectOnLine | Geometry.h:33 | project moves the point along the normal, and the projected point's signed distance is the old one times 1 - norm2(normal): zero for a unit normal |
| Geometry.SignedDistAlongNormal | Geometry.h:30 | the signed distance grows linearly along the normal |
| Geometry.Circle.SignedDistTo | Geometry.h:47 | a circle's signed distance is never below -radius |
| Geometry.CircleOrLine.SignedDistTo | Geometry.h:70 | the call dispatches to the circle or line distance; an invalid shape is A_LOT away |
| Geometry.FitCircleOrLine | Geometry.cpp:18-60 | the result is never invalid; points closer than Epsilon give the zero circle at point0; a circle is returned only when the radius tests accept it; otherwise it is between(point0, point1) |
| Geometry.FittedCircle | Geometry.cpp:34-38 | a circle is built only for a lead longer than Epsilon, with the centre and radius of the formula and the acceptance tests passed |
| Geometry.TangentNormalLine | Geometry.cpp:25 | line0 passes through point0 |
| Geometry.CentreOnNormalLine | Geometry.cpp:25-36 | for a unit tangent, the fitted centre lies on the line through point0 perpendicular to tangent0 |
| Geometry.CentreEquidistant | Geometry.cpp:25-37 | for a unit tangent, the fitted centre is as far from point1 as from point0 |
| Geometry.FittedCircleThroughEnds | Geometry.cpp:36-40 | for a unit tangent, an accepted circle passes exactly through point0 and point1 |
| Geometry.FitPassesThroughEnds | Geometry.cpp:56-57 | the two closing assertions hold for a unit tangent: every result passes exactly through point0; it passes exactly through point1 when the chord is longer than Epsilon, and within Epsilon of it otherwise |
| Geometry.ZeroCircleThroughCentre | Geometry.cpp:53 | the zero circle at point0 passes through point0 |
| Geometry.ZeroCircleDist | Geometry.cpp:53 | the distance from the zero circle is the distance to point0 |
| Geometry.Biarc.MidPoint | Geometry.h:109 | the mid-point lies on the segment q0 -> q1 at the fraction d0 / (d0 + d1 + FLT_MIN) |
| Geometry.Biarc.MidTangent | Geometry.h:112 | the mid tangent is never longer than 1, and unit to 1e-4 when the control points are more than Epsilon apart |
| Geometry.Biarc.CalcCachedShapes | Geometry.cpp:118-128 | both shapes are valid and are the fits from point0 and from point1 to the mid-point; divLine passes through the mid-point with the mid tangent as normal; nothing else changes |
| Geometry.BiarcHalves | Geometry.cpp:130-136 | the biarc's signed distance is shape1's on the second half (across divLine from point0, with d1 > 0) and shape0's elsewhere |
| Geometry.BiarcFirstHalf | Geometry.cpp:133-135 | for d1 >= 0, point0 is measured against shape0; for d1 = 0 every point is |
| Geometry.MidPointBetweenControlPoints | Geometry.h:109 | for non-negative d0 and d1 the mid-point is on q0 -> q1, short of q1 |
| Geometry.MidPointOfSingleArc | Geometry.h:109-116 | for d1 = 0 the end control point is point1 and the mid-point is on the leg from point1 |
| Geometry.CachedShapesJoinAtMidPoint | Geometry.cpp:118-128 | for unit tangents, both cached shapes pass through their own end point, and through the mid-point when it is more than Epsilon away |
| Geometry.ChosenD1Solves | Geometry.cpp:77-101 | a chosen d1 is the greatest root of the quadratic (abs(a) > Epsilon, delta >= 0), or the root of its linear part b d1 + c (abs(v.t1) > FLT_MIN), or the no-result mark -1 when neither applies |
| Geometry.IterationParams | Geometry.cpp:104 | an iteration pushes at most one pair |
| Geometry.SingleArcParams | Geometry.cpp:108-115 | the single-arc tail adds at most one pair |
| Geometry.FindPossibleBiarcParams | Geometry.cpp:62-116 | the method's output is the specification's list: one optional pair per ratio of the series r_i = rLower mult^i (r = 1 for one result), then the optional single-arc pair |
| Geometry.SolveIteration | Geometry.cpp:73-104 | one loop iteration pushes exactly what the specification gives for the ratio r |
| Geometry.SingleArcResult | Geometry.cpp:108-115 | the single-arc tail pushes exactly the specification's single-arc pair |
| Geometry.FormulaRoot | Geometry.cpp:87-89 | a value y with 2 a y + b = +-sqrt(delta) is a root of a y^2 + b y + c |
| Geometry.LargerRootIsGreatest | Geometry.cpp:87-90 | fmax(sol0, sol1) is a root, and no root of the quadratic exceeds it |
| Geometry.BiarcCondition | Geometry.cpp:73-80 | the quadratic is the biarc condition: for d0 = r d1 and unit tangents, the squared control-point distance minus (d0 + d1)^2 is -2 times the quadratic's value at d1 |
| Geometry.RootGivesBiarc | Geometry.cpp:77-104 | a ratio pair solving the quadratic puts the control points exactly d0 + d1 apart, so the two arcs meet tangentially |
| Geometry.IterationSolves | Geometry.cpp:71-105 | whatever an iteration pushes is a ratio pair with d1 > Epsilon that is the greatest root of the quadratic or the root of its linear part |
| Geometry.IterationPair | Geometry.cpp:104 | a pushed pair is (r d1, d1) for the chosen d1, which exceeds Epsilon |
| Geometry.IterationSkips | Geometry.cpp:85-104 | a quadratic with abs(a) > Epsilon and no real root pushes nothing, and neither does a chosen d1 that does not exceed Epsilon |
| Geometry.SeriesMembers | Geometry.cpp:69-105 | the series gives at most one pair per iteration, and each pair comes from the iteration of some ratio of the series |
| Geometry.RatioPositive | Geometry.cpp:69-71 | the ratios of a series with positive start and multiplier stay positive |
| Geometry.SingleArcSolves | Geometry.cpp:108-115 | the single-arc pair puts q0 exactly d0 from point1, which is the biarc condition with d1 = 0 |
| Geometry.SingleArcDistance | Geometry.cpp:111 | for a unit t0, v.v = 2 d0 v.t0 puts point0 + d0 t0 exactly d0 from point0 + v |
| Geometry.SingleArcPair | Geometry.cpp:111 | the single-arc d0 solves 2 d0 v.t0 = v.v |
| Geometry.PossibleBiarcParamsCount | Geometry.cpp:62-116 | at most numResults pairs are produced, plus one single-arc pair when asked for |
| Geometry.SingleResultHasEqualArms | Geometry.cpp:69-70 | asked for one result, the search tries only r = 1, that is d0 = d1 |
| SplineElements.SplineElement.Type | ArcSpline.h:63-75 | no concrete element has TYPE_INVALID |
| SplineElements.SegmentDistToEndPoint | ArcSpline.cpp:208-211 | distToEndPoint is the distance to one end point, and no larger than the distance to either |
| SplineElements.ClosestPointOnSegment | ArcSpline.cpp:189-203 | the point distTo measures to lies on the segment |
| SplineElements.ClosestPointIsNearest | ArcSpline.cpp:189-203 | no point of the segment is nearer to the query than the one distTo picks |
| SplineElements.SegmentDistToIsNearest | ArcSpline.cpp:187-211 | distTo is the distance to the nearest point of the segment, so it never exceeds distToEndPoint |
| ArcSplineUtil.CornersInput.Offsets | ArcSplineUtil.cpp:13-17 | the four tangent offsets are symmetric about t and ordered, with d1 < 0 < d2 for positive factors and spread |
| ArcSplineUtil.CornersInput.SearchPadding | ArcSplineUtil.cpp:67 | the padding of the corner search is never negative for non-negative factors and spread |
| ArcSplineUtil.DefaultInputs | ArcSplineUtil.h:19-91 | with the defaults, the scan keeps a margin of 3 and samples tangents at -3, -1, 1 and 3 spreads; the search pads by 2 spreads; the biarc ratios span [1/5, 5] symmetrically about 1 with an odd sample count, so r = 1 is tried; tBounds starts invalid; the accepted squared error is 6.25 |
| ArcSplineUtil.ProcessingInput.constructor | ArcSplineUtil.h:94-99 | a new configuration holds the three default groups |
| ArcSplineUtil.AngleDeg | ArcSplineUtil.cpp:24-26 | an absolute angle in degrees is never negative |
| ArcSplineUtil.CornerSampleTest | ArcSplineUtil.cpp:27-31 | for non-negative angles, the test as written with its two divisions is equivalent to the division-free test the model scans with |
| ArcSplineUtil.TangentDefined | ArcSplineUtil.cpp:22-23 | a line ready for tangents answers getTangentAt at every position |
| ArcSplineUtil.LineQueries | ArcSplineUtil.cpp:22-23 | a line ready for tangents has both the tangent query and the point query |
| ArcSplineUtil.CornerAtTest | ArcSplineUtil.cpp:22-31 | the corner test at t is the test of the four tangents sampled at t + d[i] |
| ArcSplineUtil.QueryTangent | ArcSplineUtil.cpp:22-23 | asking the line for a tangent gives the tangent query's value |
| ArcSplineUtil.TestCorner | ArcSplineUtil.cpp:22-31 | the four-tangent test at one scan position is the corner test at t |
| ArcSplineUtil.CloseSectionAsWritten | ArcSplineUtil.cpp:36-52 | a negative sample always invalidates the running section, and keeps the runs unchanged when the section is shorter than the minimum |
| ArcSplineUtil.MergeOrAppend | ArcSplineUtil.cpp:39-46 | a kept section either extends the last run, leaving the count of runs the same, or is appended |
| ArcSplineUtil.ZeroMinimumRecordsInvalidRange | ArcSplineUtil.cpp:36 | with minNumberTestPositivesInSeries == 0, the first negative sample records the invalid range as a corner run |
| ArcSplineUtil.CloseSection | ArcSplineUtil.cpp:36-52 | the corrected closing step never records an invalid section, and agrees with the step as written whenever the minimum is positive |
| ArcSplineUtil.StepsLeft | ArcSplineUtil.cpp:19 | the number of scan positions is 0 exactly when the first position is past the last |
| ArcSplineUtil.StepsLeftDecreases | ArcSplineUtil.cpp:19 | each step forward leaves one position fewer |
| ArcSplineUtil.ScanAdvance | ArcSplineUtil.cpp:19-53 | after one scan position, one position fewer is left and the rest of the scan continues from the new state |
| ArcSplineUtil.ScanRunsOrdered | ArcSplineUtil.cpp:19-53 | every run the scan reports is valid, lies inside [start + margin, end - margin] and is at least the minimum long; consecutive runs are further apart than the merge distance |
| ArcSplineUtil.FurthestIsMaximal | ArcSplineUtil.cpp:69-77 | the search's best value is no smaller than the start value or any sampled value; it is the start pair, or a larger value reached at a sampled position that strictly beats every earlier position (the strict `<` of line 72 keeps the earliest) |
| ArcSplineUtil.FirstFurthestUnique | ArcSplineUtil.cpp:69-77 | the earliest position furthest along the direction is unique |
| ArcSplineUtil.FurthestOutcome | ArcSplineUtil.cpp:61-77 | the search from the mid-point and -FLT_MAX ends at the earliest furthest position when some position beats -FLT_MAX, and at the mid-point otherwise; the result is the mid-point or one of the positions |
| ArcSplineUtil.SearchWidened | ArcSplineUtil.cpp:61-77 | over the whole-numbered offsets of the run widened by the padding, the result is the earliest position furthest along the search direction when some position beats -FLT_MAX, otherwise the run's mid-point; either way the mid-point or a position inside the widened run |
| ArcSplineUtil.ReduceCorner | ArcSplineUtil.cpp:58-80 | a run becomes one point: its mid-point exactly when the tangents at the inner offsets differ by at most Epsilon, otherwise the widened search's outcome along their difference; it lies within the padding of the run |
| ArcSplineUtil.ReduceAll | ArcSplineUtil.cpp:56-81 | each run is replaced in place by its representative point, in the same order |
| ArcSplineUtil.CornersFromRuns | ArcSplineUtil.cpp:7-82 | findCorners reports one single-point range per corner run, in run order; each represents its run as ReduceCorner states (mid-point for a flat turn, otherwise the earliest furthest position along the turn) and lies within the padding of the run, inside the scanned stretch widened by the padding |
| ArcSplineUtil.QueryPoint | FreeformLine.inl:3-10 | asking the line for a point gives the point query's value |
| ArcSplineUtil.SearchFurthest | ArcSplineUtil.cpp:65-77 | the search loop returns the specification's furthest position along the search direction |
| ArcSplineUtil.SearchDirection | ArcSplineUtil.cpp:58-60 | the search direction is the tangent just before the run minus the tangent just after it |
| ArcSplineUtil.ReduceRun | ArcSplineUtil.cpp:58-80 | one pass of the reduction loop gives the run's representative point |
| ArcSplineUtil.UpdateSection | ArcSplineUtil.cpp:27-52 | one position of the state machine performs one scan step of the specification |
| ArcSplineUtil.ScanCorners | ArcSplineUtil.cpp:19-53 | the scan loop returns the specification's corner runs over the clipping range; when the margin leaves no scan position the line is never asked for a tangent, so it need not have any entry |
| ArcSplineUtil.EmptyScanNoRuns | ArcSplineUtil.cpp:19 | the scan has no position exactly when the margin shrinks the clipping range to nothing, and then it reports no corner run whatever the corner test |
| ArcSplineUtil.ScanPosition | ArcSplineUtil.cpp:22-52 | one pass of the scan loop tests t and performs the scan step for that sample |
| ArcSplineUtil.FindCorners | ArcSplineUtil.cpp:7-82 | findCorners returns the specification's corners: the scan's runs, each reduced to its representative point; with no scan position it returns no corner, on any line, even one without entries |
| ArcSplineUtil.SamplesBefore | ArcSplineUtil.cpp:110 | the number of sampling positions is 0 exactly when tStart >= tEnd |
| ArcSplineUtil.SamplesBeforeDecreases | ArcSplineUtil.cpp:110 | each step forward leaves one sampling position fewer |
| ArcSplineUtil.SumOfSquaresBounds | ArcSplineUtil.cpp:110-115 | a sum of squared distances is never negative, and at most n times a bound on each square |
| ArcSplineUtil.MeanSquaredErrorBounds | ArcSplineUtil.cpp:105-118 | the mean squared error is never negative; it is 0 when no sample is taken; it is at most any bound on the sampled squares |
| ArcSplineUtil.CalcMeanSquaredError | ArcSplineUtil.cpp:105-118 | the sampling loop returns the sum of squared signed distances divided by FLT_MIN plus the sample count |
| ArcSplineUtil.ChordLine | ArcSplineUtil.cpp:87-89 | the test line passes through the line's points at both ends of the section |
| ArcSplineUtil.ChordLength | ArcSplineUtil.cpp:90 | the chord length is never negative |
| ArcSplineUtil.SegmentAcceptanceMonotone | ArcSplineUtil.cpp:92-93 | a smaller error on a longer chord is accepted whenever a larger error on a shorter chord is |
| ArcSplineUtil.StraightSectionAccepted | ArcSplineUtil.cpp:84-94 | a section whose samples all lie on its test line has error 0 and is accepted |
| ArcSplineUtil.DegenerateChordAccepted | ArcSplineUtil.cpp:84-94 | when the section's end points coincide, the test line is 0 = 0, the error is 0 and the section is accepted, whatever the stroke does in between |
| ArcSplineUtil.IsSegment | ArcSplineUtil.cpp:84-94 | the error output is the mean squared error against the chord line, and the result is the acceptance test on that error and the chord length |
| ArcSplineUtil.MidPointTargetOnCircle | ArcSplineUtil.cpp:123-136 | for a single arc, the target point is no further than the radius from the centre, and on the circle to 1e-4 unless the chord's middle is the centre |
| ArcSplineUtil.TargetOffset | ArcSplineUtil.cpp:127-135 | the target lies at the scaled offset from the centre, on one side or the other |
| ArcSplineUtil.OffsetBounds | ArcSplineUtil.cpp:127 | a normalised vector scaled by r is no longer than abs(r), and nearly abs(r) long for a vector longer than Epsilon |
| ArcSplineUtil.NearestIsMinimal | ArcSplineUtil.cpp:137-143 | the nearest search ends no higher than its start value and than every sample, and that value is its start value or one of the samples |
| ArcSplineUtil.MinDistToMidPointFacts | ArcSplineUtil.cpp:120-145 | the result is non-negative and no larger than any sampled point's distance to the target; it is one of those distances or sqrt(FLT_MAX), and it is sqrt(FLT_MAX) when no sample is taken |
| ArcSplineUtil.MinDistToBiarcMidPoint | ArcSplineUtil.cpp:120-145 | the method returns the specification's minimum distance to the biarc's (single-arc corrected) mid-point |
| ArcSplines.InsertInOrderFacts | ArcSpline.cpp:65 | inserting a range keeps an ascending list ascending and adds exactly that range |
| ArcSplines.SortRangesFacts | ArcSpline.cpp:65 | the sort of the markers is ascending under Range::isLess and a permutation of its input |
| ArcSplines.AscendingUnique | ArcSpline.cpp:65 | two ascending orderings of the same ranges are equal, so every correct sort gives the same list |
| ArcSplines.SortMarkers | ArcSpline.cpp:65 | std::sort returns an ascending permutation of the markers, namely SortRanges |
| ArcSplines.Gaps | ArcSpline.cpp:47-57 | there is one gap per marker, from the previous marker's end (0 for the first) to this marker's start |
| ArcSplines.AcceptedSegments | ArcSpline.cpp:48-57 | a range is an accepted segment exactly when it is a candidate gap that passes the segment test |
| ArcSplines.MarkersFacts | ArcSpline.cpp:33-66 | the markers are ascending; a range is a marker exactly when it is a corner or a candidate gap that passes the segment test |
| ArcSplines.MarkersInKeys | ArcSpline.cpp:33-66 | markers built from corners inside the keyed range stay inside it |
| ArcSplines.OutAndBackAcceptedAsWritten | ArcSpline.cpp:52 | the guard as written accepts an out-and-back stroke section as a straight segment, although a sample lies 75 units from both ends; the corrected test rejects it |
| ArcSplines.SegmentTestUnitChord | ArcSpline.cpp:52 | a gap the corrected test accepts has a test line with a unit normal (to 1e-4), and the test as written accepts it too |
| ArcSplines.BiarcShapesFacts | ArcSpline.cpp:101-121 | a biarc gives one shape per half whose ends are at least MAX_SPLINE_GAP apart: half 0 from point0 to the mid-point, half 1 from the mid-point to point1, each an arc exactly when its cached shape is a circle |
| ArcSplines.Terminal | ArcSpline.cpp:71 | the terminal marker is exactly MAX_SPLINE_GAP long, so it is neither a segment nor a corner |
| ArcSplines.WalkCorners | ArcSpline.cpp:83-136 | the corner points the marker loop appends are the points at the zero-length markers, whatever the biarcs are |
| ArcSplines.WalkKeepsShapes | ArcSpline.cpp:83-136 | the marker loop keeps the shapes it starts with and only appends |
| ArcSplines.WalkWithoutBiarcs | ArcSpline.cpp:83-136 | when no gap yields biarcs, the shapes appended are exactly the segments of the long markers |
| ArcSplines.MarkerSegmentsFacts | ArcSpline.cpp:125-129 | every marker segment joins the points at the ends of a marker longer than MAX_SPLINE_GAP |
| ArcSplines.CornerPointsMembers | ArcSpline.cpp:131-134 | the corner points are exactly the points at the zero-length markers |
| ArcSplines.WalkIncludesSegments | ArcSpline.cpp:83-136 | every marker longer than MAX_SPLINE_GAP ends up among the shapes as a segment tagged -1 between the points at its ends |
| ArcSplines.ChainedGapsValid | ArcSpline.cpp:50 | between ranges that each end no later than the next starts, every gap is a valid range |
| ArcSplines.PointGapsApart | ArcSpline.cpp:46-57 | the gaps between single-point corners in order do not overlap one another or the corners |
| ArcSplines.SortApart | ArcSpline.cpp:65 | sorting ranges that do not overlap keeps them non-overlapping |
| ArcSplines.AscendingApartChained | ArcSpline.cpp:65-85 | sorted, valid, non-overlapping markers each end no later than the next starts |
| ArcSplines.MarkersInside | ArcSpline.cpp:33-66 | for single-point corners in order inside [0, length], every marker is valid and inside [0, length] |
| ArcSplines.OrderedCornersGiveValidGaps | ArcSpline.cpp:43-86 | for single-point corners in order inside [0, length], every range built between corners at line 50 and every range built between markers at line 85 is valid; the sorted markers and the terminal are chained from 0 |
| ArcSplines.OutcomeAtLeast | ArcSplineUtil.cpp:69-77 | the search's outcome is at least as far along the direction as any position beating -FLT_MAX |
| ArcSplines.CrossingQueriesExist | ArcSplineUtil.cpp:58-80 | line queries with the tangent turns and furthest points of the crossing example exist |
| ArcSplines.ReducedCornersMayCross | ArcSplineUtil.cpp:56-81 | two corner runs further apart than the merge distance, [50, 52] and [57, 59], reduce with the default settings at spread 10 to 72 and 37, in the opposite order, so the range ArcSpline.cpp:50 builds between them is not valid |
| ArcSplines.TerminalAddsNoMarkerShape | ArcSpline.cpp:71 | the terminal adds no corner point and no segment, only the biarcs of the gap before it |
| ArcSplines.StrokeLength | FreeformLine.cpp:18 | a stroke's length is never negative |
| ArcSplines.StrokeCornersInKeys | ArcSpline.cpp:38-40 | for a stroke whose scan fits, the corners found over [0, length] lie inside the keyed range |
| ArcSplines.StrokeCornersArePoints | ArcSpline.cpp:38-40 | every corner findCorners reports is a single point |
| ArcSplines.MarkerCornerPoints | ArcSpline.cpp:131-134 | when the markers are single-point corners and long segments, the corner points of the loop are the points at the corners |
| ArcSplines.StrokeSplineCorners | ArcSpline.cpp:15-140 | the corner points of a stroke's spline are exactly the points at the corners findCorners reports over [0, length], whatever the biarcs are |
| ArcSplines.StrokeSplineSegments | ArcSpline.cpp:15-140 | every gap between a stroke's corners that passes the segment test is in the spline, as a segment tagged -1 between the points at its ends |
| ArcSplines.FullBoundsReady | ArcSpline.cpp:38-39 | a line ready to spline, once bounded to [0, length], has float scan bounds; a stroke is then ready for the corner scan, and an empty line has a scan with no position |
| ArcSplines.EmptyStrokeGivesNothing | ArcSpline.cpp:33-140 | for a line without entries and a scan margin above 0, the pipeline finds no corner and no marker, and the walk over the terminal adds no corner point and no shape and keeps tBounds |
| ArcSplines.ArcSpline.constructor | ArcSpline.cpp:10-13 | the spline keeps the line and the configuration; its corner points, shapes and biarc bounds are those the pipeline defines from the line, which may be a stroke or (as after a failed load) a line without entries |
| ArcSplines.ArcSpline.RecreateSpline | ArcSpline.cpp:15-31 | adopts the given configuration if there is one; rebuilds both output lists from scratch as the pipeline defines them from a copy of the source line, a stroke or a line without entries; leaves the corner and segment settings unchanged and only tBounds of the biarc settings changes |
| ArcSplines.ArcSpline.Rebuild | ArcSpline.cpp:24-30 | the copy of the source line goes through the marker pipeline: both output lists get what the marker loop appends for the line's markers plus the terminal, the corner and segment settings stay, and only tBounds of the biarc settings changes |
| ArcSplines.ArcSpline.FindCornersAndSegments | ArcSpline.cpp:33-66 | the result is the sorted list of the corners found over [0, length] and the gaps that pass the segment test; it is ascending and inside the keyed range; a line without entries gives no marker; the line's points, length and spread are kept |
| ArcSplines.ArcSpline.SegmentsBetween | ArcSpline.cpp:43-59 | the loop keeps exactly the candidate gaps that pass the segment test, in order |
| ArcSplines.ArcSpline.TestSegment | ArcSpline.cpp:52 | the corrected guard is the segment test of the model; a gap no longer than MAX_SPLINE_GAP is rejected without asking the line |
| ArcSplines.ArcSpline.AddBiarcShapes | ArcSpline.cpp:100-121 | appends the display shapes of the halves of each biarc, in order, and changes nothing else |
| ArcSplines.ArcSpline.AddMarker | ArcSpline.cpp:84-136 | one pass of the marker loop produces the output of the specification's marker step |
| ArcSplines.ArcSpline.AddGapBiarcs | ArcSpline.cpp:85-121 | a gap longer than MAX_SPLINE_GAP becomes tBounds and the line's clipping range, with the margin setBounds derives from it, and the shapes of its biarcs are appended; a shorter one changes nothing, the line's clipping range and margin included |
| ArcSplines.ArcSpline.MarkerLoop | ArcSpline.cpp:83-136 | the loop's outputs are the marker walk's over the given markers from a previous marker ending at 0; the configuration other than tBounds and the line's points, length and spread are kept; a line without entries is accepted when every marker is longer than 0 and at most MAX_SPLINE_GAP long |
| ArcSplines.ArcSpline.GenerateBiarcsAndFinalShapes | ArcSpline.cpp:68-140 | the outputs are the marker loop's over the markers plus the terminal, from a previous marker ending at 0, for a stroke and for a line without entries and without markers; the marker list is returned unchanged |

## Left out

- Floating point: all arithmetic is exact real arithmetic. Rounding, overflow and FLT_MIN being absorbed into a sum (FLT_MIN + k == k for k >= 1 in float) are not modelled. The model keeps FLT_MIN as an exact constant.
- `Vector2::rotate`, `std::sin`, `std::cos` and `std::atan2`: trigonometry is not modelled. `angleTo` is a parameter, and its own unit-length assertions are not checked.
- `std::sqrt` and `std::powf`: parameters. `IsSqrt` assumes an exact root; nothing is assumed of `pow`.
- `FPExceptionEnabler` (Common.h:143-184): floating-point exception control has no counterpart over reals.
- `Vector2`'s storage union and its integer constructor: the datatype has the two real components only. `==` and `!=` are Dafny equality. `+=` and `-=` are reassignment with `Plus` and `Minus`.
- `SplineArc`'s constructor, `distTo` and `distToEndPoint` (ArcSpline.cpp:142-185): they compute angles with atan2 and rotate. The arc element keeps only its constructor's arguments.
- The base class `SplineElement`'s FLT_MAX distances (ArcSpline.h:66-69): only the concrete elements are modelled, and its private TYPE_INVALID constructor cannot be reached.
- `convertLineToBiarcs` (ArcSplineUtil.cpp:96-103): its body is not part of this model. It is the parameter `convert`, assumed only to return biarcs whose cached shapes are set.
- `BiarcsInput`'s fields besides `tBounds`: only `convertLineToBiarcs` reads them. They are modelled with their defaults.
- Stream I/O: operator<< and operator>> work on a sequence of number tokens. The 6-digit default output precision is not modelled, and neither is parsing text.
- FreeformLines.FreeformLine.Load: a stream that fails part way leaves, in the source, the triples read before the failure. The model reports failure with an empty map and length 0.
- FreeformLines.FreeformLine.Load and FreeformLines.FreeformLine.AddPoint: a map with exactly one entry makes the source dereference past the first element (undefined behaviour). Both require that case away.
- ArcSplineUtil.IsSegment: the debug assertion on the section's bounds is not required. The model asks only what getPointAt needs, and it requires `referenceSegmentLength != 0`, because ArcSplineUtil.cpp:92 divides by it (the default is 20).
- ArcSplineUtil.UpdateSection: the closing step is the corrected one, which keeps a section only when it is valid. With `minNumberTestPositivesInSeries == 0` and a negative sample after an invalidated section, the source records {FLT_MAX, -FLT_MAX} (ArcSplineUtil.cpp:36-44); the model records nothing. For a positive minimum the two agree (ArcSplineUtil.CloseSection).
- ArcSplineUtil.ScanCorners: runs UpdateSection, so it differs from the source in the same case.
- ArcSplineUtil.FindCorners: runs ScanCorners, so it differs from the source in the same case.
- ArcSplines.ArcSpline.TestSegment: the guard is the corrected one: it also requires the gap's end points to be more than Epsilon apart. On a gap longer than MAX_SPLINE_GAP whose end points coincide (ArcSplines.OutAndBackAcceptedAsWritten), the source accepts the gap at ArcSpline.cpp:52 and the model rejects it.
- ArcSplines.ArcSpline.SegmentsBetween: runs TestSegment, so it differs from the source on the same gaps.
- ArcSplines.ArcSpline.FindCornersAndSegments: runs SegmentsBetween over the corners of FindCorners, so it inherits both corrections.
- ArcSplines.ArcSpline.RecreateSpline: runs FindCornersAndSegments, so it inherits both corrections.
- ArcSplines.ArcSpline.constructor: runs RecreateSpline, so it inherits both corrections.
- ArcSplines.ArcSpline.constructor and ArcSplines.ArcSpline.RecreateSpline: a line without entries (what main.cpp:93-95 splines after a failed load) is accepted only when the corner scan margin is above 0, as it is by default (3). With a margin of 0 the scan has a position at t = 0, and the source asks an empty map for a tangent there (undefined behaviour).
- ArcSplines.OrderedCornersGiveValidGaps: the corners findCorners reduces are not proved to be in order. Each one moves to a point within the padding (twice the spread), while runs are merged only when at most `maxDistBetweenCornersToMerge` apart, so two runs can swap (ArcSplines.ReducedCornersMayCross). The range ArcSpline.cpp:50 then builds has start > end. A debug build stops at the `Range` assertion (Common.h:59); the model's range and a release build's have length 0, so the gap is skipped. The crossing is shown for line queries chosen freely, not for the tangents and points of an actual stroke. Validity is proved for corners in order (ArcSplines.OrderedCornersGiveValidGaps).
- Geometry.SingleArcParams: when v.t0 == 0 the source divides by zero and pushes an infinite or NaN d0. The model pushes nothing there.
- Geometry.FindPossibleBiarcParams: `ME_ASSERT(false)` and `ME_ASSERT(foundSolution)` get release semantics. The loop goes on, and `foundSolution` feeds nothing but the assertion. The `numResults > 1` case requires `rLower != 0`, because `rUpper / rLower` is evaluated there.
- Geometry.IterationParams: in the linear fallback (no solution found and |v.t1| > FLT_MIN) with b == 0 and v != 0, the source computes d1 = -c/b = +inf, passes `EPS < d1` and pushes (r inf, inf). The model pushes nothing there.
- Geometry.FindPossibleBiarcParams: inherits the b == 0 drop of IterationParams in each pass of the loop.
- Geometry.Biarc.MidPoint and Geometry.Biarc.MidWeight: a zero denominator d0 + d1 + FLT_MIN (possible only for d0 + d1 == -FLT_MIN) gives weight 0 in the model, where the source divides by zero.
- Geometry.Line.FromPointAndNormal: the unit-normal assertion is not required. Properties that need a unit normal state it as a hypothesis.
- Memory: object lifetime, `delete` and `reserve` are not modelled. "delete this" becomes the `deleted` flag of RefCounting.RefCounted. The spline's `ref` holders are plain references, and the pipeline's shapes are values.
- The drawing code, tweak UI and program entry (ShapeDrawer, TweakUtil, main) are not part of this model.

## Findings

| source | as written | input that shows it | evidently intended | confidence | as-written member | corrected member |
|---|---|---|---|---|---|---|
| ArcSpline.cpp:52 | a gap becomes a segment when it is longer than MAX_SPLINE_GAP and isSegment accepts it; when the stroke returns to where the gap started, between() gets a zero direction, the test line becomes 0 = 0, the error is 0 and the gap is always accepted | with the default segment settings, a stroke running 100 units along x up to t = 20 and back by t = 40, and the gap [0, 40] | a gap whose end points coincide is not a straight segment; the guard also requires the end points to be more than Epsilon apart | not executed | ArcSplines.OutAndBackAcceptedAsWritten | ArcSplines.SegmentTestUnitChord |
| ArcSplineUtil.cpp:36 | a negative sample keeps the running section when its length reaches minNumberTestPositivesInSeries; an invalidated section has length 0, so a minimum of 0 keeps it | minNumberTestPositivesInSeries = 0 and a first scan position that is not a corner: the range {FLT_MAX, -FLT_MAX} is recorded as a corner run | only a section that has seen a positive sample is kept | not executed; the default minimum is 2 | ArcSplineUtil.ZeroMinimumRecordsInvalidRange | ArcSplineUtil.CloseSection |
