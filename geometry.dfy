/**
 * Basic shapes of the vectoriser: the infinite line in normal form, the
 * circle, the tagged union of the two that a biarc caches, and the biarc
 * with the search for its d0/d1 parameters. Every shape measures a signed
 * distance to a point; that is how a fit is scored against the input line.
 */
module Geometry {
  import opened Common
  import opened Vectors

  /** The line a*x + b*y + c = 0; (a, b) is its normal. */
  datatype Line = Line(a: real, b: real, c: real)
  {
    /**
     * fromPointAndNormal: the line with the given normal through `point`. Its
     * unit-normal check (to 1e-4) is a debug assertion; the lemmas that need a
     * unit normal take it as a hypothesis.
     */
    static function FromPointAndNormal(point: Vector2, normal: Vector2): (l: Line)
      ensures l.Normal() == normal
      ensures l.SignedDistTo(point) == 0.0
    {
      Line(normal.x, normal.y, -normal.Dot(point))
    }

    /**
     * between(p0, p1): the line through both points, its normal the direction
     * p0 -> p1 turned by a right angle. The normal is a unit vector (to the
     * tolerance fromPointAndNormal checks) when the points are more than
     * Epsilon apart; for coinciding points it is the zero vector.
     */
    static function Between(p0: Vector2, p1: Vector2, sqrt: real -> real): (l: Line)
      requires IsSqrt(sqrt)
      ensures l.SignedDistTo(p0) == 0.0 && l.SignedDistTo(p1) == 0.0
      ensures Epsilon2 < p1.Minus(p0).Norm2() ==> IsEqual(l.Normal().Norm2(), 1.0, 0.0001)
      ensures l.Normal().Dot(p1.Minus(p0)) == 0.0
      ensures p0 == p1 ==> l == Line(0.0, 0.0, 0.0)
    {
      BetweenFacts(p0, p1, sqrt);
      FromPointAndNormal(p0, p0.DirectionTo(p1, sqrt).Rotate90())
    }

    function Normal(): Vector2
    {
      Vector2(a, b)
    }

    /** signedDistTo: the line's equation evaluated at the point. */
    function SignedDistTo(point: Vector2): (d: real)
    {
      Normal().Dot(point) + c
    }

    /** project: moves the point along the normal by its signed distance. */
    function Project(point: Vector2): Vector2
    {
      point.Minus(Normal().Times(SignedDistTo(point)))
    }
  }

  /** The direction from a point to itself is the zero vector. */
  lemma ZeroDirection(p: Vector2, sqrt: real -> real)
    requires IsSqrt(sqrt)
    ensures p.DirectionTo(p, sqrt) == Zero && Zero.Rotate90() == Zero
  {
    assert p.Minus(p) == Zero;
    NormalizedFacts(Zero, sqrt);
  }

  /** The properties of Line::between, stated for its formula. */
  lemma BetweenFacts(p0: Vector2, p1: Vector2, sqrt: real -> real)
    requires IsSqrt(sqrt)
    ensures var l := Line.FromPointAndNormal(p0, p0.DirectionTo(p1, sqrt).Rotate90());
            l.SignedDistTo(p0) == 0.0 && l.SignedDistTo(p1) == 0.0 &&
            (Epsilon2 < p1.Minus(p0).Norm2() ==> IsEqual(l.Normal().Norm2(), 1.0, 0.0001)) &&
            l.Normal().Dot(p1.Minus(p0)) == 0.0 &&
            (p0 == p1 ==> l == Line(0.0, 0.0, 0.0))
  {
    BetweenThrough(p0, p1, sqrt);
    if Epsilon2 < p1.Minus(p0).Norm2() {
      BetweenUnit(p0, p1, sqrt);
    }
    if p0 == p1 {
      BetweenSamePoint(p0, sqrt);
    }
  }

  lemma BetweenThrough(p0: Vector2, p1: Vector2, sqrt: real -> real)
    requires IsSqrt(sqrt)
    ensures var l := Line.FromPointAndNormal(p0, p0.DirectionTo(p1, sqrt).Rotate90());
            l.SignedDistTo(p0) == 0.0 && l.SignedDistTo(p1) == 0.0 && l.Normal().Dot(p1.Minus(p0)) == 0.0
  {
    var dir := p0.DirectionTo(p1, sqrt);
    Rotate90Perpendicular(dir);
    BetweenPerpendicular(p0, p1, sqrt);
    DotLinear(p1, p0, dir.Rotate90(), 0.0);
    CrossAntisymmetric(p1, dir.Rotate90());
    CrossAntisymmetric(p0, dir.Rotate90());
    CrossAntisymmetric(p1.Minus(p0), dir.Rotate90());
  }

  lemma BetweenUnit(p0: Vector2, p1: Vector2, sqrt: real -> real)
    requires IsSqrt(sqrt) && Epsilon2 < p1.Minus(p0).Norm2()
    ensures IsEqual(Line.FromPointAndNormal(p0, p0.DirectionTo(p1, sqrt).Rotate90()).Normal().Norm2(), 1.0, 0.0001)
  {
    NormalizedIsNearlyUnit(p1.Minus(p0), sqrt);
  }

  lemma BetweenSamePoint(p: Vector2, sqrt: real -> real)
    requires IsSqrt(sqrt)
    ensures Line.FromPointAndNormal(p, p.DirectionTo(p, sqrt).Rotate90()) == Line(0.0, 0.0, 0.0)
  {
    ZeroDirection(p, sqrt);
    ZeroDot(p);
  }

  lemma ZeroDot(p: Vector2)
    ensures Line.FromPointAndNormal(p, Zero) == Line(0.0, 0.0, 0.0)
  {
    assert Zero.Dot(p) == 0.0 * p.x + 0.0 * p.y;
  }

  /** The normal of between(p0, p1) is perpendicular to p1 - p0. */
  lemma BetweenPerpendicular(p0: Vector2, p1: Vector2, sqrt: real -> real)
    requires IsSqrt(sqrt)
    ensures p0.DirectionTo(p1, sqrt).Rotate90().Dot(p1.Minus(p0)) == 0.0
  {
    var v := p1.Minus(p0);
    var k := v.Norm(sqrt) + FltMin;
    var w := v.Div(k);
    assert w == v.Times(1.0 / k);
    Rotate90Perpendicular(v);
    assert w.Rotate90() == v.Rotate90().Times(1.0 / k);
    DotLinear(v.Rotate90(), v, v, 1.0 / k);
    assert v.Rotate90().Dot(v) == 0.0;
  }

  /**
   * The signed distance of a projected point is the original one times
   * 1 - |normal|^2: zero for a unit normal, so project lands on the line.
   */
  lemma ProjectOnLine(l: Line, point: Vector2)
    ensures l.SignedDistTo(l.Project(point)) == l.SignedDistTo(point) * (1.0 - l.Normal().Norm2())
    ensures l.Normal().Norm2() == 1.0 ==> l.SignedDistTo(l.Project(point)) == 0.0
    ensures l.Project(point).Minus(point).Cross(l.Normal()) == 0.0
  {
    var n := l.Normal();
    var d := l.SignedDistTo(point);
    DotLinear(point, n.Times(d), n, d);
    DotLinear(n, n, n, d);
    CrossAntisymmetric(point, n);
    CrossAntisymmetric(l.Project(point), n);
    assert n.Dot(n) == n.Norm2();
    assert l.Project(point).Minus(point) == n.Times(-d);
  }

  /** The signed distance to a line changes linearly along the normal. */
  lemma SignedDistAlongNormal(l: Line, point: Vector2, s: real)
    ensures l.SignedDistTo(point.Plus(l.Normal().Times(s))) == l.SignedDistTo(point) + s * l.Normal().Norm2()
  {
    var n := l.Normal();
    DotLinear(point, n.Times(s), n, s);
    DotLinear(n, n, n, s);
    CrossAntisymmetric(point, n);
    CrossAntisymmetric(point.Plus(n.Times(s)), n);
    CrossAntisymmetric(n.Times(s), n);
    assert n.Dot(n) == n.Norm2();
  }

  datatype Circle = Circle(x: real, y: real, radius: real)
  {
    function Center(): Vector2
    {
      Vector2(x, y)
    }

    /** signedDistTo: the distance to the centre minus the radius. */
    function SignedDistTo(point: Vector2, sqrt: real -> real): (d: real)
      requires IsSqrt(sqrt)
      ensures -radius <= d
    {
      point.Minus(Center()).Norm(sqrt) - radius
    }
  }

  /**
   * CircleOrLine: the tag and its payload. A default-constructed value is
   * Invalid; setCircle and setLine give the other two.
   */
  datatype CircleOrLine = Invalid | CircleShape(circle: Circle) | LineShape(line: Line)
  {
    /** signedDistTo dispatches on the tag; an invalid shape is A_LOT away. */
    function SignedDistTo(point: Vector2, sqrt: real -> real): (d: real)
      requires IsSqrt(sqrt)
      ensures CircleShape? ==> d == circle.SignedDistTo(point, sqrt)
      ensures LineShape? ==> d == line.SignedDistTo(point)
      ensures Invalid? ==> d == ALot
    {
      match this
      case CircleShape(circle) => circle.SignedDistTo(point, sqrt)
      case LineShape(line) => line.SignedDistTo(point)
      case Invalid => ALot
    }
  }

  /** The chord below which fitCircleOrLine gives up and returns a zero circle. */
  function ChordNorm2(point0: Vector2, point1: Vector2): real
  {
    point1.Minus(point0).Norm2()
  }

  /**
   * fitCircleOrLine: the circle through point0 (tangent to tangent0 there)
   * and point1 when it is small enough, otherwise the line through both; for
   * coinciding points the zero circle at point0.
   */
  function FitCircleOrLine(point0: Vector2, tangent0: Vector2, point1: Vector2, sqrt: real -> real): (r: CircleOrLine)
    requires IsSqrt(sqrt)
    ensures !r.Invalid?
    ensures ChordNorm2(point0, point1) <= Epsilon2 ==> r == CircleShape(Circle(point0.x, point0.y, 0.0))
    ensures Epsilon2 < ChordNorm2(point0, point1) && r.CircleShape? ==>
      CircleAccepted(r.circle.radius, ChordNorm2(point0, point1))
    ensures Epsilon2 < ChordNorm2(point0, point1) && r.LineShape? ==> r.line == Line.Between(point0, point1, sqrt)
  {
    var pNorm2 := ChordNorm2(point0, point1);
    if pNorm2 > Epsilon2 then
      match FittedCircle(point0, tangent0, point1, sqrt)
      case Some(circle) => CircleShape(circle)
      case None => LineShape(Line.Between(point0, point1, sqrt))
    else
      CircleShape(Circle(point0.x, point0.y, 0.0))
  }

  datatype Option<T> = None | Some(value: T)

  /** A fitted circle is kept only when its radius is at most MaxArcRadius and below 1000 chord lengths. */
  predicate CircleAccepted(radius: real, chordNorm2: real)
  {
    radius <= MaxArcRadius &&
    radius * radius < MaxArcRadiusToChordLengthRatio * MaxArcRadiusToChordLengthRatio * chordNorm2
  }

  /**
   * The part of fitCircleOrLine that builds a circle: the centre on the line
   * through point0 with normal -tangent0 and on the perpendicular bisector of
   * the chord. None when the lead vector is degenerate or the circle too large.
   */
  function FittedCircle(point0: Vector2, tangent0: Vector2, point1: Vector2, sqrt: real -> real): (r: Option<Circle>)
    requires IsSqrt(sqrt)
    ensures r.Some? ==> Epsilon2 < Lead(point0, tangent0, point1).Norm2()
    ensures r.Some? ==> r.value.Center() == FitCentre(point0, tangent0, point1)
    ensures r.Some? ==> r.value.radius == r.value.Center().Minus(point0).Norm(sqrt)
    ensures r.Some? ==> CircleAccepted(r.value.radius, ChordNorm2(point0, point1))
  {
    if Lead(point0, tangent0, point1).Norm2() > Epsilon2 then
      var center := FitCentre(point0, tangent0, point1);
      var radius := center.Minus(point0).Norm(sqrt);
      if CircleAccepted(radius, ChordNorm2(point0, point1)) then Some(Circle(center.x, center.y, radius))
      else None
    else None
  }

  /** line0 of fitCircleOrLine: through point0, with normal -tangent0. */
  function TangentNormalLine(point0: Vector2, tangent0: Vector2): (l: Line)
    ensures l.SignedDistTo(point0) == 0.0
  {
    Line.FromPointAndNormal(point0, tangent0.Neg())
  }

  function Mid(point0: Vector2, point1: Vector2): Vector2
  {
    point0.Plus(point1).Times(0.5)
  }

  /** The chord midpoint projected onto line0, relative to point0. */
  function Lead(point0: Vector2, tangent0: Vector2, point1: Vector2): Vector2
  {
    TangentNormalLine(point0, tangent0).Project(Mid(point0, point1)).Minus(point0)
  }

  /** The circle centre: the projection pushed along the lead by dist^2 / |lead|^2. */
  function FitCentre(point0: Vector2, tangent0: Vector2, point1: Vector2): Vector2
    requires Epsilon2 < Lead(point0, tangent0, point1).Norm2()
  {
    TangentNormalLine(point0, tangent0).Project(Mid(point0, point1))
      .Plus(Lead(point0, tangent0, point1).Times(LeadScale(point0, tangent0, point1)))
  }

  function LeadScale(point0: Vector2, tangent0: Vector2, point1: Vector2): real
    requires Epsilon2 < Lead(point0, tangent0, point1).Norm2()
  {
    var dist := TangentNormalLine(point0, tangent0).SignedDistTo(Mid(point0, point1));
    dist * dist / Lead(point0, tangent0, point1).Norm2()
  }

  /** Relative to a point on the line, the signed distance is the normal's dot product with the offset. */
  lemma SignedDistFromPointOnLine(l: Line, base: Vector2, q: Vector2)
    requires l.SignedDistTo(base) == 0.0
    ensures l.SignedDistTo(q) == l.Normal().Dot(q.Minus(base))
  {
    DotLinear(q, base, l.Normal(), 0.0);
    CrossAntisymmetric(q.Minus(base), l.Normal());
    CrossAntisymmetric(q, l.Normal());
    CrossAntisymmetric(base, l.Normal());
  }

  /**
   * For a unit tangent the fitted centre lies on the line through point0
   * perpendicular to tangent0, as the centre of a circle tangent to
   * tangent0 at point0 must.
   */
  lemma CentreOnNormalLine(point0: Vector2, tangent0: Vector2, point1: Vector2)
    requires tangent0.Neg().Norm2() == 1.0
    requires Epsilon2 < Lead(point0, tangent0, point1).Norm2()
    ensures FitCentre(point0, tangent0, point1).Minus(point0).Dot(tangent0) == 0.0
  {
    var lead := Lead(point0, tangent0, point1);
    var k := LeadScale(point0, tangent0, point1);
    LeadPerpendicular(point0, tangent0, point1);
    DotNeg(lead, tangent0);
    CentreOffsets(point0, point1, tangent0.Neg(), TangentNormalLine(point0, tangent0).SignedDistTo(Mid(point0, point1)), k,
      TangentNormalLine(point0, tangent0).Project(Mid(point0, point1)), lead);
    DotLinear(lead.Times(1.0), lead.Times(k), tangent0, k);
    DotLinear(lead, lead, tangent0, k);
    DotLinear(lead, lead, tangent0, 1.0);
  }

  /** For a unit normal the lead runs along line0, perpendicular to its normal. */
  lemma LeadPerpendicular(point0: Vector2, tangent0: Vector2, point1: Vector2)
    requires tangent0.Neg().Norm2() == 1.0
    ensures Lead(point0, tangent0, point1).Dot(tangent0.Neg()) == 0.0
  {
    var line0 := TangentNormalLine(point0, tangent0);
    var mid := Mid(point0, point1);
    ProjectOnLine(line0, mid);
    SignedDistFromPointOnLine(line0, point0, line0.Project(mid));
    CrossAntisymmetric(Lead(point0, tangent0, point1), tangent0.Neg());
  }

  /**
   * For a unit tangent the fitted centre is as far from point1 as from
   * point0: the circle passes through both ends of the chord.
   */
  lemma CentreEquidistant(point0: Vector2, tangent0: Vector2, point1: Vector2)
    requires tangent0.Neg().Norm2() == 1.0
    requires Epsilon2 < Lead(point0, tangent0, point1).Norm2()
    ensures FitCentre(point0, tangent0, point1).Minus(point1).Norm2() ==
            FitCentre(point0, tangent0, point1).Minus(point0).Norm2()
  {
    var line0 := TangentNormalLine(point0, tangent0);
    var n := tangent0.Neg();
    var mid := Mid(point0, point1);
    var d := line0.SignedDistTo(mid);
    var lead := Lead(point0, tangent0, point1);
    var k := LeadScale(point0, tangent0, point1);
    var centre := FitCentre(point0, tangent0, point1);
    assert k == d * d / lead.Norm2();
    assert lead.Dot(n) == 0.0 by {
      LeadPerpendicular(point0, tangent0, point1);
    }
    assert centre.Minus(point0) == lead.Times(1.0).Plus(lead.Times(k)) &&
           centre.Minus(point1) == lead.Times(k - 1.0).Plus(n.Times(-2.0 * d)) by {
      assert line0.Normal() == n;
      CentreOffsets(point0, point1, n, d, k, line0.Project(mid), lead);
    }
    EquidistantFromOffsets(centre, point0, point1, lead, n, k, d);
  }

  lemma EquidistantFromOffsets(centre: Vector2, p0: Vector2, p1: Vector2, lead: Vector2, n: Vector2, k: real, d: real)
    requires 0.0 < lead.Norm2() && k == d * d / lead.Norm2()
    requires lead.Dot(n) == 0.0 && n.Norm2() == 1.0
    requires centre.Minus(p0) == lead.Times(1.0).Plus(lead.Times(k))
    requires centre.Minus(p1) == lead.Times(k - 1.0).Plus(n.Times(-2.0 * d))
    ensures centre.Minus(p1).Norm2() == centre.Minus(p0).Norm2()
  {
    var w := lead.Norm2();
    assert lead.Dot(lead) == w;
    Norm2Combination(lead, lead, 1.0, k, w, w, w);
    Norm2Combination(lead, n, k - 1.0, -2.0 * d, w, 0.0, 1.0);
    EquidistantScalars(w, d, k, 0.0, 1.0);
  }

  /** The centre relative to both chord ends, as combinations of the lead and the normal. */
  lemma CentreOffsets(p0: Vector2, p1: Vector2, n: Vector2, d: real, k: real, proj: Vector2, lead: Vector2)
    requires proj == p0.Plus(p1).Times(0.5).Minus(n.Times(d))
    requires lead == proj.Minus(p0)
    ensures proj.Plus(lead.Times(k)).Minus(p0) == lead.Times(1.0).Plus(lead.Times(k))
    ensures proj.Plus(lead.Times(k)).Minus(p1) == lead.Times(k - 1.0).Plus(n.Times(-2.0 * d))
  {
  }

  lemma EquidistantScalars(w: real, d: real, k: real, ln: real, nn: real)
    requires 0.0 < w && k == d * d / w && ln == 0.0 && nn == 1.0
    ensures 1.0 * 1.0 * w + 2.0 * 1.0 * k * w + k * k * w ==
            (k - 1.0) * (k - 1.0) * w + 2.0 * (k - 1.0) * (-2.0 * d) * ln + (-2.0 * d) * (-2.0 * d) * nn
  {
    assert k * w == d * d;
  }

  /** A point at distance radius from the centre is on the circle. */
  lemma OnCircle(c: Circle, p: Vector2, sqrt: real -> real)
    requires IsSqrt(sqrt) && p.Minus(c.Center()).Norm(sqrt) == c.radius
    ensures c.SignedDistTo(p, sqrt) == 0.0
  {
  }

  /**
   * For a unit tangent, the circle fitCircleOrLine accepts passes exactly
   * through both given points (the source asserts both distances are below
   * MaxSplineGap).
   */
  lemma FittedCircleThroughEnds(point0: Vector2, tangent0: Vector2, point1: Vector2, sqrt: real -> real)
    requires IsSqrt(sqrt) && tangent0.Neg().Norm2() == 1.0
    requires FittedCircle(point0, tangent0, point1, sqrt).Some?
    ensures FittedCircle(point0, tangent0, point1, sqrt).value.SignedDistTo(point0, sqrt) == 0.0
    ensures FittedCircle(point0, tangent0, point1, sqrt).value.SignedDistTo(point1, sqrt) == 0.0
  {
    var c := FittedCircle(point0, tangent0, point1, sqrt).value;
    var centre := c.Center();
    assert centre.Minus(point1).Norm2() == centre.Minus(point0).Norm2() by {
      CentreEquidistant(point0, tangent0, point1);
    }
    NormSymmetric(point0, centre, sqrt);
    NormSymmetric(point1, centre, sqrt);
    NormDef(centre.Minus(point1), sqrt);
    NormDef(centre.Minus(point0), sqrt);
    OnCircle(c, point0, sqrt);
    OnCircle(c, point1, sqrt);
  }

  /**
   * The two closing assertions of fitCircleOrLine hold for a unit tangent:
   * every result passes exactly through point0; a circle or line fitted to
   * a proper chord passes through point1 too, and the zero circle is within
   * Epsilon of it.
   */
  lemma FitPassesThroughEnds(point0: Vector2, tangent0: Vector2, point1: Vector2, sqrt: real -> real)
    requires IsSqrt(sqrt) && tangent0.Neg().Norm2() == 1.0
    ensures FitCircleOrLine(point0, tangent0, point1, sqrt).SignedDistTo(point0, sqrt) == 0.0
    ensures Epsilon2 < ChordNorm2(point0, point1) ==>
      FitCircleOrLine(point0, tangent0, point1, sqrt).SignedDistTo(point1, sqrt) == 0.0
    ensures ChordNorm2(point0, point1) <= Epsilon2 ==>
      0.0 <= FitCircleOrLine(point0, tangent0, point1, sqrt).SignedDistTo(point1, sqrt) <= Epsilon
  {
    var r := FitCircleOrLine(point0, tangent0, point1, sqrt);
    if Epsilon2 < ChordNorm2(point0, point1) {
      var fitted := FittedCircle(point0, tangent0, point1, sqrt);
      if fitted.Some? {
        assert r == CircleShape(fitted.value);
        FittedCircleThroughEnds(point0, tangent0, point1, sqrt);
      } else {
        assert r == LineShape(Line.Between(point0, point1, sqrt));
      }
    } else {
      ZeroCircleThroughCentre(point0, sqrt);
      ZeroCircleDist(point0, point1, sqrt);
    }
  }

  /** The zero circle at point0 passes through point0. */
  lemma ZeroCircleThroughCentre(point0: Vector2, sqrt: real -> real)
    requires IsSqrt(sqrt)
    ensures Circle(point0.x, point0.y, 0.0).SignedDistTo(point0, sqrt) == 0.0
  {
    var c := Circle(point0.x, point0.y, 0.0);
    assert c.Center() == point0;
    assert point0.Minus(point0).Norm(sqrt) == 0.0 by {
      assert point0.Minus(point0) == Zero;
      ZeroNorm(sqrt);
    }
    OnCircle(c, point0, sqrt);
  }

  /** The distance from the zero circle at point0 is the distance to point0. */
  lemma ZeroCircleDist(point0: Vector2, point1: Vector2, sqrt: real -> real)
    requires IsSqrt(sqrt) && ChordNorm2(point0, point1) <= Epsilon2
    ensures 0.0 <= Circle(point0.x, point0.y, 0.0).SignedDistTo(point1, sqrt) <= Epsilon
  {
    var v := point1.Minus(point0);
    var c := Circle(point0.x, point0.y, 0.0);
    assert c.Center() == point0;
    NormDef(v, sqrt);
    SqrtMonotone(sqrt, v.Norm2(), Epsilon2);
    SqrtOfSquare(sqrt, Epsilon);
    assert c.SignedDistTo(point1, sqrt) == v.Norm(sqrt) - 0.0;
  }

  /** The pair of parameters (d0, d1): how far the control points sit along the end tangents. */
  datatype DParam = DParam(d0: real, d1: real)

  /**
   * A biarc from point0 to point1 with the given end tangents: two arcs (or
   * segments) that meet at the mid-point. divLine, shape0 and shape1 are the
   * helpers calcCachedShapes fills in.
   */
  datatype Biarc = Biarc(point0: Vector2, tangent0: Vector2, point1: Vector2, tangent1: Vector2,
                         param: DParam, divLine: Line, shape0: CircleOrLine, shape1: CircleOrLine)
  {
    /** q0: the control point d0 along the start tangent. */
    function Q0(): Vector2
    {
      point0.Plus(tangent0.Times(param.d0))
    }

    /** q1: the control point d1 back along the end tangent. */
    function Q1(): Vector2
    {
      point1.Minus(tangent1.Times(param.d1))
    }

    /**
     * The interpolation weight of the mid-point, d0 / (d0 + d1 + FLT_MIN).
     * A zero denominator (IEEE infinity or NaN) gives weight 0 here.
     */
    function MidWeight(): real
    {
      var den := param.d0 + param.d1 + FltMin;
      if den == 0.0 then 0.0 else param.d0 / den
    }

    /** midPoint(): where the two arcs meet, on the segment q0 -> q1. */
    function MidPoint(): (m: Vector2)
      ensures m == Q0().Plus(Q1().Minus(Q0()).Times(MidWeight()))
    {
      Vector2.Interpolate(Q0(), Q1(), MidWeight())
    }

    /**
     * midTangent(): the direction q0 -> q1, a unit vector (to 1e-4) when the
     * control points are more than Epsilon apart and never longer than 1.
     * Its d0/d1 sign check is a debug assertion.
     */
    function MidTangent(sqrt: real -> real): (t: Vector2)
      requires IsSqrt(sqrt)
      ensures Epsilon2 < Q1().Minus(Q0()).Norm2() ==> IsEqual(t.Norm2(), 1.0, 0.0001)
      ensures t.Norm2() <= 1.0
    {
      var t := Q0().DirectionTo(Q1(), sqrt);
      NormalizedFacts(Q1().Minus(Q0()), sqrt);
      if Epsilon2 < Q1().Minus(Q0()).Norm2() then
        NormalizedIsNearlyUnit(Q1().Minus(Q0()), sqrt);
        t
      else
        t
    }

    /**
     * calcCachedShapes(): fits shape0 from point0 and shape1 from point1 to
     * the mid-point, each tangent to its end tangent, and puts divLine through
     * the mid-point across the mid tangent. Both shapes come out valid, which
     * is what the source asserts; nothing else changes.
     */
    function CalcCachedShapes(sqrt: real -> real): (r: Biarc)
      requires IsSqrt(sqrt)
      ensures r.point0 == point0 && r.tangent0 == tangent0 && r.point1 == point1 && r.tangent1 == tangent1
      ensures r.param == param
      ensures !r.shape0.Invalid? && !r.shape1.Invalid?
      ensures r.shape0 == FitCircleOrLine(point0, tangent0, MidPoint(), sqrt)
      ensures r.shape1 == FitCircleOrLine(point1, tangent1, MidPoint(), sqrt)
      ensures r.divLine.Normal() == MidTangent(sqrt) && r.divLine.SignedDistTo(MidPoint()) == 0.0
      ensures r.MidPoint() == MidPoint()
    {
      var mid := MidPoint();
      this.(shape0 := FitCircleOrLine(point0, tangent0, mid, sqrt),
            shape1 := FitCircleOrLine(point1, tangent1, mid, sqrt),
            divLine := Line.FromPointAndNormal(mid, MidTangent(sqrt)))
    }

    /**
     * Which shape signedDistTo measures against: the second one exactly when
     * the sign of divLine(point0) * divLine(point) * d1 is negative, that is,
     * for d1 > 0, when the point lies strictly on the other side of divLine
     * from point0.
     */
    predicate OnSecondHalf(point: Vector2)
    {
      Sign(divLine.SignedDistTo(point0)) * Sign(divLine.SignedDistTo(point)) * Sign(param.d1) < 0
    }

    /** signedDistTo(point): the signed distance to the shape of the half the point is on. */
    function SignedDistTo(point: Vector2, sqrt: real -> real): real
      requires IsSqrt(sqrt)
    {
      var sign := divLine.SignedDistTo(point0) * divLine.SignedDistTo(point) * param.d1;
      if sign >= 0.0 then shape0.SignedDistTo(point, sqrt) else shape1.SignedDistTo(point, sqrt)
    }
  }

  /** A biarc's signed distance is that of shape1 on the second half and of shape0 elsewhere. */
  lemma BiarcHalves(b: Biarc, point: Vector2, sqrt: real -> real)
    requires IsSqrt(sqrt)
    ensures b.OnSecondHalf(point) ==> b.SignedDistTo(point, sqrt) == b.shape1.SignedDistTo(point, sqrt)
    ensures !b.OnSecondHalf(point) ==> b.SignedDistTo(point, sqrt) == b.shape0.SignedDistTo(point, sqrt)
  {
    var s0 := b.divLine.SignedDistTo(b.point0);
    var sp := b.divLine.SignedDistTo(point);
    ProductSign(s0, sp);
    ProductSign(s0 * sp, b.param.d1);
  }

  /**
   * point0 is never on the second half (for d1 >= 0), and for d1 = 0, the
   * single-arc case, no point is: the whole biarc is measured against shape0.
   */
  lemma BiarcFirstHalf(b: Biarc, point: Vector2)
    requires 0.0 <= b.param.d1
    ensures !b.OnSecondHalf(b.point0)
    ensures b.param.d1 == 0.0 ==> !b.OnSecondHalf(point)
  {
  }

  /** For non-negative d0 and d1 the mid-point lies on the segment q0 -> q1, short of q1. */
  lemma MidPointBetweenControlPoints(b: Biarc)
    requires 0.0 <= b.param.d0 && 0.0 <= b.param.d1
    ensures 0.0 <= b.MidWeight() < 1.0
  {
    FractionBelowOne(b.param.d0, b.param.d0 + b.param.d1 + FltMin);
  }

  /**
   * With d1 = 0 the end control point is point1 itself, and the mid-point sits
   * on the leg from point1 to q0 at the fraction FLT_MIN / (d0 + FLT_MIN) of it:
   * the second arc shrinks to nothing next to point1.
   */
  lemma MidPointOfSingleArc(b: Biarc)
    requires b.param.d1 == 0.0 && b.param.d0 + FltMin != 0.0
    ensures b.Q1() == b.point1
    ensures b.MidPoint().Minus(b.point1) == b.Q0().Minus(b.point1).Times(FltMin / (b.param.d0 + FltMin))
  {
    var d0 := b.param.d0;
    assert b.tangent1.Times(0.0) == Zero;
    var w := b.MidWeight();
    assert w == d0 / (d0 + FltMin);
    WeightComplement(d0, FltMin, d0 + FltMin, w);
    var q0 := b.Q0();
    var p1 := b.point1;
    assert b.MidPoint() == q0.Plus(p1.Minus(q0).Times(w));
    InterpolateFromEnd(q0, p1, w, FltMin / (d0 + FltMin));
  }

  lemma WeightComplement(d0: real, f: real, den: real, w: real)
    requires den == d0 + f && den != 0.0 && w == d0 / den
    ensures 1.0 - w == f / den
  {
    assert d0 / den + f / den == (d0 + f) / den;
  }

  lemma InterpolateFromEnd(a: Vector2, b: Vector2, w: real, u: real)
    requires u == 1.0 - w
    ensures a.Plus(b.Minus(a).Times(w)).Minus(b) == a.Minus(b).Times(u)
  {
  }

  /**
   * Both cached shapes pass through their own end point, and through the
   * mid-point whenever it is more than Epsilon away from that end: the two
   * arcs of the biarc join there. Tangents of unit length are assumed.
   */
  lemma CachedShapesJoinAtMidPoint(b: Biarc, sqrt: real -> real)
    requires IsSqrt(sqrt)
    requires b.tangent0.Neg().Norm2() == 1.0 && b.tangent1.Neg().Norm2() == 1.0
    ensures b.CalcCachedShapes(sqrt).shape0.SignedDistTo(b.point0, sqrt) == 0.0
    ensures b.CalcCachedShapes(sqrt).shape1.SignedDistTo(b.point1, sqrt) == 0.0
    ensures Epsilon2 < ChordNorm2(b.point0, b.MidPoint()) ==>
      b.CalcCachedShapes(sqrt).shape0.SignedDistTo(b.MidPoint(), sqrt) == 0.0
    ensures Epsilon2 < ChordNorm2(b.point1, b.MidPoint()) ==>
      b.CalcCachedShapes(sqrt).shape1.SignedDistTo(b.MidPoint(), sqrt) == 0.0
  {
    FitPassesThroughEnds(b.point0, b.tangent0, b.MidPoint(), sqrt);
    FitPassesThroughEnds(b.point1, b.tangent1, b.MidPoint(), sqrt);
  }

  /** The quadratic a*x^2 + b*x + c in one unknown. */
  datatype Quadratic = Quadratic(a: real, b: real, c: real)
  {
    function At(x: real): real
    {
      a * x * x + b * x + c
    }

    function Discriminant(): real
    {
      b * b - 4.0 * a * c
    }

    /** The larger of the two roots the formula gives, std::fmax(sol0, sol1). */
    function LargerRoot(sqrt: real -> real): real
      requires IsSqrt(sqrt) && a != 0.0 && 0.0 <= Discriminant()
    {
      var ds := sqrt(Discriminant());
      Max((-b - ds) / (2.0 * a), (-b + ds) / (2.0 * a))
    }
  }

  /**
   * The equation findPossibleBiarcParams solves for d1 at ratio r = d0 / d1,
   * with v = point1 - point0: a = r (1 - t0.t1), b = v.(r t0 + t1), c = -v.v / 2.
   */
  function BiarcQuadratic(v: Vector2, t0: Vector2, t1: Vector2, r: real): Quadratic
  {
    Quadratic(r * (1.0 - t0.Dot(t1)), v.Dot(t0.Times(r).Plus(t1)), -0.5 * v.Dot(v))
  }

  /**
   * The d1 of one loop iteration, or None when the iteration produces no pair:
   * the quadratic case with a negative discriminant or a negative larger root
   * (the "safe exit"), and the linear case with b = 0, where IEEE division
   * would give an infinite d1. Otherwise the larger root when it is below
   * MAX_D_PARAM; failing that, -c/b when v is not perpendicular to t1; and
   * failing that the marker -1 (or the large root), which the threshold on
   * d1 then filters.
   */
  function IterationD1(v: Vector2, t0: Vector2, t1: Vector2, r: real, sqrt: real -> real): Option<real>
    requires IsSqrt(sqrt)
  {
    ChooseD1(BiarcQuadratic(v, t0, t1, r), v.Dot(t1), sqrt)
  }

  /** The choice of d1 from the quadratic q, where vt1 = v.t1 decides whether the linear fallback applies. */
  function ChooseD1(q: Quadratic, vt1: real, sqrt: real -> real): Option<real>
    requires IsSqrt(sqrt)
  {
    var quadratic := Abs(q.a) > Epsilon;
    if quadratic && (q.Discriminant() < 0.0 || q.LargerRoot(sqrt) < 0.0) then None
    else
      var d1 := if quadratic then q.LargerRoot(sqrt) else -1.0;
      var found := quadratic && d1 < MaxDParam;
      if !found && Abs(vt1) > FltMin then
        if q.b == 0.0 then None else Some(-q.c / q.b)
      else Some(d1)
  }

  /**
   * A chosen d1 is the greatest root of a quadratic with |a| > Epsilon, or
   * the root of the linear part b d1 + c when v is not perpendicular to t1,
   * or else the marker -1.
   */
  lemma ChosenD1Solves(q: Quadratic, vt1: real, sqrt: real -> real)
    requires IsSqrt(sqrt) && ChooseD1(q, vt1, sqrt).Some?
    ensures var d1 := ChooseD1(q, vt1, sqrt).value;
      (Abs(q.a) > Epsilon && 0.0 <= q.Discriminant() && d1 == q.LargerRoot(sqrt) && q.At(d1) == 0.0) ||
      (Abs(vt1) > FltMin && q.b != 0.0 && q.b * d1 + q.c == 0.0) ||
      (Abs(q.a) <= Epsilon && Abs(vt1) <= FltMin && d1 == -1.0)
  {
    var d1 := ChooseD1(q, vt1, sqrt).value;
    var quadratic := Abs(q.a) > Epsilon;
    var found := quadratic && q.LargerRoot(sqrt) < MaxDParam;
    if !found && Abs(vt1) > FltMin {
      assert q.b != 0.0 && d1 == -q.c / q.b;
      DivCancel(-q.c, q.b);
    } else if quadratic {
      assert d1 == q.LargerRoot(sqrt);
      LargerRootIsGreatest(q, sqrt, 0.0);
    }
  }

  /** The pair one iteration pushes: (r d1, d1) when d1 exceeds Epsilon. */
  function IterationParams(v: Vector2, t0: Vector2, t1: Vector2, r: real, sqrt: real -> real): (ps: seq<DParam>)
    requires IsSqrt(sqrt)
    ensures |ps| <= 1
  {
    match IterationD1(v, t0, t1, r, sqrt)
    case None => []
    case Some(d1) => if Epsilon < d1 then [RatioPair(r, d1)] else []
  }

  /** The pair with d0 = r d1. */
  function RatioPair(r: real, d1: real): (p: DParam)
    ensures p.d1 == d1
  {
    DParam(r * d1, d1)
  }

  /** The j-th ratio of the geometric series r0, r0 * mult, r0 * mult^2, ... */
  function Ratio(r0: real, mult: real, j: nat): real
  {
    if j == 0 then r0 else Ratio(r0, mult, j - 1) * mult
  }

  /** The pairs of the first n iterations, in order. */
  function SeriesParams(v: Vector2, t0: Vector2, t1: Vector2, r0: real, mult: real, n: nat, sqrt: real -> real): seq<DParam>
    requires IsSqrt(sqrt)
  {
    if n == 0 then []
    else SeriesParams(v, t0, t1, r0, mult, n - 1, sqrt) + IterationParams(v, t0, t1, Ratio(r0, mult, n - 1), sqrt)
  }

  /** The ratio series' multiplier: (rUpper / rLower)^(1 / (n - 1 + Epsilon)), or 1 for a single result. */
  function RatioMultiplier(rLower: real, rUpper: real, numResults: int, pow: (real, real) -> real): real
    requires numResults > 1 ==> rLower != 0.0
  {
    if numResults > 1 then pow(rUpper / rLower, 1.0 / ((numResults - 1) as real + Epsilon)) else 1.0
  }

  /** The first ratio: rLower, or 1 (equal arms) for a single result. */
  function FirstRatio(rLower: real, numResults: int): real
  {
    if numResults > 1 then rLower else 1.0
  }

  /**
   * The single-arc pair (d0, 0) with d0 = v.v / (2 v.t0), kept when d0 is
   * not within Epsilon of 0. A zero denominator (IEEE infinity or NaN)
   * gives no pair here.
   */
  function SingleArcParams(v: Vector2, t0: Vector2): (ps: seq<DParam>)
    ensures |ps| <= 1
  {
    var den := 2.0 * v.Dot(t0);
    if den == 0.0 then []
    else
      var d0 := v.Dot(v) / den;
      if !IsEqual(0.0, d0, Epsilon) then [DParam(d0, 0.0)] else []
  }

  /** What findPossibleBiarcParams appends for the biarc's end points and tangents. */
  function PossibleBiarcParams(b: Biarc, rLower: real, rUpper: real, numResults: int, addSingleArcResult: bool,
                               sqrt: real -> real, pow: (real, real) -> real): seq<DParam>
    requires IsSqrt(sqrt)
    requires numResults > 1 ==> rLower != 0.0
  {
    var v := b.point1.Minus(b.point0);
    var n: nat := if numResults < 0 then 0 else numResults;
    SeriesParams(v, b.tangent0, b.tangent1, FirstRatio(rLower, numResults),
                 RatioMultiplier(rLower, rUpper, numResults, pow), n, sqrt)
    + (if addSingleArcResult then SingleArcParams(v, b.tangent0) else [])
  }

  /**
   * findPossibleBiarcParams: walks the ratio series r *= mult for numResults
   * iterations, solving for d1 at each ratio, then adds the single-arc pair
   * when asked. The source appends to a vector it asserts empty; here the
   * pairs are returned.
   */
  method FindPossibleBiarcParams(b: Biarc, rLower: real, rUpper: real, numResults: int, addSingleArcResult: bool,
                                 sqrt: real -> real, pow: (real, real) -> real) returns (result: seq<DParam>)
    requires IsSqrt(sqrt)
    requires numResults > 1 ==> rLower != 0.0
    ensures result == PossibleBiarcParams(b, rLower, rUpper, numResults, addSingleArcResult, sqrt, pow)
  {
    var t0 := b.tangent0;
    var t1 := b.tangent1;
    var v := b.point1.Minus(b.point0);
    result := [];
    var mult := if numResults > 1 then pow(rUpper / rLower, 1.0 / ((numResults - 1) as real + Epsilon)) else 1.0;
    assert mult == RatioMultiplier(rLower, rUpper, numResults, pow);
    var r := if numResults > 1 then rLower else 1.0;
    ghost var r0 := r;
    ghost var n: nat := if numResults < 0 then 0 else numResults;
    var i := 0;
    while i < numResults
      invariant 0 <= i <= n
      invariant r == Ratio(r0, mult, i)
      invariant result == SeriesParams(v, t0, t1, r0, mult, i, sqrt)
    {
      var pushed := SolveIteration(v, t0, t1, r, sqrt);
      result := result + pushed;
      i := i + 1;
      r := r * mult;
    }
    if addSingleArcResult {
      var single := SingleArcResult(v, t0);
      result := result + single;
    }
  }

  /** The single-arc tail of findPossibleBiarcParams: d0 from v.v = 2 d0 v.t0, kept when it is not 0. */
  method SingleArcResult(v: Vector2, t0: Vector2) returns (pushed: seq<DParam>)
    ensures pushed == SingleArcParams(v, t0)
  {
    pushed := [];
    var den := 2.0 * v.Dot(t0);
    if den != 0.0 {
      var d0 := v.Dot(v) / den;
      if !IsEqual(0.0, d0, Epsilon) {
        pushed := [DParam(d0, 0.0)];
      }
    }
  }

  /** One iteration of findPossibleBiarcParams' loop: what it pushes for the ratio r. */
  method SolveIteration(v: Vector2, t0: Vector2, t1: Vector2, r: real, sqrt: real -> real) returns (pushed: seq<DParam>)
    requires IsSqrt(sqrt)
    ensures pushed == IterationParams(v, t0, t1, r, sqrt)
  {
    var q := BiarcQuadratic(v, t0, t1, r);
    var delta := q.Discriminant();
    var d1 := -1.0;
    var skip := false;
    var foundSolution := false;
    if Abs(q.a) > Epsilon {
      if delta >= 0.0 {
        d1 := q.LargerRoot(sqrt);
      }
      if delta < 0.0 || d1 < 0.0 {
        skip := true;
      } else if d1 < MaxDParam {
        foundSolution := true;
      }
    }
    if !skip && !foundSolution && Abs(v.Dot(t1)) > FltMin {
      if q.b == 0.0 {
        skip := true;
      } else {
        d1 := -q.c / q.b;
        foundSolution := d1 < MaxDParam;
      }
    }
    ghost var outcome := IterationD1(v, t0, t1, r, sqrt);
    pushed := [];
    if skip {
      assert outcome.None?;
    } else {
      assert outcome == Some(d1);
      if Epsilon < d1 {
        pushed := [RatioPair(r, d1)];
      }
    }
  }

  /** A product is zero only when a factor is. */
  lemma ZeroProduct(p: real, q: real)
    requires p * q == 0.0
    ensures p == 0.0 || q == 0.0
  {
    ProductSign(p, q);
  }

  lemma DivCancel(n: real, d: real)
    requires d != 0.0
    ensures d * (n / d) == n
  {
  }

  /** Completing the square: 4 a (a y^2 + b y + c) = (2 a y + b)^2 - (b^2 - 4 a c). */
  lemma CompletedSquare(q: Quadratic, y: real, u: real)
    requires u == 2.0 * q.a * y + q.b
    ensures 4.0 * q.a * q.At(y) == u * u - q.Discriminant()
  {
  }

  /** A value with 2 a y + b = +-sqrt(discriminant) is a root. */
  lemma FormulaRoot(q: Quadratic, y: real, ds: real)
    requires q.a != 0.0 && 0.0 <= ds && ds * ds == q.Discriminant()
    requires 2.0 * q.a * y + q.b == ds || 2.0 * q.a * y + q.b == -ds
    ensures q.At(y) == 0.0
  {
    var u := 2.0 * q.a * y + q.b;
    CompletedSquare(q, y, u);
    assert u * u == ds * ds;
    ZeroProduct(4.0 * q.a, q.At(y));
  }

  /**
   * The larger formula root is a root, and no root of the quadratic exceeds
   * it: fmax(sol0, sol1) is the greatest solution.
   */
  lemma LargerRootIsGreatest(q: Quadratic, sqrt: real -> real, y: real)
    requires IsSqrt(sqrt) && q.a != 0.0 && 0.0 <= q.Discriminant()
    ensures q.At(q.LargerRoot(sqrt)) == 0.0
    ensures q.At(y) == 0.0 ==> y <= q.LargerRoot(sqrt)
  {
    var ds := sqrt(q.Discriminant());
    var s0 := (-q.b - ds) / (2.0 * q.a);
    var s1 := (-q.b + ds) / (2.0 * q.a);
    DivCancel(-q.b - ds, 2.0 * q.a);
    DivCancel(-q.b + ds, 2.0 * q.a);
    FormulaRoot(q, s0, ds);
    FormulaRoot(q, s1, ds);
    if q.At(y) == 0.0 {
      var u := 2.0 * q.a * y + q.b;
      CompletedSquare(q, y, u);
      assert (u - ds) * (u + ds) == 0.0 by {
        assert 4.0 * q.a * q.At(y) == 0.0;
        assert (u - ds) * (u + ds) == u * u - ds * ds;
      }
      ZeroProduct(u - ds, u + ds);
      var x := if u == ds then s1 else s0;
      SameSolution(q.a, q.b, y, x, u);
    }
  }

  /** Two unknowns with the same 2 a x + b are equal. */
  lemma SameSolution(a: real, b: real, y: real, x: real, u: real)
    requires a != 0.0 && 2.0 * a * y + b == u && 2.0 * a * x + b == u
    ensures y == x
  {
    assert (2.0 * a) * (y - x) == 0.0;
    ZeroProduct(2.0 * a, y - x);
  }

  /**
   * The equation is the biarc condition: with d0 = r d1 and unit tangents,
   * |q1 - q0|^2 - (d0 + d1)^2 = -2 (a d1^2 + b d1 + c). So the roots are
   * exactly the d1 for which the control points are d0 + d1 apart.
   */
  lemma BiarcCondition(v: Vector2, t0: Vector2, t1: Vector2, r: real, d1: real)
    requires t0.Norm2() == 1.0 && t1.Norm2() == 1.0
    ensures v.Minus(t0.Times(r).Plus(t1).Times(d1)).Norm2() - (r * d1 + d1) * (r * d1 + d1)
      == -2.0 * BiarcQuadratic(v, t0, t1, r).At(d1)
  {
    var t := t0.Times(r).Plus(t1);
    var t01 := t0.Dot(t1);
    var vv := v.Norm2();
    var vt := v.Dot(t);
    var tt := t.Norm2();
    assert t1.Times(1.0) == t1;
    Norm2Combination(t0, t1, r, 1.0, 1.0, t01, 1.0);
    assert tt == r * r * 1.0 + 2.0 * r * 1.0 * t01 + 1.0 * 1.0 * 1.0;
    assert v.Times(1.0).Plus(t.Times(-d1)) == v.Minus(t.Times(d1));
    Norm2Combination(v, t, 1.0, -d1, vv, vt, tt);
    assert v.Dot(v) == vv;
    ConditionScalars(vv, vt, tt, t01, r, d1, BiarcQuadratic(v, t0, t1, r));
  }

  lemma ConditionScalars(vv: real, vt: real, tt: real, t01: real, r: real, d1: real, q: Quadratic)
    requires tt == r * r * 1.0 + 2.0 * r * 1.0 * t01 + 1.0 * 1.0 * 1.0
    requires q == Quadratic(r * (1.0 - t01), vt, -0.5 * vv)
    ensures 1.0 * 1.0 * vv + 2.0 * 1.0 * -d1 * vt + -d1 * -d1 * tt - (r * d1 + d1) * (r * d1 + d1) == -2.0 * q.At(d1)
  {
  }

  /** Under d0 = r d1 the control points differ by v - (r t0 + t1) d1. */
  lemma ControlPointsOfRatioPair(b: Biarc, r: real, d1: real)
    requires b.param == RatioPair(r, d1)
    ensures b.Q1().Minus(b.Q0()) == b.point1.Minus(b.point0).Minus(b.tangent0.Times(r).Plus(b.tangent1).Times(d1))
  {
  }

  /**
   * A biarc whose parameters are a ratio pair solving the equation has its
   * control points exactly d0 + d1 apart, the condition that makes the two
   * arcs meet with a common tangent.
   */
  lemma RootGivesBiarc(b: Biarc, r: real, d1: real)
    requires b.tangent0.Norm2() == 1.0 && b.tangent1.Norm2() == 1.0
    requires b.param == RatioPair(r, d1)
    requires BiarcQuadratic(b.point1.Minus(b.point0), b.tangent0, b.tangent1, r).At(d1) == 0.0
    ensures b.Q1().Minus(b.Q0()).Norm2() == (b.param.d0 + b.param.d1) * (b.param.d0 + b.param.d1)
  {
    ControlPointsOfRatioPair(b, r, d1);
    BiarcCondition(b.point1.Minus(b.point0), b.tangent0, b.tangent1, r, d1);
  }

  /**
   * What one iteration pushes is a ratio pair (r d1, d1) with d1 > Epsilon,
   * where d1 is either the greatest root of the quadratic or, when that is
   * unusable (|a| <= Epsilon, or the root is at least MAX_D_PARAM) and v is
   * not perpendicular to t1, the root of the linear part b d1 + c.
   */
  lemma IterationSolves(v: Vector2, t0: Vector2, t1: Vector2, r: real, sqrt: real -> real)
    requires IsSqrt(sqrt)
    requires |IterationParams(v, t0, t1, r, sqrt)| == 1
    ensures var p := IterationParams(v, t0, t1, r, sqrt)[0];
      var q := BiarcQuadratic(v, t0, t1, r);
      p == RatioPair(r, p.d1) && Epsilon < p.d1 &&
      ((Abs(q.a) > Epsilon && 0.0 <= q.Discriminant() && p.d1 == q.LargerRoot(sqrt) && q.At(p.d1) == 0.0) ||
       (Abs(v.Dot(t1)) > FltMin && q.b != 0.0 && q.b * p.d1 + q.c == 0.0))
  {
    IterationPair(v, t0, t1, r, sqrt);
    ChosenD1Solves(BiarcQuadratic(v, t0, t1, r), v.Dot(t1), sqrt);
  }

  /** An iteration that pushes a pair pushes (r d1, d1) for its chosen d1, which exceeds Epsilon. */
  lemma IterationPair(v: Vector2, t0: Vector2, t1: Vector2, r: real, sqrt: real -> real)
    requires IsSqrt(sqrt)
    requires |IterationParams(v, t0, t1, r, sqrt)| == 1
    ensures var o := ChooseD1(BiarcQuadratic(v, t0, t1, r), v.Dot(t1), sqrt);
      o.Some? && Epsilon < o.value && IterationParams(v, t0, t1, r, sqrt)[0] == RatioPair(r, o.value)
  {
  }

  /**
   * The two cases in which an iteration pushes nothing: a quadratic with no
   * real root, and a d1 that does not exceed Epsilon.
   */
  lemma IterationSkips(v: Vector2, t0: Vector2, t1: Vector2, r: real, sqrt: real -> real)
    requires IsSqrt(sqrt)
    ensures var q := BiarcQuadratic(v, t0, t1, r);
      Abs(q.a) > Epsilon && q.Discriminant() < 0.0 ==> IterationParams(v, t0, t1, r, sqrt) == []
    ensures IterationD1(v, t0, t1, r, sqrt).Some? && IterationD1(v, t0, t1, r, sqrt).value <= Epsilon ==>
      IterationParams(v, t0, t1, r, sqrt) == []
  {
  }

  /** The pair p is what the iteration of one of the first n ratios pushes. */
  ghost predicate PushedByIteration(v: Vector2, t0: Vector2, t1: Vector2, r0: real, mult: real, n: nat, sqrt: real -> real, p: DParam)
    requires IsSqrt(sqrt)
  {
    exists j: nat :: j < n && IterationParams(v, t0, t1, Ratio(r0, mult, j), sqrt) == [p]
  }

  /** The series yields at most one pair per iteration, each pushed by the iteration of some ratio of the series. */
  lemma {:induction false} SeriesMembers(v: Vector2, t0: Vector2, t1: Vector2, r0: real, mult: real, n: nat, sqrt: real -> real)
    requires IsSqrt(sqrt)
    ensures |SeriesParams(v, t0, t1, r0, mult, n, sqrt)| <= n
    ensures forall k :: 0 <= k < |SeriesParams(v, t0, t1, r0, mult, n, sqrt)| ==>
      PushedByIteration(v, t0, t1, r0, mult, n, sqrt, SeriesParams(v, t0, t1, r0, mult, n, sqrt)[k])
  {
    if n > 0 {
      SeriesMembers(v, t0, t1, r0, mult, n - 1, sqrt);
      var prefix := SeriesParams(v, t0, t1, r0, mult, n - 1, sqrt);
      var last := IterationParams(v, t0, t1, Ratio(r0, mult, n - 1), sqrt);
      var all := SeriesParams(v, t0, t1, r0, mult, n, sqrt);
      assert all == prefix + last;
      forall k | 0 <= k < |all|
        ensures PushedByIteration(v, t0, t1, r0, mult, n, sqrt, all[k])
      {
        if k < |prefix| {
          assert all[k] == prefix[k];
          assert PushedByIteration(v, t0, t1, r0, mult, n - 1, sqrt, prefix[k]);
          var j: nat :| j < n - 1 && IterationParams(v, t0, t1, Ratio(r0, mult, j), sqrt) == [prefix[k]];
          assert IterationParams(v, t0, t1, Ratio(r0, mult, j), sqrt) == [all[k]];
        } else {
          assert |last| == 1 && k == |prefix| && all[k] == last[0];
          assert IterationParams(v, t0, t1, Ratio(r0, mult, n - 1), sqrt) == [all[k]];
        }
      }
    }
  }

  /** Ratios of a series with positive start and multiplier stay positive. */
  lemma {:induction false} RatioPositive(r0: real, mult: real, j: nat)
    requires 0.0 < r0 && 0.0 < mult
    ensures 0.0 < Ratio(r0, mult, j)
  {
    if j > 0 {
      RatioPositive(r0, mult, j - 1);
      MulLess(mult, 0.0, Ratio(r0, mult, j - 1));
      assert Ratio(r0, mult, j) == Ratio(r0, mult, j - 1) * mult;
    }
  }

  /**
   * The single-arc pair (d0, 0) puts q0 exactly d0 away from point1, the
   * biarc condition with d1 = 0: v.v = 2 d0 v.t0 with unit t0.
   */
  lemma SingleArcSolves(v: Vector2, t0: Vector2)
    requires t0.Norm2() == 1.0
    requires |SingleArcParams(v, t0)| == 1
    ensures var p := SingleArcParams(v, t0)[0];
      p.d1 == 0.0 && Abs(p.d0) > Epsilon &&
      v.Minus(t0.Times(p.d0)).Norm2() == p.d0 * p.d0
  {
    SingleArcPair(v, t0);
    SingleArcDistance(v, t0, SingleArcParams(v, t0)[0].d0);
  }

  /** A d0 with v.v = 2 d0 v.t0 puts point0 + d0 t0 exactly d0 away from point0 + v, for a unit t0. */
  lemma SingleArcDistance(v: Vector2, t0: Vector2, d0: real)
    requires t0.Norm2() == 1.0 && 2.0 * v.Dot(t0) * d0 == v.Norm2()
    ensures v.Minus(t0.Times(d0)).Norm2() == d0 * d0
  {
    Norm2MinusTimes(v, t0, d0);
    SingleArcScalars(v.Norm2(), v.Dot(t0), t0.Norm2(), d0);
  }

  /** The single-arc pair solves 2 d0 v.t0 = v.v. */
  lemma SingleArcPair(v: Vector2, t0: Vector2)
    requires |SingleArcParams(v, t0)| == 1
    ensures var p := SingleArcParams(v, t0)[0];
      p.d1 == 0.0 && Abs(p.d0) > Epsilon && 2.0 * v.Dot(t0) * p.d0 == v.Norm2()
  {
    var den := 2.0 * v.Dot(t0);
    DivCancel(v.Dot(v), den);
    assert v.Dot(v) == v.Norm2();
  }

  /** |a - s b|² = a.a - 2 s a.b + s² b.b. */
  lemma Norm2MinusTimes(a: Vector2, b: Vector2, s: real)
    ensures a.Minus(b.Times(s)).Norm2() == 1.0 * 1.0 * a.Norm2() + 2.0 * 1.0 * -s * a.Dot(b) + -s * -s * b.Norm2()
  {
    var w := a.Minus(b.Times(s));
    assert w.x == a.x - b.x * s && w.y == a.y - b.y * s;
    Norm2Def(w);
    Norm2Def(a);
    Norm2Def(b);
    MinusTimesSquares(a.x, a.y, b.x, b.y, s);
  }

  lemma MinusTimesSquares(px: real, py: real, qx: real, qy: real, s: real)
    ensures (px - qx * s) * (px - qx * s) + (py - qy * s) * (py - qy * s) ==
            1.0 * 1.0 * (px * px + py * py) + 2.0 * 1.0 * -s * (px * qx + py * qy) + -s * -s * (qx * qx + qy * qy)
  {
  }

  lemma SingleArcScalars(vv: real, vt: real, tt: real, d0: real)
    requires 2.0 * vt * d0 == vv && tt == 1.0
    ensures 1.0 * 1.0 * vv + 2.0 * 1.0 * -d0 * vt + -d0 * -d0 * tt == d0 * d0
  {
  }

  /** findPossibleBiarcParams yields at most numResults pairs, plus one single-arc pair when asked. */
  lemma PossibleBiarcParamsCount(b: Biarc, rLower: real, rUpper: real, numResults: int, addSingleArcResult: bool,
                                 sqrt: real -> real, pow: (real, real) -> real)
    requires IsSqrt(sqrt)
    requires numResults > 1 ==> rLower != 0.0
    ensures |PossibleBiarcParams(b, rLower, rUpper, numResults, addSingleArcResult, sqrt, pow)|
      <= (if numResults < 0 then 0 else numResults) + (if addSingleArcResult then 1 else 0)
  {
    var v := b.point1.Minus(b.point0);
    SeriesMembers(v, b.tangent0, b.tangent1, FirstRatio(rLower, numResults),
                  RatioMultiplier(rLower, rUpper, numResults, pow), if numResults < 0 then 0 else numResults, sqrt);
  }

  /** Asked for one result, the search tries only equal arms, r = 1 (d0 = d1). */
  lemma SingleResultHasEqualArms(b: Biarc, rLower: real, rUpper: real, addSingleArcResult: bool,
                                 sqrt: real -> real, pow: (real, real) -> real)
    requires IsSqrt(sqrt)
    ensures PossibleBiarcParams(b, rLower, rUpper, 1, addSingleArcResult, sqrt, pow)
      == IterationParams(b.point1.Minus(b.point0), b.tangent0, b.tangent1, 1.0, sqrt)
         + (if addSingleArcResult then SingleArcParams(b.point1.Minus(b.point0), b.tangent0) else [])
  {
    var v := b.point1.Minus(b.point0);
    assert SeriesParams(v, b.tangent0, b.tangent1, 1.0, 1.0, 1, sqrt)
      == SeriesParams(v, b.tangent0, b.tangent1, 1.0, 1.0, 0, sqrt) + IterationParams(v, b.tangent0, b.tangent1, Ratio(1.0, 1.0, 0), sqrt);
  }
}
