/**
 * The elements an ArcSpline is made of: arcs and segments, and the hit
 * distance of a segment used for click-selection.
 */
module SplineElements {
  import opened Common
  import opened Vectors
  import opened Geometry

  /** SplineElement::Type. TYPE_INVALID belongs only to the base class's private default constructor. */
  datatype ElementType = TypeInvalid | TypeArc | TypeSegment

  /**
   * A spline element. An arc keeps the arguments of its constructor (the
   * circle, the end points, the tangent at the start and its index in the
   * biarc); a segment its two end points and its index, -1 for a segment
   * found on its own.
   */
  datatype SplineElement =
    | SplineArc(circle: Circle, p0: Vector2, tangentAtP0: Vector2, p1: Vector2, idxInBiarc: int)
    | SplineSegment(p0: Vector2, p1: Vector2, idxInBiarc: int)
  {
    /** The type tag, fixed by the constructor; no concrete element is invalid. */
    function Type(): (t: ElementType)
      ensures t != TypeInvalid
    {
      if SplineArc? then TypeArc else TypeSegment
    }
  }

  /** The point of the segment p0 -> p1 at the fraction s of its length. */
  function OnSegment(p0: Vector2, p1: Vector2, s: real): Vector2
  {
    p0.Plus(p1.Minus(p0).Times(s))
  }

  /**
   * The point of the segment SplineSegment::distTo measures to: p0 when the
   * point lies behind p0 along the segment (u.v <= 0), p1 when it lies beyond
   * p1 (v.v <= u.v), and its projection onto the segment otherwise.
   */
  function ClosestPoint(p0: Vector2, p1: Vector2, point: Vector2): Vector2
  {
    var u := point.Minus(p0);
    var v := p1.Minus(p0);
    var c1 := u.Dot(v);
    if c1 <= 0.0 then p0
    else
      var c2 := v.Dot(v);
      if c2 <= c1 then p1
      else p0.Plus(v.Times(c1 / c2))
  }

  /** SplineSegment::distTo. */
  function SegmentDistTo(p0: Vector2, p1: Vector2, point: Vector2, sqrt: real -> real): real
    requires IsSqrt(sqrt)
  {
    ClosestPoint(p0, p1, point).DistTo(point, sqrt)
  }

  /** SplineSegment::distToEndPoint: the distance to the nearer end point. */
  function SegmentDistToEndPoint(p0: Vector2, p1: Vector2, point: Vector2, sqrt: real -> real): (d: real)
    requires IsSqrt(sqrt)
    ensures d == point.DistTo(p0, sqrt) || d == point.DistTo(p1, sqrt)
    ensures d <= point.DistTo(p0, sqrt) && d <= point.DistTo(p1, sqrt)
  {
    Min(point.DistTo(p0, sqrt), point.DistTo(p1, sqrt))
  }

  /** The point distTo measures to lies on the segment. */
  lemma ClosestPointOnSegment(p0: Vector2, p1: Vector2, point: Vector2)
    ensures exists s :: 0.0 <= s <= 1.0 && ClosestPoint(p0, p1, point) == OnSegment(p0, p1, s)
  {
    var u := point.Minus(p0);
    var v := p1.Minus(p0);
    var c1 := u.Dot(v);
    var c2 := v.Dot(v);
    if c1 <= 0.0 {
      assert OnSegment(p0, p1, 0.0) == p0;
    } else if c2 <= c1 {
      assert OnSegment(p0, p1, 1.0) == p1;
    } else {
      FractionBelowOne(c1, c2);
      assert ClosestPoint(p0, p1, point) == OnSegment(p0, p1, c1 / c2);
    }
  }

  /** No point of the segment is nearer to `point` than the one distTo measures to. */
  lemma ClosestPointIsNearest(p0: Vector2, p1: Vector2, point: Vector2, s: real)
    requires 0.0 <= s <= 1.0
    ensures ClosestPoint(p0, p1, point).Minus(point).Norm2() <= OnSegment(p0, p1, s).Minus(point).Norm2()
  {
    var u := point.Minus(p0);
    var v := p1.Minus(p0);
    var c1 := u.Dot(v);
    var c2 := v.Dot(v);
    var uu := u.Dot(u);
    assert 0.0 <= c2 by { Square(v.x); Square(v.y); }
    SquaredDistAlong(p0, p1, point, s);
    if c1 <= 0.0 {
      SquaredDistAlong(p0, p1, point, 0.0);
      assert OnSegment(p0, p1, 0.0) == p0;
      QuadraticFromStart(c1, c2, uu, s);
    } else if c2 <= c1 {
      SquaredDistAlong(p0, p1, point, 1.0);
      assert OnSegment(p0, p1, 1.0) == p1;
      QuadraticFromEnd(c1, c2, uu, s);
    } else {
      var t := c1 / c2;
      SquaredDistAlong(p0, p1, point, t);
      assert ClosestPoint(p0, p1, point) == OnSegment(p0, p1, t);
      QuadraticAtVertex(c1, c2, uu, s, t);
    }
  }

  /**
   * distTo is the distance to the nearest point of the segment, so it never
   * exceeds distToEndPoint.
   */
  lemma SegmentDistToIsNearest(p0: Vector2, p1: Vector2, point: Vector2, sqrt: real -> real, s: real)
    requires IsSqrt(sqrt) && 0.0 <= s <= 1.0
    ensures SegmentDistTo(p0, p1, point, sqrt) <= OnSegment(p0, p1, s).DistTo(point, sqrt)
    ensures SegmentDistTo(p0, p1, point, sqrt) <= SegmentDistToEndPoint(p0, p1, point, sqrt)
  {
    var c := ClosestPoint(p0, p1, point);
    ClosestPointIsNearest(p0, p1, point, s);
    NearerIsCloser(c, OnSegment(p0, p1, s), point, sqrt);
    ClosestPointIsNearest(p0, p1, point, 0.0);
    assert OnSegment(p0, p1, 0.0) == p0;
    NearerIsCloser(c, p0, point, sqrt);
    DistToSymmetric(p0, point, sqrt);
    ClosestPointIsNearest(p0, p1, point, 1.0);
    assert OnSegment(p0, p1, 1.0) == p1;
    NearerIsCloser(c, p1, point, sqrt);
    DistToSymmetric(p1, point, sqrt);
  }

  /** A smaller squared distance is a smaller distance. */
  lemma NearerIsCloser(a: Vector2, b: Vector2, point: Vector2, sqrt: real -> real)
    requires IsSqrt(sqrt) && a.Minus(point).Norm2() <= b.Minus(point).Norm2()
    ensures a.DistTo(point, sqrt) <= b.DistTo(point, sqrt)
  {
    NormDef(a.Minus(point), sqrt);
    NormDef(b.Minus(point), sqrt);
    SqrtMonotone(sqrt, a.Minus(point).Norm2(), b.Minus(point).Norm2());
  }

  /** |p0 + s v - point|² = s² v.v - 2 s u.v + u.u, with u = point - p0 and v = p1 - p0. */
  lemma SquaredDistAlong(p0: Vector2, p1: Vector2, point: Vector2, s: real)
    ensures var u, v := point.Minus(p0), p1.Minus(p0);
            OnSegment(p0, p1, s).Minus(point).Norm2() == Quadratic(u.Dot(v), v.Dot(v), u.Dot(u), s)
  {
    var u, v := point.Minus(p0), p1.Minus(p0);
    var w := OnSegment(p0, p1, s).Minus(point);
    assert w.x == v.x * s - u.x && w.y == v.y * s - u.y;
    Norm2Def(w);
    ComponentSquare(v.x, u.x, s);
    ComponentSquare(v.y, u.y, s);
  }

  lemma ComponentSquare(a: real, b: real, s: real)
    ensures (a * s - b) * (a * s - b) == s * s * (a * a) - 2.0 * s * (b * a) + b * b
  {
  }

  /** The squared distance along the segment as a function of the fraction s. */
  function Quadratic(c1: real, c2: real, uu: real, s: real): real
  {
    s * s * c2 - 2.0 * s * c1 + uu
  }

  lemma QuadraticFromStart(c1: real, c2: real, uu: real, s: real)
    requires c1 <= 0.0 && 0.0 <= c2 && 0.0 <= s
    ensures Quadratic(c1, c2, uu, 0.0) <= Quadratic(c1, c2, uu, s)
  {
    MulLeq(s, 0.0, s);
    MulLeq(s * s, 0.0, c2);
    MulLeq(s, c1, 0.0);
  }

  lemma QuadraticFromEnd(c1: real, c2: real, uu: real, s: real)
    requires 0.0 < c1 && 0.0 <= c2 <= c1 && 0.0 <= s <= 1.0
    ensures Quadratic(c1, c2, uu, 1.0) <= Quadratic(c1, c2, uu, s)
  {
    // Quadratic(s) - Quadratic(1) = (1 - s) * (2 c1 - (1 + s) c2), and (1 + s) c2 <= 2 c2 <= 2 c1.
    var k := 2.0 * c1 - (1.0 + s) * c2;
    MulLeq(c2, 1.0 + s, 2.0);
    assert 0.0 <= k;
    MulLeq(1.0 - s, 0.0, k);
    assert Quadratic(c1, c2, uu, s) - Quadratic(c1, c2, uu, 1.0) == (1.0 - s) * k;
  }

  lemma QuadraticAtVertex(c1: real, c2: real, uu: real, s: real, t: real)
    requires 0.0 < c2 && t == c1 / c2
    ensures Quadratic(c1, c2, uu, t) <= Quadratic(c1, c2, uu, s)
  {
    // Quadratic(s) - Quadratic(t) = c2 (s - t)², because c2 t = c1.
    assert c2 * t == c1;
    var d := s - t;
    Square(d);
    MulLeq(c2, 0.0, d * d);
    assert Quadratic(c1, c2, uu, s) - Quadratic(c1, c2, uu, t) == c2 * (d * d);
  }
}
