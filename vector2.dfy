/**
 * The 2D vector value type. The square root used by norm() is a parameter
 * `sqrt` of the functions that need it; `IsSqrt` states what the model
 * assumes of it (the exact non-negative root of every non-negative real).
 */
module Vectors {
  import opened Common

  /** `sqrt` returns the non-negative square root of every non-negative argument. */
  ghost predicate IsSqrt(sqrt: real -> real)
  {
    forall x {:trigger sqrt(x)} :: 0.0 <= x ==> 0.0 <= sqrt(x) && sqrt(x) * sqrt(x) == x
  }

  /** A square root is determined by its square. */
  lemma SqrtUnique(sqrt: real -> real, x: real, root: real)
    requires IsSqrt(sqrt) && 0.0 <= root && root * root == x
    ensures sqrt(x) == root
  {
    var s := sqrt(x);
    if s < root {
      assert s * s < root * root by { LessSquares(s, root); }
    } else if root < s {
      assert root * root < s * s by { LessSquares(root, s); }
    }
  }

  /** Square roots are monotone. */
  lemma SqrtMonotone(sqrt: real -> real, x: real, y: real)
    requires IsSqrt(sqrt) && 0.0 <= x <= y
    ensures sqrt(x) <= sqrt(y)
  {
    var sx, sy := sqrt(x), sqrt(y);
    if sy < sx {
      LessSquares(sy, sx);
    }
  }

  datatype Vector2 = Vector2(x: real, y: real)
  {
    function Plus(b: Vector2): Vector2
    {
      Vector2(x + b.x, y + b.y)
    }

    function Minus(b: Vector2): Vector2
    {
      Vector2(x - b.x, y - b.y)
    }

    /** Vector times scalar; scalar * vector is the same operation. */
    function Times(s: real): Vector2
    {
      Vector2(x * s, y * s)
    }

    /** operator/: multiplies by the reciprocal. */
    function Div(s: real): Vector2
      requires s != 0.0
    {
      Times(1.0 / s)
    }

    function Neg(): Vector2
    {
      Vector2(-x, -y)
    }

    /** operator[]: component 0 is x, component 1 is y. */
    function At(i: int): real
      requires i == 0 || i == 1
    {
      if i == 0 then x else y
    }

    /** Writing through the non-const operator[]: replaces one component. */
    function SetAt(i: int, value: real): (r: Vector2)
      requires i == 0 || i == 1
      ensures r.At(i) == value && r.At(1 - i) == At(1 - i)
    {
      if i == 0 then Vector2(value, y) else Vector2(x, value)
    }

    function Dot(b: Vector2): real
    {
      x * b.x + y * b.y
    }

    function Cross(b: Vector2): real
    {
      x * b.y - y * b.x
    }

    /** Component-wise product. */
    function Scale(b: Vector2): Vector2
    {
      Vector2(x * b.x, y * b.y)
    }

    function Norm2(): (r: real)
      ensures 0.0 <= r
    {
      Square(x);
      Square(y);
      x * x + y * y
    }

    function Norm(sqrt: real -> real): (r: real)
      requires IsSqrt(sqrt)
      ensures 0.0 <= r && r * r == Norm2()
    {
      sqrt(Norm2())
    }

    function DistTo(b: Vector2, sqrt: real -> real): (r: real)
      requires IsSqrt(sqrt)
      ensures 0.0 <= r && r * r == Minus(b).Norm2()
    {
      Minus(b).Norm(sqrt)
    }

    /** normalized(): divides by norm() + FLT_MIN, so the zero vector maps to itself. */
    function Normalized(sqrt: real -> real): Vector2
      requires IsSqrt(sqrt)
    {
      Div(Norm(sqrt) + FltMin)
    }

    function DirectionTo(b: Vector2, sqrt: real -> real): Vector2
      requires IsSqrt(sqrt)
    {
      b.Minus(this).Normalized(sqrt)
    }

    /** rotate90(): a quarter turn counter-clockwise. */
    function Rotate90(): Vector2
    {
      Vector2(-y, x)
    }

    /** interpolate(a, b, t) = a * (1 - t) + b * t. */
    static function Interpolate(a: Vector2, b: Vector2, t: real): (r: Vector2)
      ensures r == a.Plus(b.Minus(a).Times(t))
      ensures t == 0.0 ==> r == a
      ensures t == 1.0 ==> r == b
      ensures a == b ==> r == a
    {
      a.Times(1.0 - t).Plus(b.Times(t))
    }
  }

  const Zero: Vector2 := Vector2(0.0, 0.0)
  const UnitX: Vector2 := Vector2(1.0, 0.0)
  const UnitY: Vector2 := Vector2(0.0, 1.0)
  const One: Vector2 := Vector2(1.0, 1.0)

  /** normalized() is a non-negative multiple of the vector, never longer than 1; zero stays zero. */
  lemma NormalizedFacts(v: Vector2, sqrt: real -> real)
    requires IsSqrt(sqrt)
    ensures v.Normalized(sqrt).Norm2() <= 1.0
    ensures 0.0 <= v.Normalized(sqrt).Dot(v)
    ensures v == Zero ==> v.Normalized(sqrt) == Zero
  {
    var n := v.Norm(sqrt);
    var k := 1.0 / (n + FltMin);
    Norm2Times(v, k);
    assert v.Times(k).Norm2() == (n * k) * (n * k) by {
      assert v.Norm2() == n * n;
    }
    UnitQuotient(n, k);
    ScaledDot(v, k);
  }

  /** n / (n + FLT_MIN) is a fraction in [0, 1). */
  lemma UnitQuotient(n: real, k: real)
    requires 0.0 <= n && k == 1.0 / (n + FltMin)
    ensures 0.0 < k && 0.0 <= n * k < 1.0 && (n * k) * (n * k) <= 1.0
  {
    assert k * (n + FltMin) == 1.0;
    assert 0.0 < k;
    MulLeq(k, 0.0, n);
    MulLess(k, 0.0, FltMin);
    assert k * n + k * FltMin == 1.0;
    assert k * n == n * k;
    MulLeq(n * k, n * k, 1.0);
  }

  lemma ScaledDot(v: Vector2, k: real)
    requires 0.0 < k
    ensures 0.0 <= v.Times(k).Dot(v)
  {
    assert v.Times(k).Dot(v) == k * v.Norm2();
    MulLeq(k, 0.0, v.Norm2());
  }

  /**
   * scale is commutative, has (1, 1) as its identity, and scaling by (k, k)
   * is multiplying by k.
   */
  lemma ScaleFacts(a: Vector2, b: Vector2, k: real)
    ensures a.Scale(b) == b.Scale(a)
    ensures a.Scale(Vector2(1.0, 1.0)) == a
    ensures a.Scale(Vector2(k, k)) == a.Times(k)
  {
  }

  /** Norm2 of a scaled vector. */
  lemma Norm2Times(v: Vector2, s: real)
    ensures v.Times(s).Norm2() == v.Norm2() * s * s
  {
  }

  /**
   * normalized() of a vector longer than ME_EPSILON has unit length to within
   * the 1e-4 tolerance that Line::fromPointAndNormal and Vector2::angleTo assert.
   */
  lemma NormalizedIsNearlyUnit(v: Vector2, sqrt: real -> real)
    requires IsSqrt(sqrt) && Epsilon2 < v.Norm2()
    ensures IsEqual(v.Normalized(sqrt).Norm2(), 1.0, 0.0001)
    ensures 1.0 - 0.0001 <= v.Normalized(sqrt).Norm2() <= 1.0
  {
    var n := v.Norm(sqrt);
    assert Epsilon < n by {
      if n < Epsilon {
        LessSquares(n, Epsilon);
      }
    }
    var k := 1.0 / (n + FltMin);
    Norm2Times(v, k);
    assert v.Times(k).Norm2() == (n * k) * (n * k) by {
      assert v.Norm2() == n * n;
    }
    QuotientBounds(n, k);
  }

  /** The arithmetic core of NormalizedIsNearlyUnit: n / (n + FLT_MIN) is within 1e-4 of 1. */
  lemma QuotientBounds(n: real, k: real)
    requires Epsilon < n && k == 1.0 / (n + FltMin)
    ensures 1.0 - 0.0001 <= (n * k) * (n * k) <= 1.0
  {
    var m := FltMin;
    var q, mk := n * k, m * k;
    assert k * (n + m) == 1.0;
    assert q + mk == 1.0;
    assert 0.0 < k;
    assert 0.0 <= mk;
    MulLeq(mk, Epsilon, n);
    var mkn := mk * n;
    assert mkn <= m by { assert mkn + mk * m == m; MulLeq(mk, 0.0, m); }
    assert mk * Epsilon <= m;
    assert mk <= m * 1000000.0;
    var qq, mkmk := q * q, mk * mk;
    assert qq == (1.0 - mk) * (1.0 - mk);
    assert qq == 1.0 - 2.0 * mk + mkmk;
    MulLeq(mk, mk, 1.0);
    assert mkmk <= mk;
  }

  /** The definitions of Norm2 and Norm as facts of their own, for the arithmetic below. */
  lemma Norm2Def(v: Vector2)
    ensures v.Norm2() == v.x * v.x + v.y * v.y
  {
  }

  /** norm2() is the vector's dot product with itself. */
  lemma Norm2IsSelfDot(v: Vector2)
    ensures v.Norm2() == v.Dot(v) && 0.0 <= v.Dot(v)
  {
  }

  lemma NormDef(v: Vector2, sqrt: real -> real)
    requires IsSqrt(sqrt)
    ensures v.Norm(sqrt) == sqrt(v.Norm2())
  {
  }

  /** The root of a square is the absolute value. */
  lemma SqrtOfSquare(sqrt: real -> real, a: real)
    requires IsSqrt(sqrt)
    ensures sqrt(a * a) == Abs(a)
  {
    assert Abs(a) * Abs(a) == a * a;
    Square(a);
    SqrtUnique(sqrt, a * a, Abs(a));
  }

  lemma BelowRoot(sqrt: real -> real, a: real, n: real)
    requires IsSqrt(sqrt) && a * a <= n
    ensures Abs(a) <= sqrt(n)
  {
    Square(a);
    SqrtMonotone(sqrt, a * a, n);
    SqrtOfSquare(sqrt, a);
  }

  /** Neither component of a vector is longer than the vector. */
  lemma ComponentsBelowNorm(v: Vector2, sqrt: real -> real)
    requires IsSqrt(sqrt)
    ensures Abs(v.x) <= v.Norm(sqrt) && Abs(v.y) <= v.Norm(sqrt)
  {
    NormDef(v, sqrt);
    Norm2Def(v);
    Square(v.x);
    Square(v.y);
    BelowRoot(sqrt, v.x, v.Norm2());
    BelowRoot(sqrt, v.y, v.Norm2());
  }

  /** distTo is zero exactly between equal points. */
  lemma DistToZero(a: Vector2, b: Vector2, sqrt: real -> real)
    requires IsSqrt(sqrt)
    ensures a.DistTo(b, sqrt) <= 0.0 ==> a == b
  {
    ComponentsBelowNorm(a.Minus(b), sqrt);
  }

  lemma DistToSelf(a: Vector2, sqrt: real -> real)
    requires IsSqrt(sqrt)
    ensures a.DistTo(a, sqrt) == 0.0
  {
    assert a.Minus(a) == Zero;
    ZeroNorm(sqrt);
  }

  /** The zero vector has norm 0. */
  lemma ZeroNorm(sqrt: real -> real)
    requires IsSqrt(sqrt)
    ensures Zero.Norm(sqrt) == 0.0
  {
    NormDef(Zero, sqrt);
    Norm2Def(Zero);
    SqrtOfSquare(sqrt, 0.0);
  }

  lemma DistToSymmetric(a: Vector2, b: Vector2, sqrt: real -> real)
    requires IsSqrt(sqrt)
    ensures a.DistTo(b, sqrt) == b.DistTo(a, sqrt)
  {
    assert a.Minus(b).Norm2() == b.Minus(a).Norm2();
  }

  /** Four quarter turns are the identity; two are a negation. */
  lemma Rotate90Cycle(v: Vector2)
    ensures v.Rotate90().Rotate90() == v.Neg()
    ensures v.Rotate90().Rotate90().Rotate90().Rotate90() == v
  {
  }

  /** rotate90() turns a vector by a right angle and keeps its length. */
  lemma Rotate90Perpendicular(v: Vector2)
    ensures v.Rotate90().Dot(v) == 0.0
    ensures v.Rotate90().Norm2() == v.Norm2()
    ensures v.Cross(v.Rotate90()) == v.Norm2()
  {
  }

  /** Negation is the additive inverse and keeps the length. */
  lemma NegInverse(v: Vector2)
    ensures v.Neg().Plus(v) == Zero && v.Neg().Norm2() == v.Norm2()
  {
  }

  /** operator/ undoes operator*. */
  lemma DivTimes(v: Vector2, s: real)
    requires s != 0.0
    ensures v.Div(s).Times(s) == v
  {
  }

  lemma CrossAntisymmetric(a: Vector2, b: Vector2)
    ensures a.Cross(b) == -b.Cross(a) && a.Cross(a) == 0.0
    ensures a.Dot(b) == b.Dot(a)
  {
  }

  /** a - b is the inverse of b + (.) */
  lemma PlusMinusInverse(a: Vector2, b: Vector2)
    ensures a.Plus(b).Minus(b) == a && b.Plus(a.Minus(b)) == a
  {
  }

  /** dot is linear in its first argument. */
  lemma DotLinear(a: Vector2, b: Vector2, c: Vector2, s: real)
    ensures a.Plus(b).Dot(c) == a.Dot(c) + b.Dot(c)
    ensures a.Minus(b).Dot(c) == a.Dot(c) - b.Dot(c)
    ensures a.Times(s).Dot(c) == s * a.Dot(c)
  {
  }

  lemma DotNeg(a: Vector2, b: Vector2)
    ensures a.Dot(b.Neg()) == -a.Dot(b)
  {
  }

  /** norm2 of a linear combination s*a + t*b. */
  lemma Norm2Combination(a: Vector2, b: Vector2, s: real, t: real, aa: real, ab: real, bb: real)
    requires aa == a.Norm2() && ab == a.Dot(b) && bb == b.Norm2()
    ensures a.Times(s).Plus(b.Times(t)).Norm2() == s * s * aa + 2.0 * s * t * ab + t * t * bb
  {
  }

  lemma NormSymmetric(a: Vector2, b: Vector2, sqrt: real -> real)
    requires IsSqrt(sqrt)
    ensures a.Minus(b).Norm(sqrt) == b.Minus(a).Norm(sqrt)
  {
    assert a.Minus(b).Norm2() == b.Minus(a).Norm2();
  }
}
