/**
 * Shared constants, scalar helpers and the float `Range` used throughout the
 * stroke vectoriser. Floats are modelled as mathematical reals.
 */
module Common {

  /** ME_EPSILON and its square. */
  const Epsilon: real := 0.000001
  const Epsilon2: real := Epsilon * Epsilon

  /** ME_PI as written (a float literal), and the degree conversion factor. */
  const Pi: real := 3.14159265358979323846264338328
  const RadToDeg: real := 180.0 / Pi

  /** ME_A_LOT: the "practically infinite" parameter used for sentinels and open clipping. */
  const ALot: real := 10000000000.0

  /** Largest finite and smallest normal positive single-precision float (2^-126). */
  const FltMax: real := 340282346638528859811704183484516925440.0
  const FltMin: real := 1.0 / 85070591730234615865843651857942052864.0

  /** Spline generation settings. */
  const MaxSplineGap: real := 1.0
  const MaxDParam: real := 10000.0
  const MaxArcRadius: real := 10000.0
  const MaxArcRadiusToChordLengthRatio: real := 1000.0

  function Abs(a: real): (r: real)
    ensures 0.0 <= r && (r == a || r == -a)
  {
    if a < 0.0 then -a else a
  }

  /** std::fmin / std::fmax on non-NaN operands. */
  function Min(a: real, b: real): (r: real)
    ensures r <= a && r <= b && (r == a || r == b)
  {
    if a <= b then a else b
  }

  function Max(a: real, b: real): (r: real)
    ensures a <= r && b <= r && (r == a || r == b)
  {
    if a <= b then b else a
  }

  /**
   * getClipped: `value` clipped into [min, max]. The bounds may be inverted by
   * at most Epsilon; the upper bound then wins.
   */
  function GetClipped(value: real, min: real, max: real): (r: real)
    requires min <= max + Epsilon
    ensures min <= max ==> min <= r <= max
    ensures min <= value <= max ==> r == value
    ensures value < min && min <= max ==> r == min
    ensures max < value ==> r == max
    ensures max < min ==> r == max
  {
    Min(Max(min, value), max)
  }

  /** isEqual: are `a` and `b` within `precision` of each other. */
  predicate IsEqual(a: real, b: real, precision: real := Epsilon)
  {
    Abs(a - b) <= precision
  }

  lemma IsEqualSymmetric(a: real, b: real, precision: real)
    ensures IsEqual(a, b, precision) <==> IsEqual(b, a, precision)
    ensures 0.0 <= precision ==> IsEqual(a, a, precision)
  {
  }

  /**
   * A float interval. A Range is valid when start <= end; the invalid range
   * used for "nothing seen yet" is {FLT_MAX, -FLT_MAX}.
   */
  datatype Range = Range(start: real, end: real)
  {
    /** Range(s, e): the constructor that asserts the result is valid. */
    static function Make(s: real, e: real): (r: Range)
      requires s <= e
      ensures r.IsValid() && r.start == s && r.end == e && r.Length() == e - s
    {
      Range(s, e)
    }

    /** Range() / invalidate(). */
    static function Invalid(): (r: Range)
      ensures !r.IsValid() && r.Length() == 0.0
    {
      Range(FltMax, -FltMax)
    }

    predicate IsValid()
    {
      start <= end
    }

    /** length(): never negative, and 0 for an invalid range. */
    function Length(): (len: real)
      ensures 0.0 <= len
      ensures !IsValid() ==> len == 0.0
      ensures IsValid() ==> start + len == end
    {
      if IsValid() then end - start else 0.0
    }

    /** include(value): the smallest range containing both this range's bounds and value. */
    function Include(value: real): (r: Range)
      ensures r.IsValid() && r.start <= value <= r.end
      ensures r.start <= start && end <= r.end
      ensures (r.start == start || r.start == value) && (r.end == end || r.end == value)
      ensures this == Invalid() && -FltMax <= value <= FltMax ==> r == Range(value, value)
    {
      Range(Min(value, start), Max(end, value))
    }

    /** inflate(padding): moves both bounds outwards by padding. */
    function Inflate(padding: real): (r: Range)
      requires 0.0 <= padding
      ensures r.start <= start && end <= r.end
      ensures IsValid() ==> r.IsValid() && r.Length() == Length() + 2.0 * padding
      ensures (r.start + r.end) == (start + end)
    {
      Range(start - padding, end + padding)
    }

    /** isLess: lexicographic order on (start, end), used for sorting. */
    static predicate IsLess(a: Range, b: Range)
    {
      a.start < b.start || (a.start == b.start && a.end < b.end)
    }
  }

  // Small facts of real arithmetic that the solver needs spelled out.

  lemma MulLeq(c: real, a: real, b: real)
    requires 0.0 <= c && a <= b
    ensures c * a <= c * b
  {
    assert c * b - c * a == c * (b - a);
  }

  lemma MulLess(c: real, a: real, b: real)
    requires 0.0 < c && a < b
    ensures c * a < c * b
  {
    assert c * b - c * a == c * (b - a);
  }

  lemma PosSquare(a: real)
    requires 0.0 < a
    ensures 0.0 < a * a
  {
  }

  lemma Square(a: real)
    ensures 0.0 <= a * a
    ensures a != 0.0 ==> 0.0 < a * a
  {
    if a < 0.0 {
      PosSquare(-a);
      assert (-a) * (-a) == a * a;
    } else if 0.0 < a {
      PosSquare(a);
    }
  }

  lemma LessSquares(a: real, b: real)
    requires 0.0 <= a < b
    ensures a * a < b * b
  {
    var p, q, r := a * a, a * b, b * b;
    assert p <= q;
    assert q < r;
    assert p < r;
  }

  /** A non-negative quotient a / b with a < b is a fraction in [0, 1). */
  lemma FractionBelowOne(a: real, b: real)
    requires 0.0 <= a < b
    ensures 0.0 <= a / b < 1.0
  {
    var q := a / b;
    assert q * b == a;
    if 1.0 <= q {
      MulLeq(b, 1.0, q);
      assert false;
    }
    if q < 0.0 {
      MulLess(b, q, 0.0);
      assert false;
    }
  }

  /** std::ceil. */
  function Ceil(x: real): (r: real)
    ensures x <= r < x + 1.0
  {
    -((-x).Floor as real)
  }

  /** The sign of a real: -1, 0 or 1. */
  function Sign(x: real): (r: int)
    ensures -1 <= r <= 1
    ensures r < 0 <==> x < 0.0
    ensures r == 0 <==> x == 0.0
  {
    if x < 0.0 then -1 else if x == 0.0 then 0 else 1
  }

  /** The sign of a product is the product of the signs. */
  lemma ProductSign(a: real, b: real)
    ensures Sign(a * b) == Sign(a) * Sign(b)
  {
    if a == 0.0 || b == 0.0 {
    } else if 0.0 < a {
      if 0.0 < b {
        MulLess(a, 0.0, b);
      } else {
        MulLess(a, b, 0.0);
      }
    } else {
      if 0.0 < b {
        MulLess(b, a, 0.0);
        assert b * a == a * b;
      } else {
        MulLess(-a, b, 0.0);
        assert (-a) * b == -(a * b);
      }
    }
  }

  lemma Epsilon2Positive()
    ensures 0.0 < Epsilon2 < 1.0
  {
  }

  /** Range.IsLess is a strict total order on ranges. */
  lemma IsLessStrictTotalOrder(a: Range, b: Range, c: Range)
    ensures !Range.IsLess(a, a)
    ensures Range.IsLess(a, b) ==> !Range.IsLess(b, a)
    ensures Range.IsLess(a, b) && Range.IsLess(b, c) ==> Range.IsLess(a, c)
    ensures !Range.IsLess(a, b) && !Range.IsLess(b, a) ==> a == b
  {
  }
}
