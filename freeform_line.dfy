/**
 * FreeformLine: the input stroke as a polyline parametrised by `t`, the
 * distance travelled from its first point. The std::map<float, Vector2> of
 * the class is a sequence of entries in strictly increasing key order;
 * writing `points[t] = p` is `Insert`.
 */
module FreeformLines {
  import opened Common
  import opened Vectors

  /** One entry of the points map: distance `t` along the line and the input point there. */
  datatype Entry = Entry(t: real, point: Vector2)

  /** Keys strictly increase: the iteration order of the map. */
  ghost predicate Ordered(s: seq<Entry>)
  {
    forall i, j :: 0 <= i < j < |s| ==> s[i].t < s[j].t
  }

  ghost predicate HasKey(s: seq<Entry>, t: real)
  {
    exists i :: 0 <= i < |s| && s[i].t == t
  }

  /** `points[t] = p`: the keys stay in order, and the first key is t or the old first key. */
  function Insert(s: seq<Entry>, t: real, p: Vector2): (r: seq<Entry>)
    requires Ordered(s)
    ensures Ordered(r) && 0 < |r|
    ensures r[0].t == t || (0 < |s| && r[0] == s[0])
  {
    if |s| == 0 then [Entry(t, p)]
    else if t < s[0].t then [Entry(t, p)] + s
    else if t == s[0].t then [Entry(t, p)] + s[1..]
    else [s[0]] + Insert(s[1..], t, p)
  }

  /** Map semantics of Insert: the entry under key t now holds p, and every other entry is kept. */
  lemma {:induction false} InsertContents(s: seq<Entry>, t: real, p: Vector2)
    requires Ordered(s)
    ensures forall e :: e in Insert(s, t, p) <==> (e in s && e.t != t) || e == Entry(t, p)
  {
    if |s| > 0 && t > s[0].t {
      InsertContents(s[1..], t, p);
      assert s == [s[0]] + s[1..];
    } else if |s| > 0 && t == s[0].t {
      assert s == [s[0]] + s[1..];
    }
  }

  /** Writing to an existing key replaces that entry in place. */
  lemma {:induction false} InsertAtKey(s: seq<Entry>, i: nat, p: Vector2)
    requires Ordered(s) && i < |s|
    ensures Insert(s, s[i].t, p) == s[i := Entry(s[i].t, p)]
  {
    if i > 0 {
      assert s[0].t < s[i].t;
      InsertAtKey(s[1..], i - 1, p);
      assert s[1..][i - 1] == s[i];
      assert [s[0]] + s[1..][i - 1 := Entry(s[i].t, p)] == s[i := Entry(s[i].t, p)];
    }
  }

  /** Writing to a new key between s[i - 1] and s[i] inserts the entry at index i. */
  lemma {:induction false} InsertAtGap(s: seq<Entry>, i: nat, t: real, p: Vector2)
    requires Ordered(s) && i <= |s|
    requires 0 < i ==> s[i - 1].t < t
    requires i < |s| ==> t < s[i].t
    ensures Insert(s, t, p) == s[..i] + [Entry(t, p)] + s[i..]
  {
    if i == 0 {
      assert s[..i] == [];
      assert s[i..] == s;
    } else {
      InsertPastHead(s, i, t, p);
      InsertAtGap(s[1..], i - 1, t, p);
      ConsSplit(s, i, Entry(t, p));
    }
  }

  /** A key beyond the first key is inserted into the tail. */
  lemma InsertPastHead(s: seq<Entry>, i: nat, t: real, p: Vector2)
    requires Ordered(s) && 0 < i <= |s| && s[i - 1].t < t
    ensures Ordered(s[1..]) && Insert(s, t, p) == [s[0]] + Insert(s[1..], t, p)
  {
    assert s[0].t < t by {
      if 1 < i {
        assert s[0].t < s[i - 1].t;
      }
    }
  }

  /** Splitting the tail at i - 1 and putting the head back splits the whole sequence at i. */
  lemma ConsSplit<T>(s: seq<T>, i: nat, x: T)
    requires 0 < i <= |s|
    ensures [s[0]] + (s[1..][..i - 1] + [x] + s[1..][i - 1..]) == s[..i] + [x] + s[i..]
  {
    assert s[1..][..i - 1] == s[1..i];
    assert s[1..][i - 1..] == s[i..];
    assert [s[0]] + s[1..i] == s[..i];
  }

  /** A key strictly between two consecutive keys is not in the map. */
  lemma GapHasNoKey(s: seq<Entry>, i: nat, t: real)
    requires Ordered(s) && i <= |s|
    requires 0 < i ==> s[i - 1].t < t
    requires i < |s| ==> t < s[i].t
    ensures !HasKey(s, t)
  {
  }

  /**
   * The shape addPoint builds: the first point under -A_LOT and 0, the last
   * point under its length and under A_LOT, and the cached length equal to
   * the last real key.
   */
  ghost predicate IsStroke(s: seq<Entry>, length: real)
  {
    Ordered(s) && 3 <= |s| &&
    s[0].t == -ALot && s[1].t == 0.0 && s[|s| - 1].t == ALot &&
    s[0].point == s[1].point && s[|s| - 1].point == s[|s| - 2].point &&
    s[|s| - 2].t == length && length < ALot
  }

  /** The key addPoint gives a new point: the last real key plus the distance travelled to it. */
  function NextKey(s: seq<Entry>, p: Vector2, sqrt: real -> real): (k: real)
    requires IsSqrt(sqrt) && 2 <= |s|
    ensures s[|s| - 2].t <= k
  {
    s[|s| - 2].t + s[|s| - 2].point.DistTo(p, sqrt)
  }

  /** `points.rbegin()->second = p`. */
  function SetLastPoint(s: seq<Entry>, p: Vector2): (r: seq<Entry>)
    requires 0 < |s|
    ensures |r| == |s| && r[..|s| - 1] == s[..|s| - 1] && r[|s| - 1] == Entry(s[|s| - 1].t, p)
  {
    s[|s| - 1 := Entry(s[|s| - 1].t, p)]
  }

  /** The points map after addPoint(p). A one-entry map has no last real entry. */
  function AfterAddPoint(s: seq<Entry>, p: Vector2, sqrt: real -> real): seq<Entry>
    requires IsSqrt(sqrt) && Ordered(s) && |s| != 1
  {
    if |s| == 0 then [Entry(-ALot, p), Entry(0.0, p), Entry(ALot, p)]
    else SetLastPoint(Insert(s, NextKey(s, p, sqrt), p), p)
  }

  /** The first point goes under all three sentinel keys, and the length is 0. */
  lemma AddFirstPoint(p: Vector2, sqrt: real -> real)
    requires IsSqrt(sqrt)
    ensures IsStroke(AfterAddPoint([], p, sqrt), 0.0)
    ensures forall e :: e in AfterAddPoint([], p, sqrt) ==> e.point == p
  {
  }

  /**
   * A later point is stored under NextKey, just before the A_LOT sentinel,
   * which now holds it too; the entries before it are untouched, so the
   * length never decreases and the first point stays. Adding the last point
   * again changes nothing.
   */
  lemma AddPointKeepsStroke(s: seq<Entry>, length: real, p: Vector2, sqrt: real -> real)
    requires IsSqrt(sqrt) && IsStroke(s, length)
    requires NextKey(s, p, sqrt) < ALot
    ensures IsStroke(AfterAddPoint(s, p, sqrt), NextKey(s, p, sqrt))
    ensures length <= NextKey(s, p, sqrt)
    ensures AfterAddPoint(s, p, sqrt)[..2] == s[..2]
    ensures length < NextKey(s, p, sqrt) ==>
      AfterAddPoint(s, p, sqrt) == s[..|s| - 1] + [Entry(NextKey(s, p, sqrt), p), Entry(ALot, p)]
    ensures p == s[|s| - 2].point ==> AfterAddPoint(s, p, sqrt) == s
  {
    var k := NextKey(s, p, sqrt);
    if p == s[|s| - 2].point {
      DistToSelf(p, sqrt);
      assert k == length;
    }
    if k <= length {
      AddPointRepeated(s, length, p, sqrt);
    } else {
      AddPointExtends(s, length, p, sqrt);
      ExtendedStroke(s, length, k, p);
    }
  }

  /** A point at distance 0 from the last one only rewrites equal values. */
  lemma AddPointRepeated(s: seq<Entry>, length: real, p: Vector2, sqrt: real -> real)
    requires IsSqrt(sqrt) && IsStroke(s, length)
    requires NextKey(s, p, sqrt) <= length
    ensures p == s[|s| - 2].point && AfterAddPoint(s, p, sqrt) == s
  {
    var n := |s|;
    DistToZero(s[n - 2].point, p, sqrt);
    assert NextKey(s, p, sqrt) == s[n - 2].t;
    InsertAtKey(s, n - 2, p);
    UpdateSame(s, n - 2, Entry(s[n - 2].t, p));
    UpdateSame(s, n - 1, Entry(s[n - 1].t, p));
  }

  lemma UpdateSame<T>(s: seq<T>, i: nat, x: T)
    requires i < |s| && s[i] == x
    ensures s[i := x] == s
  {
  }

  /** A point at a positive distance becomes a new entry just before the A_LOT sentinel. */
  lemma AddPointExtends(s: seq<Entry>, length: real, p: Vector2, sqrt: real -> real)
    requires IsSqrt(sqrt) && IsStroke(s, length)
    requires length < NextKey(s, p, sqrt) < ALot
    ensures AfterAddPoint(s, p, sqrt) == s[..|s| - 1] + [Entry(NextKey(s, p, sqrt), p), Entry(ALot, p)]
  {
    var n := |s|;
    var k := NextKey(s, p, sqrt);
    InsertAtGap(s, n - 1, k, p);
    assert s[n - 1..] == [s[n - 1]];
  }

  /** Appending a larger real key before the end sentinel keeps the stroke shape. */
  lemma ExtendedStroke(s: seq<Entry>, length: real, k: real, p: Vector2)
    requires IsStroke(s, length) && length < k < ALot
    ensures IsStroke(s[..|s| - 1] + [Entry(k, p), Entry(ALot, p)], k)
    ensures (s[..|s| - 1] + [Entry(k, p), Entry(ALot, p)])[..2] == s[..2]
  {
    var n := |s|;
    var r := s[..n - 1] + [Entry(k, p), Entry(ALot, p)];
    assert r[..2] == s[..2];
    forall i, j | 0 <= i < j < |r|
      ensures r[i].t < r[j].t
    {
      if j < n - 1 {
        assert r[i] == s[i] && r[j] == s[j];
      } else if i < n - 1 {
        assert r[i] == s[i];
        assert s[i].t <= s[n - 2].t;
      }
    }
  }

  /** upper_bound(t): the index of the first entry whose key exceeds t (|s| when none does). */
  function UpperBound(s: seq<Entry>, t: real): (i: nat)
    requires Ordered(s)
    ensures i <= |s|
    ensures forall j :: 0 <= j < i ==> s[j].t <= t
    ensures forall j :: i <= j < |s| ==> t < s[j].t
  {
    if |s| == 0 || t < s[0].t then 0 else 1 + UpperBound(s[1..], t)
  }

  /** The local fraction of t between two consecutive keys. */
  function LocalT(t0: real, t1: real, t: real): (u: real)
    requires t0 <= t < t1
    ensures 0.0 <= u < 1.0
    ensures t == t0 ==> u == 0.0
  {
    FractionBelowOne(t - t0, t1 - t0);
    (t - t0) / (t1 - t0)
  }

  /**
   * getPointAt(t): the interpolation between the entry with the greatest key
   * <= t and the one with the least key > t. Both exist only for keys in
   * [first key, last key).
   */
  function PointAt(s: seq<Entry>, t: real): Vector2
    requires Ordered(s) && 0 < |s| && s[0].t <= t < s[|s| - 1].t
  {
    var i := UpperBound(s, t);
    Vector2.Interpolate(s[i - 1].point, s[i].point, LocalT(s[i - 1].t, s[i].t, t))
  }

  /** Any bracketing pair of consecutive keys is the one getPointAt uses. */
  lemma PointAtBracket(s: seq<Entry>, i: nat, t: real)
    requires Ordered(s) && 0 < i < |s| && s[i - 1].t <= t < s[i].t
    ensures PointAt(s, t) == Vector2.Interpolate(s[i - 1].point, s[i].point, LocalT(s[i - 1].t, s[i].t, t))
  {
  }

  /** At a stored key (other than the last), getPointAt returns that key's point exactly. */
  lemma PointAtKey(s: seq<Entry>, i: nat)
    requires Ordered(s) && i + 1 < |s|
    ensures PointAt(s, s[i].t) == s[i].point
  {
    assert s[0].t <= s[i].t;
    PointAtBracket(s, i + 1, s[i].t);
  }

  /**
   * On a stroke, getPointAt(0) is the first point and getPointAt(length) the
   * last; before 0 and past the length the sentinels hold those points.
   */
  lemma PointAtStrokeEnds(s: seq<Entry>, length: real, t: real)
    requires IsStroke(s, length)
    ensures -ALot <= t <= 0.0 ==> PointAt(s, t) == s[1].point
    ensures length <= t < ALot ==> PointAt(s, t) == s[|s| - 2].point
  {
    if -ALot <= t < 0.0 {
      PointAtBracket(s, 1, t);
    } else if t == 0.0 {
      PointAtKey(s, 1);
    }
    if length <= t < ALot {
      PointAtBracket(s, |s| - 1, t);
    }
  }

  /**
   * The sample positions of getTangentAt: t - spread clipped into
   * [start, end - margin] and t + spread clipped into [start + margin, end].
   */
  function TangentWindow(t: real, spread: real, range: Range, margin: real): (w: (real, real))
    requires range.start + margin <= range.end + Epsilon
    ensures range.start + margin <= range.end ==>
      range.start <= w.0 <= range.end - margin && range.start + margin <= w.1 <= range.end
    ensures 0.0 <= margin && 0.0 <= spread ==> w.0 <= w.1
  {
    (GetClipped(t - spread, range.start, range.end - margin),
     GetClipped(t + spread, range.start + margin, range.end))
  }

  /**
   * With the margin setBounds gives a long enough range, the two samples are
   * always exactly 2 * spread apart: near either end the window stops moving
   * instead of shrinking.
   */
  lemma TangentWindowWidth(t: real, spread: real, range: Range)
    requires 0.0 <= spread && range.start + 2.0 * spread <= range.end
    ensures TangentWindow(t, spread, range, 2.0 * spread).1 - TangentWindow(t, spread, range, 2.0 * spread).0 == 2.0 * spread
  {
  }

  /** The margin setBounds derives from a clipping range. */
  function ClippingMargin(spread: real, range: Range): (m: real)
    ensures m <= range.Length()
    ensures 0.0 <= spread ==> 0.0 <= m
    ensures m == 2.0 * spread || m == range.Length()
  {
    Min(2.0 * spread, range.Length())
  }

  /** The token layout of operator<<: "t x y" per entry, in key order. */
  function EncodeEntries(s: seq<Entry>): (r: seq<real>)
    ensures |r| == 3 * |s|
    ensures forall i :: 0 <= i < |s| ==>
      r[3 * i] == s[i].t && r[3 * i + 1] == s[i].point.x && r[3 * i + 2] == s[i].point.y
  {
    if |s| == 0 then []
    else EncodeEntries(s[..|s| - 1]) + [s[|s| - 1].t, s[|s| - 1].point.x, s[|s| - 1].point.y]
  }

  /** The whole text form: the spread, the entry count, then the entries. */
  function Encode(spread: real, s: seq<Entry>): seq<real>
  {
    [spread, |s| as real] + EncodeEntries(s)
  }

  /** The entry count operator>> reads (a negative count reads no entries). */
  function Count(tokens: seq<real>): nat
    requires 2 <= |tokens|
  {
    if tokens[1].Floor < 0 then 0 else tokens[1].Floor
  }

  /** A token stream operator>> reads completely: an integral count and that many triples. */
  predicate WellFormed(tokens: seq<real>)
  {
    2 <= |tokens| && tokens[1] == tokens[1].Floor as real && 2 + 3 * Count(tokens) <= |tokens|
  }

  /** The map after operator>> has stored the first k triples, in stream order. */
  function LoadEntries(tokens: seq<real>, k: nat): (r: seq<Entry>)
    requires 2 + 3 * k <= |tokens|
    ensures Ordered(r)
  {
    if k == 0 then []
    else
      var j := 3 * (k - 1) + 2;
      Insert(LoadEntries(tokens, k - 1), tokens[j], Vector2(tokens[j + 1], tokens[j + 2]))
  }

  /** cachedLength as operator>> derives it: the second largest key, or 0 for an empty map. */
  function LastRealKey(s: seq<Entry>): real
    requires |s| != 1
  {
    if |s| == 0 then 0.0 else s[|s| - 2].t
  }

  /** Reading back what operator<< wrote gives the same spread and the same map. */
  lemma SaveLoadRoundTrip(spread: real, s: seq<Entry>)
    requires Ordered(s)
    ensures WellFormed(Encode(spread, s)) && Count(Encode(spread, s)) == |s|
    ensures Encode(spread, s)[0] == spread
    ensures LoadEntries(Encode(spread, s), |s|) == s
    ensures forall len :: IsStroke(s, len) ==> LastRealKey(LoadEntries(Encode(spread, s), |s|)) == len
  {
    EncodeHeader(spread, s);
    LoadPrefix(spread, s, |s|);
    assert s[..|s|] == s;
    var loaded := LoadEntries(Encode(spread, s), |s|);
    forall len | IsStroke(s, len)
      ensures LastRealKey(loaded) == len
    {
      assert loaded == s;
    }
  }

  /** The spread and the count lead the text form, and the count reads back as the number of entries. */
  lemma EncodeHeader(spread: real, s: seq<Entry>)
    ensures |Encode(spread, s)| == 2 + 3 * |s|
    ensures Encode(spread, s)[0] == spread && Encode(spread, s)[1] == |s| as real
    ensures Count(Encode(spread, s)) == |s|
  {
    var tokens := Encode(spread, s);
    assert tokens[1] == |s| as real;
    assert (|s| as real).Floor == |s|;
  }

  lemma {:induction false} LoadPrefix(spread: real, s: seq<Entry>, k: nat)
    requires Ordered(s) && k <= |s|
    ensures LoadEntries(Encode(spread, s), k) == s[..k]
  {
    if k > 0 {
      LoadPrefix(spread, s, k - 1);
      EncodedEntry(spread, s, k - 1);
      AppendInOrder(s, k - 1);
      LoadStep(Encode(spread, s), k - 1);
    }
  }

  /** Reading one more triple stores it into the map read so far. */
  lemma LoadStep(tokens: seq<real>, k: nat)
    requires 2 + 3 * (k + 1) <= |tokens|
    ensures LoadEntries(tokens, k + 1) ==
            Insert(LoadEntries(tokens, k), tokens[3 * k + 2], Vector2(tokens[3 * k + 3], tokens[3 * k + 4]))
  {
  }

  /** The k-th triple of the text form holds the k-th entry. */
  lemma EncodedEntry(spread: real, s: seq<Entry>, k: nat)
    requires k < |s|
    ensures Encode(spread, s)[3 * k + 2] == s[k].t
    ensures Encode(spread, s)[3 * k + 3] == s[k].point.x
    ensures Encode(spread, s)[3 * k + 4] == s[k].point.y
  {
    assert Encode(spread, s)[2..] == EncodeEntries(s);
  }

  /** Storing the next entry of an ordered sequence appends it. */
  lemma AppendInOrder(s: seq<Entry>, k: nat)
    requires Ordered(s) && k < |s|
    ensures Insert(s[..k], s[k].t, s[k].point) == s[..k + 1]
  {
    var prefix := s[..k];
    assert 0 < k ==> prefix[k - 1].t < s[k].t;
    InsertAtGap(prefix, k, s[k].t, s[k].point);
    assert prefix[..k] + [Entry(s[k].t, s[k].point)] + prefix[k..] == s[..k + 1];
  }

  /** The three writes of the first addPoint, in the order they take effect. */
  lemma FirstInserts(p: Vector2)
    ensures Insert(Insert(Insert([], -ALot, p), 0.0, p), ALot, p) == [Entry(-ALot, p), Entry(0.0, p), Entry(ALot, p)]
  {
    InsertAtGap([], 0, -ALot, p);
    InsertAtGap([Entry(-ALot, p)], 1, 0.0, p);
    InsertAtGap([Entry(-ALot, p), Entry(0.0, p)], 2, ALot, p);
  }

  /** Both sample positions of the tangent window at t have bracketing entries. */
  ghost predicate WindowInside(s: seq<Entry>, spread: real, range: Range, margin: real, t: real)
    requires range.start + margin <= range.end + Epsilon
  {
    var w := TangentWindow(t, spread, range, margin);
    Ordered(s) && 0 < |s| && s[0].t <= w.0 < s[|s| - 1].t && s[0].t <= w.1 < s[|s| - 1].t
  }

  /** The tangent getTangentAt computes, as a function of the line's state. */
  function TangentAt(s: seq<Entry>, spread: real, range: Range, margin: real, t: real, sqrt: real -> real): (tangent: Vector2)
    requires IsSqrt(sqrt) && range.start + margin <= range.end + Epsilon
    requires WindowInside(s, spread, range, margin, t)
    ensures tangent.Norm2() <= 1.0
    ensures var w := TangentWindow(t, spread, range, margin);
      var v := PointAt(s, w.1).Minus(PointAt(s, w.0));
      0.0 <= tangent.Dot(v) && (v == Zero ==> tangent == Zero) &&
      (Epsilon2 < v.Norm2() ==> 1.0 - 0.0001 <= tangent.Norm2())
  {
    var w := TangentWindow(t, spread, range, margin);
    var v := PointAt(s, w.1).Minus(PointAt(s, w.0));
    NormalizedFacts(v, sqrt);
    if Epsilon2 < v.Norm2() then
      NormalizedIsNearlyUnit(v, sqrt);
      v.Normalized(sqrt)
    else
      v.Normalized(sqrt)
  }

  /**
   * A clipping range strictly inside the sentinel keys, with a margin that
   * fits in it, makes the tangent defined at every t: the window is clipped
   * into the range.
   */
  lemma WindowAlwaysInside(s: seq<Entry>, spread: real, range: Range, margin: real, t: real)
    requires Ordered(s) && 0 < |s| && s[0].t <= range.start && range.end < s[|s| - 1].t
    requires 0.0 <= margin && range.start + margin <= range.end
    ensures WindowInside(s, spread, range, margin, t)
  {
  }

  /** The parametrised polyline with its tangent clipping state. */
  class FreeformLine {
    var points: seq<Entry>
    var cachedLength: real
    /** Temporary processing state, not serialised. */
    var clippingRange: Range
    var clippingMargin: real
    /** Distance between the points getTangentAt samples on either side; must exceed Epsilon. */
    var halfSmoothingSpread: real

    ghost predicate Valid()
      reads this
    {
      Ordered(points)
    }

    constructor ()
      ensures points == [] && cachedLength == 0.0 && halfSmoothingSpread == 10.0
      ensures clippingRange == Range(-ALot, ALot) && clippingMargin == 0.0
      ensures Valid()
    {
      points := [];
      cachedLength := 0.0;
      clippingRange := Range(-ALot, ALot);
      clippingMargin := 0.0;
      halfSmoothingSpread := 10.0;
    }

    /** The copy `FreeformLine lineCopy = *sourceLine`. */
    constructor Copy(other: FreeformLine)
      ensures points == other.points && cachedLength == other.cachedLength
      ensures clippingRange == other.clippingRange && clippingMargin == other.clippingMargin
      ensures halfSmoothingSpread == other.halfSmoothingSpread
    {
      points := other.points;
      cachedLength := other.cachedLength;
      clippingRange := other.clippingRange;
      clippingMargin := other.clippingMargin;
      halfSmoothingSpread := other.halfSmoothingSpread;
    }

    /** addPoint(p): the first point fills the three sentinels; later ones extend the line. */
    method AddPoint(p: Vector2, sqrt: real -> real)
      requires IsSqrt(sqrt) && Valid() && |points| != 1
      modifies this
      ensures points == AfterAddPoint(old(points), p, sqrt) && Valid()
      ensures cachedLength == if |old(points)| == 0 then old(cachedLength) else NextKey(old(points), p, sqrt)
      ensures clippingRange == old(clippingRange) && clippingMargin == old(clippingMargin)
      ensures halfSmoothingSpread == old(halfSmoothingSpread)
    {
      ghost var s := points;
      if |points| > 0 {
        var last := points[|points| - 2];
        var length := last.t + last.point.DistTo(p, sqrt);
        assert length == NextKey(s, p, sqrt);
        points := Insert(points, length, p);
        points := points[|points| - 1 := Entry(points[|points| - 1].t, p)];
        assert points == AfterAddPoint(s, p, sqrt);
        cachedLength := length;
      } else {
        FirstInserts(p);
        points := Insert(points, -ALot, p);
        points := Insert(points, 0.0, p);
        points := Insert(points, ALot, p);
      }
    }

    function Length(): real
      reads this
    {
      cachedLength
    }

    function GetBounds(): Range
      reads this
    {
      clippingRange
    }

    /** setBounds(range): stores the range and derives the clipping margin from it. */
    method SetBounds(range: Range)
      modifies this
      ensures clippingRange == range && clippingMargin == ClippingMargin(halfSmoothingSpread, range)
      ensures 0.0 <= halfSmoothingSpread ==> 0.0 <= clippingMargin <= range.Length()
      ensures points == old(points) && cachedLength == old(cachedLength)
      ensures halfSmoothingSpread == old(halfSmoothingSpread)
    {
      clippingRange := range;
      clippingMargin := Min(2.0 * halfSmoothingSpread, range.Length());
    }

    function GetPointAt(t: real): Vector2
      reads this
      requires Valid() && 0 < |points| && points[0].t <= t < points[|points| - 1].t
    {
      PointAt(points, t)
    }

    /** Both getClipped calls of getTangentAt accept their bounds. */
    ghost predicate TangentWindowValid()
      reads this
    {
      clippingRange.start + clippingMargin <= clippingRange.end + Epsilon
    }

    /** Both tangent samples have bracketing entries. */
    ghost predicate TangentSamplesInside(t: real)
      reads this
      requires TangentWindowValid()
    {
      WindowInside(points, halfSmoothingSpread, clippingRange, clippingMargin, t)
    }

    /**
     * getTangentAt(t): the tangent of the line's current state, never longer
     * than 1 and pointing from the point at the window's first position to
     * the point at its second.
     */
    function GetTangentAt(t: real, sqrt: real -> real): (tangent: Vector2)
      reads this
      requires IsSqrt(sqrt) && Epsilon < halfSmoothingSpread
      requires TangentWindowValid() && TangentSamplesInside(t)
      ensures tangent.Norm2() <= 1.0
      ensures var w := TangentWindow(t, halfSmoothingSpread, clippingRange, clippingMargin);
        var v := GetPointAt(w.1).Minus(GetPointAt(w.0));
        0.0 <= tangent.Dot(v) && (v == Zero ==> tangent == Zero) &&
        (Epsilon2 < v.Norm2() ==> 1.0 - 0.0001 <= tangent.Norm2())
    {
      TangentAt(points, halfSmoothingSpread, clippingRange, clippingMargin, t, sqrt)
    }

    /** operator<<. */
    method Save() returns (tokens: seq<real>)
      ensures tokens == Encode(halfSmoothingSpread, points)
    {
      tokens := [halfSmoothingSpread, |points| as real];
      var i := 0;
      while i < |points|
        invariant 0 <= i <= |points|
        invariant tokens == [halfSmoothingSpread, |points| as real] + EncodeEntries(points[..i])
      {
        var e := points[i];
        tokens := tokens + [e.t, e.point.x, e.point.y];
        assert points[..i + 1][..i] == points[..i];
        i := i + 1;
      }
      assert points[..i] == points;
    }

    /**
     * operator>>: clears the map, reads the spread and the count, then stores
     * each triple in turn. A stream that does not hold all of that leaves an
     * empty map and reports failure.
     */
    method Load(tokens: seq<real>) returns (ok: bool)
      requires WellFormed(tokens) ==> |LoadEntries(tokens, Count(tokens))| != 1
      modifies this
      ensures ok == WellFormed(tokens) && Valid()
      ensures ok ==> halfSmoothingSpread == tokens[0] && points == LoadEntries(tokens, Count(tokens))
      ensures ok ==> cachedLength == LastRealKey(points)
      ensures !ok ==> points == [] && cachedLength == 0.0 && halfSmoothingSpread == old(halfSmoothingSpread)
      ensures clippingRange == old(clippingRange) && clippingMargin == old(clippingMargin)
    {
      points := [];
      if !WellFormed(tokens) {
        cachedLength := 0.0;
        return false;
      }
      halfSmoothingSpread := tokens[0];
      var n := Count(tokens);
      var i := 0;
      while i < n
        invariant 0 <= i <= n
        invariant points == LoadEntries(tokens, i)
        invariant halfSmoothingSpread == tokens[0]
        invariant clippingRange == old(clippingRange) && clippingMargin == old(clippingMargin)
      {
        LoadStep(tokens, i);
        points := Insert(points, tokens[3 * i + 2], Vector2(tokens[3 * i + 3], tokens[3 * i + 4]));
        i := i + 1;
      }
      cachedLength := if |points| > 0 then points[|points| - 2].t else 0.0;
      ok := true;
    }
  }
}
