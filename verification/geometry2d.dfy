/**
 * The exact, sign-based 2D geometry kernel: points, segments, axis-aligned
 * rectangles and triangles over the reals.  Every query is a polynomial in
 * the coordinates followed by comparisons; Euclidean distances are modelled
 * by their squares (a square root is monotone, so every comparison the
 * system makes on a distance is made here on its square).
 */
module Geometry2D {

  // ---------------------------------------------------------------- Point

  datatype Point = Point(x: real, y: real)

  /** Componentwise sum, as `Point.__add__`; subtracting q again gives p back. */
  function Add(p: Point, q: Point): (r: Point)
    ensures Sub(r, q) == p
  {
    Point(p.x + q.x, p.y + q.y)
  }

  /** Componentwise difference, as `Point.__sub__`: the vector from q to p, zero exactly when they coincide. */
  function Sub(p: Point, q: Point): (r: Point)
    ensures r == Point(0.0, 0.0) <==> p == q
  {
    Point(p.x - q.x, p.y - q.y)
  }

  /** The difference vector's squared length is the squared distance between the points. */
  lemma SubLengthIsDistance(p: Point, q: Point)
    ensures Sq(Sub(p, q).x) + Sq(Sub(p, q).y) == SqDist(p, q)
  {
  }

  /** Multiplication by a scalar, as `Point.__mul__`: 1 keeps the point, 0 sends it to the origin. */
  function Scale(p: Point, s: real): (r: Point)
    ensures s == 1.0 ==> r == p
    ensures s == 0.0 ==> r == Point(0.0, 0.0)
  {
    Point(p.x * s, p.y * s)
  }

  /** Squared Euclidean distance between two points. */
  function SqDist(p: Point, q: Point): (d: real)
    ensures d >= 0.0
    ensures d == 0.0 <==> p == q
  {
    Sq(p.x - q.x) + Sq(p.y - q.y)
  }

  /** The square of v: non-negative, and positive unless v is 0. */
  function Sq(v: real): (r: real)
    ensures r >= 0.0
    ensures v == 0.0 <==> r == 0.0
  {
    if v > 0.0 then PositiveProduct(v, v)
    else if v < 0.0 then PositiveProduct(-v, -v)
    else 0.0
  }

  /** The product of two positive reals. */
  function PositiveProduct(a: real, b: real): (r: real)
    requires a > 0.0 && b > 0.0
    ensures r > 0.0
  {
    a * b
  }

  lemma SqIsProduct(v: real)
    ensures Sq(v) == v * v
  {
  }

  /** A quotient of 0 <= a <= b by b > 0 lies in [0, 1]. */
  lemma QuotientInUnit(a: real, b: real)
    requires 0.0 <= a <= b && b > 0.0
    ensures 0.0 <= a / b <= 1.0
  {
    assert (a / b) * b == a;
  }

  // -------------------------------------------------------------- Segment

  /** A segment from (x1, y1) to (x2, y2); the endpoints are kept in the order given. */
  datatype Segment = Segment(x1: real, y1: real, x2: real, y2: real)

  function Start(s: Segment): Point { Point(s.x1, s.y1) }
  function End(s: Segment): Point { Point(s.x2, s.y2) }

  /** The same segment traversed the other way. */
  function Reverse(s: Segment): (r: Segment)
    ensures Start(r) == End(s) && End(r) == Start(s)
  {
    Segment(s.x2, s.y2, s.x1, s.y1)
  }

  /** `Segment.__init__` / `set_points`: the first point becomes (x1, y1), the second (x2, y2). */
  function SegmentFromPoints(p1: Point, p2: Point): (s: Segment)
    ensures Start(s) == p1 && End(s) == p2
  {
    Segment(p1.x, p1.y, p2.x, p2.y)
  }

  /** `endpoints`: two points that both lie on the segment, equal exactly when it has no length. */
  function Endpoints(s: Segment): (ps: seq<Point>)
    ensures |ps| == 2 && PointOn(s, ps[0]) && PointOn(s, ps[1])
    ensures ps[0] == ps[1] <==> LenSq(s) == 0.0
  {
    [Point(s.x1, s.y1), Point(s.x2, s.y2)]
  }

  /** `midpoint`: the point halfway along, on the segment and equally far from both ends. */
  function Midpoint(s: Segment): (m: Point)
    ensures m == At(s, 0.5)
    ensures PointOn(s, m)
    ensures SqDist(m, Start(s)) == SqDist(m, End(s))
  {
    Point((s.x1 + s.x2) / 2.0, (s.y1 + s.y2) / 2.0)
  }

  /** The point at parameter t along the segment, `(x1 + t*C, y1 + t*D)` of `distanceFromPoint`. */
  function At(s: Segment, t: real): (r: Point)
    ensures r == Add(Start(s), Scale(Sub(End(s), Start(s)), t))
    ensures t == 0.0 ==> r == Start(s)
    ensures t == 1.0 ==> r == End(s)
  {
    Point(Lerp(s.x1, s.x2, t), Lerp(s.y1, s.y2, t))
  }

  /** lo + t (hi - lo); for 0 <= t <= 1 it lies between lo and hi, whichever is larger. */
  function Lerp(lo: real, hi: real, t: real): (v: real)
    ensures t == 0.0 ==> v == lo
    ensures t == 1.0 ==> v == hi
    ensures 0.0 <= t <= 1.0 && lo <= hi ==> lo <= v <= hi
    ensures 0.0 <= t <= 1.0 && hi <= lo ==> hi <= v <= lo
  {
    var v := lo + t * (hi - lo);
    if 0.0 <= t <= 1.0 then
      assert hi - v == (1.0 - t) * (hi - lo);
      if lo <= hi then
        NonNegativeProduct(t, hi - lo);
        NonNegativeProduct(1.0 - t, hi - lo);
        v
      else
        NonNegativeProduct(t, lo - hi);
        NonNegativeProduct(1.0 - t, lo - hi);
        v
    else v
  }

  /**
   * The clamped scalar projection of `distanceFromPoint`.  `param` stays -1
   * when the segment has length zero, so the division is never by zero.
   */
  function ClosestParam(s: Segment, pt: Point): (param: real)
  {
    var lenSq := LenSq(s);
    if lenSq != 0.0 then Dot(s, pt) / lenSq else -1.0
  }

  /** The dot product of (pt - Start) with the direction vector, `dot` in the source. */
  function Dot(s: Segment, pt: Point): real
  {
    (pt.x - s.x1) * (s.x2 - s.x1) + (pt.y - s.y1) * (s.y2 - s.y1)
  }

  /** The squared length of the direction vector, `len_sq` in the source. */
  function LenSq(s: Segment): (len: real)
    ensures len >= 0.0
    ensures len == 0.0 <==> Start(s) == End(s)
  {
    Sq(s.x2 - s.x1) + Sq(s.y2 - s.y1)
  }

  function ClosestPoint(s: Segment, pt: Point): (q: Point)
  {
    var param := ClosestParam(s, pt);
    if param < 0.0 then Point(s.x1, s.y1)
    else if param > 1.0 then Point(s.x2, s.y2)
    else At(s, param)
  }

  /** `Segment.distanceFromPoint`, squared. */
  function SqDistanceFromPoint(s: Segment, pt: Point): (d: real)
    ensures d >= 0.0
  {
    SqDist(pt, ClosestPoint(s, pt))
  }

  /** `pointOn`: the point lies in the segment's bounding box (each axis checked in both orders). */
  predicate PointOn(s: Segment, pt: Point): (b: bool)
  {
    var btwnX1 := s.x1 <= pt.x && pt.x <= s.x2;
    var btwnX2 := s.x2 <= pt.x && pt.x <= s.x1;
    if !btwnX1 && !btwnX2 then false
    else
      var btwnY1 := s.y1 <= pt.y && pt.y <= s.y2;
      var btwnY2 := s.y2 <= pt.y && pt.y <= s.y1;
      btwnY1 || btwnY2
  }

  /** `pointOn` is membership of the segment's bounding box, the rectangle its endpoints span. */
  lemma PointOnIsBoundingBox(s: Segment, pt: Point)
    ensures PointOn(s, pt) <==> Contains(RectFromPoints(Start(s), End(s)), pt)
  {
  }

  lemma PointOnReverse(s: Segment, pt: Point)
    ensures PointOn(Reverse(s), pt) == PointOn(s, pt)
  {
  }

  /** Every point At(s, t) with 0 <= t <= 1 lies within the segment's bounding box. */
  lemma AtIsOn(s: Segment, t: real)
    requires 0.0 <= t <= 1.0
    ensures PointOn(s, At(s, t))
  {
  }

  lemma NonNegativeProduct(a: real, b: real)
    requires a >= 0.0 && b >= 0.0
    ensures a * b >= 0.0
  {
  }

  /** The clamped projection always lands on the segment. */
  lemma ClosestPointOn(s: Segment, pt: Point)
    ensures PointOn(s, ClosestPoint(s, pt))
  {
    var p := ClosestParam(s, pt);
    if 0.0 <= p <= 1.0 {
      AtIsOn(s, p);
    }
  }

  /**
   * `distanceFromPoint` measures 0 at either endpoint, and a zero-length
   * segment measures from (x1, y1), the projection being skipped.
   */
  lemma SqDistanceFromPointEndpoints(s: Segment, pt: Point)
    ensures SqDistanceFromPoint(s, Start(s)) == 0.0
    ensures SqDistanceFromPoint(s, End(s)) == 0.0
    ensures Start(s) == End(s) ==> ClosestParam(s, pt) == -1.0
    ensures Start(s) == End(s) ==> SqDistanceFromPoint(s, pt) == SqDist(pt, Start(s))
  {
    assert Dot(s, Start(s)) == 0.0;
    assert At(s, 0.0) == Start(s);
    if Start(s) != End(s) {
      DotOfEnd(s);
      DivBySelf(LenSq(s));
      assert ClosestParam(s, End(s)) == 1.0;
      assert At(s, 1.0) == End(s);
    }
  }

  /** Projecting the far endpoint gives the squared length itself. */
  lemma DotOfEnd(s: Segment)
    ensures Dot(s, End(s)) == LenSq(s)
  {
    SqIsProduct(s.x2 - s.x1);
    SqIsProduct(s.y2 - s.y1);
  }

  lemma DivBySelf(x: real)
    requires x != 0.0
    ensures x / x == 1.0
  {
  }

  /** On an axis-parallel segment, every point of the segment is at distance 0 from it. */
  lemma AxisSegmentDistanceZero(s: Segment, pt: Point)
    requires (s.y1 == s.y2 && pt.y == s.y1) || (s.x1 == s.x2 && pt.x == s.x1)
    requires PointOn(s, pt)
    ensures SqDistanceFromPoint(s, pt) == 0.0
  {
    if Start(s) == End(s) {
      assert pt == Start(s);
    } else if s.y1 == s.y2 {
      var a, c := pt.x - s.x1, s.x2 - s.x1;
      assert Dot(s, pt) == a * c;
      assert LenSq(s) == Sq(c);
      AxisParam(a, c);
      assert ClosestParam(s, pt) == a / c;
      assert At(s, a / c) == pt;
    } else {
      var b, d := pt.y - s.y1, s.y2 - s.y1;
      assert Dot(s, pt) == b * d;
      assert LenSq(s) == Sq(d);
      AxisParam(b, d);
      assert ClosestParam(s, pt) == b / d;
      assert At(s, b / d) == pt;
    }
  }

  /**
   * Along one axis the projection parameter (a c) / c^2 is the fraction
   * a / c, which lies in [0, 1] when a lies between 0 and c.
   */
  lemma AxisParam(a: real, c: real)
    requires c != 0.0
    requires (0.0 <= a <= c) || (c <= a <= 0.0)
    ensures (a * c) / Sq(c) == a / c
    ensures 0.0 <= a / c <= 1.0
    ensures (a / c) * c == a
  {
    var q := a / c;
    assert q * c == a;
    ScaledBySquare(q, c, a);
    DivByProduct(a * c, Sq(c), q);
    if c > 0.0 {
      QuotientInUnit(a, c);
    } else {
      QuotientInUnit(-a, -c);
      assert (-a) / (-c) == q;
    }
  }

  lemma ScaledBySquare(q: real, c: real, a: real)
    requires q * c == a
    ensures a * c == q * Sq(c)
  {
    SqIsProduct(c);
  }

  lemma DivByProduct(x: real, y: real, q: real)
    requires y != 0.0 && x == q * y
    ensures x / y == q
  {
  }

  // ----------------------------------------------------------- Orientation

  /** The orientation codes; note that none of them is 0. */
  const COLINEAR: int := -1
  const CLOCKWISE: int := -2
  const COUNTERCLOCKWISE: int := -3

  /** The cross-product value whose sign `orientation` reports. */
  function OrientationValue(s: Segment, pt: Point): real
  {
    (s.y2 - s.y1) * (pt.x - s.x2) - (s.x2 - s.x1) * (pt.y - s.y2)
  }

  /** `Segment.orientation` of pt relative to the directed segment s. */
  function Orientation(s: Segment, pt: Point): (o: int)
    ensures o == COLINEAR || o == CLOCKWISE || o == COUNTERCLOCKWISE
    ensures o == COLINEAR <==> OrientationValue(s, pt) == 0.0
  {
    var v := OrientationValue(s, pt);
    if v > 0.0 then CLOCKWISE
    else if v < 0.0 then COUNTERCLOCKWISE
    else COLINEAR
  }

  /** Clockwise and counterclockwise exchanged; collinear kept. */
  function Flip(o: int): int
  {
    if o == CLOCKWISE then COUNTERCLOCKWISE
    else if o == COUNTERCLOCKWISE then CLOCKWISE
    else o
  }

  lemma OrientationOfOwnEndpoints(s: Segment)
    ensures Orientation(s, Start(s)) == COLINEAR
    ensures Orientation(s, End(s)) == COLINEAR
  {
    assert OrientationValue(s, Start(s)) == 0.0 by {
      assert (s.y2 - s.y1) * (s.x1 - s.x2) == -((s.x2 - s.x1) * (s.y2 - s.y1));
    }
  }

  /** The cross-product value negates when the segment is reversed. */
  lemma OrientationValueReverse(s: Segment, pt: Point)
    ensures OrientationValue(Reverse(s), pt) == -OrientationValue(s, pt)
  {
    var c, d := s.x2 - s.x1, s.y2 - s.y1;
    assert OrientationValue(s, pt) == d * (pt.x - s.x1) - c * (pt.y - s.y1) by {
      assert d * (pt.x - s.x2) == d * (pt.x - s.x1) - d * c;
      assert c * (pt.y - s.y2) == c * (pt.y - s.y1) - c * d;
    }
    assert OrientationValue(Reverse(s), pt) == (-d) * (pt.x - s.x1) - (-c) * (pt.y - s.y1);
  }

  /** Swapping a segment's endpoints swaps CLOCKWISE and COUNTERCLOCKWISE. */
  lemma OrientationReverse(s: Segment, pt: Point)
    ensures Orientation(Reverse(s), pt) == Flip(Orientation(s, pt))
  {
    OrientationValueReverse(s, pt);
  }

  // ---------------------------------------------------------- Intersection

  /**
   * `Segment.intersectsWithSegment`, with its collinear-touch branches as
   * written: they compare an orientation with 0, which `Orientation` never returns.
   */
  predicate Intersects(a: Segment, b: Segment): (r: bool)
    ensures r <==> Orientation(a, Start(b)) != Orientation(a, End(b)) &&
                   Orientation(b, Start(a)) != Orientation(b, End(a))
  {
    var p1, q1 := Start(a), End(a);
    var p2, q2 := Start(b), End(b);
    var o1 := Orientation(a, p2);
    var o2 := Orientation(a, q2);
    var o3 := Orientation(b, p1);
    var o4 := Orientation(b, q1);
    if o1 != o2 && o3 != o4 then true
    else if (o1 == 0 && PointOn(a, p2)) || (o2 == 0 && PointOn(a, q2)) then true
    else if (o3 == 0 && PointOn(b, p1)) || (o4 == 0 && PointOn(b, q1)) then true
    else false
  }

  lemma IntersectsSymmetric(a: Segment, b: Segment)
    ensures Intersects(a, b) == Intersects(b, a)
  {
  }

  /**
   * Segments on one common horizontal or vertical line are never reported as
   * intersecting, even when they overlap: all four orientations are COLINEAR
   * and the collinear-touch branches cannot fire.
   */
  lemma CollinearAxisSegmentsNeverIntersect(a: Segment, b: Segment)
    requires (a.y1 == a.y2 && b.y1 == a.y1 && b.y2 == a.y1) ||
             (a.x1 == a.x2 && b.x1 == a.x1 && b.x2 == a.x1)
    ensures !Intersects(a, b)
  {
    if a.y1 == a.y2 && b.y1 == a.y1 && b.y2 == a.y1 {
      assert a.y2 - a.y1 == 0.0 && b.y2 - b.y1 == 0.0;
      assert Start(a).y - a.y2 == 0.0 && End(a).y - a.y2 == 0.0;
      assert Start(b).y - a.y2 == 0.0 && End(b).y - a.y2 == 0.0;
      assert Start(a).y - b.y2 == 0.0 && End(a).y - b.y2 == 0.0;
    } else {
      assert a.x2 - a.x1 == 0.0 && b.x2 - b.x1 == 0.0;
      assert Start(b).x - a.x2 == 0.0 && End(b).x - a.x2 == 0.0;
      assert Start(a).x - b.x2 == 0.0 && End(a).x - b.x2 == 0.0;
    }
  }

  /**
   * A horizontal and a vertical segment meeting in a shared endpoint are
   * reported as intersecting: each gives the shared endpoint COLINEAR and
   * the other endpoint a proper side.
   */
  lemma CornerTouchReported(x0: real, y0: real, x1: real, y1: real)
    requires x0 != x1 && y0 != y1
    ensures Intersects(Segment(x0, y0, x1, y0), Segment(x1, y0, x1, y1))
  {
    var a, b := Segment(x0, y0, x1, y0), Segment(x1, y0, x1, y1);
    assert OrientationValue(a, Start(b)) == 0.0;
    NonZeroProduct(x1 - x0, y1 - y0);
    assert OrientationValue(a, End(b)) == -((x1 - x0) * (y1 - y0));
    NonZeroProduct(y1 - y0, x0 - x1);
    assert OrientationValue(b, Start(a)) == (y1 - y0) * (x0 - x1);
    assert OrientationValue(b, End(a)) == 0.0;
  }

  lemma NonZeroProduct(a: real, b: real)
    requires a != 0.0 && b != 0.0
    ensures a * b != 0.0
  {
    if a > 0.0 {
      if b > 0.0 { assert a * b > 0.0; } else { assert a * (-b) > 0.0; }
    } else {
      if b > 0.0 { assert (-a) * b > 0.0; } else { assert (-a) * (-b) > 0.0; }
    }
  }

  // ------------------------------------------------------------------ Rect

  /** An axis-aligned rectangle in screen coordinates (y grows downward). */
  datatype Rect = Rect(left: real, top: real, right: real, bottom: real)

  predicate Normalized(r: Rect)
  {
    r.left <= r.right && r.top <= r.bottom
  }

  /** `contains`, inclusive on every side; a rectangle whose sides are out of order contains nothing. */
  predicate Contains(r: Rect, pt: Point): (b: bool)
    ensures b ==> Normalized(r)
  {
    r.left <= pt.x <= r.right && r.top <= pt.y <= r.bottom
  }

  predicate StrictlyInside(r: Rect, pt: Point)
  {
    r.left < pt.x < r.right && r.top < pt.y < r.bottom
  }

  /**
   * `Rect.__init__` / `set_points`: the smallest rectangle containing both
   * points; each side is one of the given coordinates.
   */
  function RectFromPoints(p1: Point, p2: Point): (r: Rect)
    ensures Normalized(r)
    ensures Contains(r, p1) && Contains(r, p2)
    ensures (r.left == p1.x || r.left == p2.x) && (r.right == p1.x || r.right == p2.x)
    ensures (r.top == p1.y || r.top == p2.y) && (r.bottom == p1.y || r.bottom == p2.y)
  {
    Rect(Min(p1.x, p2.x), Min(p1.y, p2.y), Max(p1.x, p2.x), Max(p1.y, p2.y))
  }

  function Min(a: real, b: real): real { if a <= b then a else b }
  function Max(a: real, b: real): real { if a >= b then a else b }

  /** The smallest-rectangle reading of `RectFromPoints`: any rectangle containing both points contains it. */
  lemma RectFromPointsIsSmallest(p1: Point, p2: Point, o: Rect)
    requires Contains(o, p1) && Contains(o, p2)
    ensures forall pt :: Contains(RectFromPoints(p1, p2), pt) ==> Contains(o, pt)
  {
  }

  function TopLeft(r: Rect): Point { Point(r.left, r.top) }
  function TopRight(r: Rect): Point { Point(r.right, r.top) }
  function BottomLeft(r: Rect): Point { Point(r.left, r.bottom) }
  function BottomRight(r: Rect): Point { Point(r.right, r.bottom) }

  /** `center`: contained in the rectangle, and strictly inside when it has positive area. */
  function Center(r: Rect): (c: Point)
    ensures Normalized(r) ==> Contains(r, c)
    ensures r.left < r.right && r.top < r.bottom ==> StrictlyInside(r, c)
  {
    Point((r.left + r.right) / 2.0, (r.top + r.bottom) / 2.0)
  }

  /** `contains` is inclusive on all four sides: each corner and the centre are contained. */
  lemma ContainsCornersAndCenter(r: Rect)
    requires Normalized(r)
    ensures Contains(r, TopLeft(r)) && Contains(r, TopRight(r))
    ensures Contains(r, BottomLeft(r)) && Contains(r, BottomRight(r))
    ensures Contains(r, Center(r))
  {
  }

  /**
   * `overlaps`, which is strict on every side: for rectangles of positive
   * area, overlap means that some point lies strictly inside both.
   */
  predicate Overlaps(r: Rect, other: Rect): (b: bool)
    ensures r.left < r.right && r.top < r.bottom && other.left < other.right && other.top < other.bottom ==>
              (b <==> exists pt :: StrictlyInside(r, pt) && StrictlyInside(other, pt))
  {
    var b := r.right > other.left && r.left < other.right &&
             r.top < other.bottom && r.bottom > other.top;
    if b then
      var w := Point((Max(r.left, other.left) + Min(r.right, other.right)) / 2.0,
                     (Max(r.top, other.top) + Min(r.bottom, other.bottom)) / 2.0);
      assert r.left < r.right && r.top < r.bottom && other.left < other.right && other.top < other.bottom ==>
               StrictlyInside(r, w) && StrictlyInside(other, w);
      b
    else b
  }

  lemma OverlapsSymmetric(r: Rect, o: Rect)
    ensures Overlaps(r, o) == Overlaps(o, r)
  {
  }

  /** Rectangles that only share an edge do not overlap. */
  lemma SharedEdgeIsNoOverlap(r: Rect, o: Rect)
    requires r.right == o.left || r.bottom == o.top
    ensures !Overlaps(r, o) && !Overlaps(o, r)
  {
  }


  /** `expanded_by(n)`: the rectangle through (left-n, top-n) and (right+n, bottom+n). */
  function ExpandedBy(r: Rect, n: real): (e: Rect)
    ensures Normalized(e)
  {
    RectFromPoints(Point(r.left - n, r.top - n), Point(r.right + n, r.bottom + n))
  }

  /** For n >= 0 each side moves outward by exactly n, and the result contains the original. */
  lemma ExpandedByGrows(r: Rect, n: real)
    requires Normalized(r) && n >= 0.0
    ensures ExpandedBy(r, n) == Rect(r.left - n, r.top - n, r.right + n, r.bottom + n)
    ensures forall pt :: Contains(r, pt) ==> Contains(ExpandedBy(r, n), pt)
  {
  }

  /** `Rect.segments`: top, right, bottom and left edge, in that order. */
  function Edges(r: Rect): (segs: seq<Segment>)
    ensures |segs| == 4
  {
    [SegmentFromPoints(TopLeft(r), TopRight(r)),
     SegmentFromPoints(TopRight(r), BottomRight(r)),
     SegmentFromPoints(BottomLeft(r), BottomRight(r)),
     SegmentFromPoints(TopLeft(r), BottomLeft(r))]
  }

  /** Every edge is axis-parallel and every point on an edge belongs to the rectangle. */
  lemma EdgesBoundRect(r: Rect, k: nat, pt: Point)
    requires Normalized(r) && k < 4
    ensures Edges(r)[k].x1 == Edges(r)[k].x2 || Edges(r)[k].y1 == Edges(r)[k].y2
    ensures PointOn(Edges(r)[k], pt) ==> Contains(r, pt)
  {
  }

  /** `Rect.distanceFromPoint`, squared: the least squared distance to the four edges. */
  function RectSqDistanceFromPoint(r: Rect, pt: Point): (d: real)
    ensures forall k :: 0 <= k < 4 ==> d <= SqDistanceFromPoint(Edges(r)[k], pt)
    ensures exists k :: 0 <= k < 4 && d == SqDistanceFromPoint(Edges(r)[k], pt)
  {
    var segs := Edges(r);
    var d0 := SqDistanceFromPoint(segs[0], pt);
    var d1 := SqDistanceFromPoint(segs[1], pt);
    var d2 := SqDistanceFromPoint(segs[2], pt);
    var d3 := SqDistanceFromPoint(segs[3], pt);
    Min(Min(d0, d1), Min(d2, d3))
  }

  /** A point on the boundary is at distance 0 from the rectangle. */
  lemma RectDistanceZeroOnBoundary(r: Rect, pt: Point)
    requires Normalized(r)
    requires Contains(r, pt)
    requires pt.x == r.left || pt.x == r.right || pt.y == r.top || pt.y == r.bottom
    ensures RectSqDistanceFromPoint(r, pt) == 0.0
  {
    var k: nat := if pt.y == r.top then 0 else if pt.x == r.right then 1
                  else if pt.y == r.bottom then 2 else 3;
    AxisSegmentDistanceZero(Edges(r)[k], pt);
  }

  // -------------------------------------------------------------- Triangle

  datatype Triangle = Triangle(p1: Point, p2: Point, p3: Point)

  /** The three edges in the order the source tests them: p1p2, p2p3, p3p1. */
  function Sides(t: Triangle): (segs: seq<Segment>)
    ensures |segs| == 3
  {
    [SegmentFromPoints(t.p1, t.p2), SegmentFromPoints(t.p2, t.p3), SegmentFromPoints(t.p3, t.p1)]
  }

  /** The three vertices are not collinear. */
  predicate NonDegenerate(t: Triangle)
  {
    OrientationValue(SegmentFromPoints(t.p1, t.p2), t.p3) != 0.0
  }

  /**
   * `Triangle.pointInside`: the point gets the same orientation code from all
   * three edges.  In a non-degenerate triangle that makes it strict: every
   * edge gives the point a non-zero value, all of the same sign.
   */
  predicate PointInside(t: Triangle, pt: Point): (b: bool)
    ensures NonDegenerate(t) && b ==>
              (forall k :: 0 <= k < 3 ==> Orientation(Sides(t)[k], pt) != COLINEAR) &&
              ((forall k :: 0 <= k < 3 ==> OrientationValue(Sides(t)[k], pt) > 0.0) ||
               (forall k :: 0 <= k < 3 ==> OrientationValue(Sides(t)[k], pt) < 0.0))
  {
    var segs := Sides(t);
    var o1 := Orientation(segs[0], pt);
    var o2 := Orientation(segs[1], pt);
    var o3 := Orientation(segs[2], pt);
    OrientationValuesSum(t, pt);
    o1 == o2 && o2 == o3
  }

  /** `Triangle.intersectsWithSegment`: some edge is crossed, in whichever order the edges are tried, or an endpoint is inside. */
  predicate TriangleIntersectsSegment(t: Triangle, seg: Segment): (b: bool)
    ensures b <==> (exists k :: 0 <= k < 3 && Intersects(seg, Sides(t)[k])) ||
                   PointInside(t, Start(seg)) || PointInside(t, End(seg))
  {
    var segs := Sides(t);
    if Intersects(seg, segs[0]) then true
    else if Intersects(seg, segs[1]) then true
    else if Intersects(seg, segs[2]) then true
    else PointInside(t, Start(seg)) || PointInside(t, End(seg))
  }

  /** The three edge values always add up to the triangle's own orientation value. */
  lemma OrientationValuesSum(t: Triangle, pt: Point)
    ensures OrientationValue(Sides(t)[0], pt) + OrientationValue(Sides(t)[1], pt) +
            OrientationValue(Sides(t)[2], pt) == OrientationValue(Sides(t)[0], t.p3)
  {
    var a, b, c := t.p1, t.p2, t.p3;
    // Each value, rewritten relative to the edge's first vertex.
    assert OrientationValue(Sides(t)[0], pt) ==
      (b.y - a.y) * (pt.x - a.x) - (b.x - a.x) * (pt.y - a.y);
    assert OrientationValue(Sides(t)[1], pt) ==
      (c.y - b.y) * (pt.x - b.x) - (c.x - b.x) * (pt.y - b.y);
    assert OrientationValue(Sides(t)[2], pt) ==
      (a.y - c.y) * (pt.x - c.x) - (a.x - c.x) * (pt.y - c.y);
    assert OrientationValue(Sides(t)[0], c) ==
      (b.y - a.y) * (c.x - a.x) - (b.x - a.x) * (c.y - a.y);
  }

  /** No point on an edge line of a non-degenerate triangle, in particular no vertex, is inside. */
  lemma EdgePointsNotInside(t: Triangle, pt: Point, k: nat)
    requires NonDegenerate(t) && k < 3
    requires OrientationValue(Sides(t)[k], pt) == 0.0
    ensures !PointInside(t, pt)
    ensures !PointInside(t, t.p1) && !PointInside(t, t.p2) && !PointInside(t, t.p3)
  {
    if PointInside(t, pt) {
      assert false;
    }
    forall v | v in [t.p1, t.p2, t.p3]
      ensures !PointInside(t, v)
    {
      var j: nat := if v == t.p1 then 0 else if v == t.p2 then 1 else 2;
      OrientationOfOwnEndpoints(Sides(t)[j]);
      if PointInside(t, v) {
        assert false;
      }
    }
  }

  /** A segment with an endpoint strictly inside intersects the triangle. */
  lemma InsideEndpointIntersects(t: Triangle, seg: Segment)
    requires PointInside(t, Start(seg)) || PointInside(t, End(seg))
    ensures TriangleIntersectsSegment(t, seg)
  {
  }
}
