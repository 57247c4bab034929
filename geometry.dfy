/**
 * Plane geometry used by the map editor: squared and Euclidean distance,
 * the orientation-based segment test, the segment intersection point and
 * the closest point of a segment.
 *
 * Coordinates are reals. The editor computes Euclidean distance with a
 * square root; here the distance function is a parameter `dist`, and
 * IsEuclidean pins it down to exactly the non-negative square root of the
 * squared distance, so every comparison the editor makes with a distance
 * can be restated over squared distances (DistBelowIff).
 */
module Geometry {
  import opened Wrappers

  datatype Point = Point(x: real, y: real)

  /** Squared Euclidean distance; exact over the reals. */
  function SqDist(p: Point, q: Point): real
  {
    Sq(p.x - q.x) + Sq(p.y - q.y)
  }

  /**
   * r * r. The square goes through Product so that a sign fact proved for a
   * product of two arbitrary factors applies to it without the solver
   * having to reason about r * r itself.
   */
  function Sq(r: real): real
  {
    Product(r, r)
  }

  function Product(a: real, b: real): real
  {
    a * b
  }

  lemma ProductOfSameSigns(a: real, b: real)
    ensures (a > 0.0 && b > 0.0) || (a < 0.0 && b < 0.0) ==> Product(a, b) > 0.0
    ensures (a >= 0.0 && b >= 0.0) || (a <= 0.0 && b <= 0.0) ==> Product(a, b) >= 0.0
  {
  }

  /** A square is never negative, and is zero only for zero. */
  lemma SqSigns(r: real)
    ensures Sq(r) >= 0.0
    ensures r != 0.0 ==> Sq(r) > 0.0
  {
    ProductOfSameSigns(r, r);
  }

  /** `dist` is the Euclidean distance: non-negative and squaring to SqDist. */
  ghost predicate IsEuclidean(dist: (Point, Point) -> real)
  {
    forall p: Point, q: Point :: dist(p, q) >= 0.0 && dist(p, q) * dist(p, q) == SqDist(p, q)
  }

  lemma SqDistNonNegative(p: Point, q: Point)
    ensures SqDist(p, q) >= 0.0
  {
    SqSigns(p.x - q.x);
    SqSigns(p.y - q.y);
  }

  /** Sign facts about products, stated as implications so callers need no case split. */
  lemma ProductSigns(a: real, b: real)
    ensures a > 0.0 && b > 0.0 ==> a * b > 0.0
    ensures a > 0.0 && b < 0.0 ==> a * b < 0.0
    ensures a < 0.0 && b > 0.0 ==> a * b < 0.0
    ensures a < 0.0 && b < 0.0 ==> a * b > 0.0
    ensures a <= 0.0 && b <= 0.0 ==> a * b >= 0.0
    ensures a >= 0.0 && b >= 0.0 ==> a * b >= 0.0
  {
  }

  /** Comparing two non-negative reals is the same as comparing their squares. */
  lemma SquareMonotone(a: real, b: real)
    requires a >= 0.0 && b >= 0.0
    ensures a < b <==> a * a < b * b
  {
    ProductSigns(b - a, b + a);
    ProductSigns(a - b, a + b);
    assert (b - a) * (b + a) == b * b - a * a;
  }

  /** `dist(p, q) < r`, as the editor writes it, is decided by squared distances. */
  lemma DistBelowIff(dist: (Point, Point) -> real, p: Point, q: Point, r: real)
    requires IsEuclidean(dist)
    ensures dist(p, q) < r <==> 0.0 < r && SqDist(p, q) < r * r
  {
    var d := dist(p, q);
    assert d >= 0.0 && d * d == SqDist(p, q);
    if 0.0 < r {
      SquareMonotone(d, r);
    }
  }

  /** The Euclidean distance is symmetric and vanishes on equal points. */
  lemma DistSymmetric(dist: (Point, Point) -> real, p: Point, q: Point)
    requires IsEuclidean(dist)
    ensures dist(p, q) == dist(q, p)
    ensures dist(p, p) == 0.0
  {
    var a, b := dist(p, q), dist(q, p);
    assert a >= 0.0 && a * a == SqDist(p, q);
    assert b >= 0.0 && b * b == SqDist(q, p);
    assert SqDist(p, q) == SqDist(q, p);
    if a < b {
      SquareMonotone(a, b);
    } else if b < a {
      SquareMonotone(b, a);
    }
    var z := dist(p, p);
    assert z >= 0.0 && z * z == 0.0;
    if z > 0.0 {
      SquareMonotone(0.0, z);
    }
  }

  // ---------------------------------------------------------------------
  // Orientation and the segment crossing test
  // ---------------------------------------------------------------------

  /** Twice the signed area of triangle (a, b, c): positive when c lies to the left of a->b. */
  function Cross(a: Point, b: Point, c: Point): real
  {
    (b.x - a.x) * (c.y - a.y) - (b.y - a.y) * (c.x - a.x)
  }

  /** The editor's `ccw` helper: the strict "counter-clockwise" comparison. */
  function Ccw(a: Point, b: Point, c: Point): (r: bool)
    ensures r <==> Cross(a, b, c) > 0.0
  {
    (c.y - a.y) * (b.x - a.x) > (b.y - a.y) * (c.x - a.x)
  }

  /**
   * The editor's `lines_intersect` for segments p1-p2 and p3-p4: each segment's
   * endpoints get different `ccw` answers with respect to the other segment.
   */
  function LinesIntersect(p1: Point, p2: Point, p3: Point, p4: Point): bool
  {
    Ccw(p1, p3, p4) != Ccw(p2, p3, p4) && Ccw(p1, p2, p3) != Ccw(p1, p2, p4)
  }

  /** A proper crossing: each segment has the other's endpoints strictly on opposite sides. */
  ghost predicate ProperlyCross(p1: Point, p2: Point, p3: Point, p4: Point)
  {
    Cross(p3, p4, p1) * Cross(p3, p4, p2) < 0.0 && Cross(p1, p2, p3) * Cross(p1, p2, p4) < 0.0
  }

  lemma OppositeSigns(a: real, b: real)
    requires a * b < 0.0
    ensures (a > 0.0) != (b > 0.0)
  {
    ProductSigns(a, b);
  }

  /** Every proper crossing is reported by LinesIntersect. */
  lemma ProperCrossingDetected(p1: Point, p2: Point, p3: Point, p4: Point)
    requires ProperlyCross(p1, p2, p3, p4)
    ensures LinesIntersect(p1, p2, p3, p4)
  {
    OppositeSigns(Cross(p3, p4, p1), Cross(p3, p4, p2));
    OppositeSigns(Cross(p1, p2, p3), Cross(p1, p2, p4));
    assert Ccw(p1, p3, p4) <==> Cross(p3, p4, p1) > 0.0;
    assert Ccw(p2, p3, p4) <==> Cross(p3, p4, p2) > 0.0;
  }

  /**
   * The test is not strict: a segment that merely ends on the interior of
   * the other segment is reported as intersecting.
   */
  lemma TouchingIsReported()
    ensures LinesIntersect(Point(5.0, 0.0), Point(5.0, 5.0), Point(0.0, 0.0), Point(10.0, 0.0))
    ensures OnSegment(Point(5.0, 0.0), Point(0.0, 0.0), Point(10.0, 0.0))
  {
    var p1, p2, p3, p4 := Point(5.0, 0.0), Point(5.0, 5.0), Point(0.0, 0.0), Point(10.0, 0.0);
    assert Ccw(p1, p3, p4) == false && Ccw(p2, p3, p4) == true;
    assert Ccw(p1, p2, p3) == true && Ccw(p1, p2, p4) == false;
    assert p1 == Lerp(p3, p4, 0.5);
  }

  // ---------------------------------------------------------------------
  // Intersection point
  // ---------------------------------------------------------------------

  /** The point a + t * (b - a) of the line through a and b. */
  function Lerp(a: Point, b: Point, t: real): Point
  {
    Point(a.x + t * (b.x - a.x), a.y + t * (b.y - a.y))
  }

  /** q lies on the closed segment a-b. */
  ghost predicate OnSegment(q: Point, a: Point, b: Point)
  {
    exists t: real {:trigger Lerp(a, b, t)} :: 0.0 <= t <= 1.0 && q == Lerp(a, b, t)
  }

  /** Below this absolute determinant the editor treats the segments as parallel. */
  const ParallelEpsilon: real := 0.0000000001

  /** The determinant of the 2x2 system solved by `get_intersection_point`. */
  function Denominator(p1: Point, p2: Point, p3: Point, p4: Point): real
  {
    (p1.x - p2.x) * (p3.y - p4.y) - (p1.y - p2.y) * (p3.x - p4.x)
  }

  function Abs(r: real): real
  {
    if r < 0.0 then -r else r
  }

  /**
   * The editor's `get_intersection_point`: None when the determinant is
   * below ParallelEpsilon in absolute value or either line parameter falls
   * outside [0, 1]; otherwise the common point of the two segments.
   */
  function IntersectionPoint(p1: Point, p2: Point, p3: Point, p4: Point): (r: Option<Point>)
    ensures r.Some? ==> Abs(Denominator(p1, p2, p3, p4)) >= ParallelEpsilon
    ensures r.Some? ==> OnSegment(r.value, p1, p2) && OnSegment(r.value, p3, p4)
  {
    var denom := Denominator(p1, p2, p3, p4);
    if Abs(denom) < ParallelEpsilon then None
    else
      var t := ((p1.x - p3.x) * (p3.y - p4.y) - (p1.y - p3.y) * (p3.x - p4.x)) / denom;
      var u := -((p1.x - p2.x) * (p1.y - p3.y) - (p1.y - p2.y) * (p1.x - p3.x)) / denom;
      if 0.0 <= t <= 1.0 && 0.0 <= u <= 1.0 then
        IntersectionOnBoth(p1, p2, p3, p4, t, u);
        Some(Lerp(p1, p2, t))
      else None
  }

  /**
   * Cramer's rule in coordinates relative to p3: with A = p1 - p3, S = p2 - p1
   * and C = p4 - p3, D A + Nt S - Nu C vanishes, coordinate sy coordinate.
   */
  lemma CramerIdentity(ax: real, ay: real, sx: real, sy: real, cx: real, cy: real)
    ensures (sx * cy - sy * cx) * ax + (ay * cx - ax * cy) * sx - (sx * ay - sy * ax) * cx == 0.0
    ensures (sx * cy - sy * cx) * ay + (ay * cx - ax * cy) * sy - (sx * ay - sy * ax) * cy == 0.0
  {
  }

  lemma CancelFactor(d: real, x: real, y: real)
    requires d != 0.0
    requires d * x == d * y
    ensures x == y
  {
    assert x == (d * x) / d;
    assert y == (d * y) / d;
  }

  /** The two parameters of the intersection name the same point. */
  lemma IntersectionOnBoth(p1: Point, p2: Point, p3: Point, p4: Point, t: real, u: real)
    requires Denominator(p1, p2, p3, p4) != 0.0
    requires t == ((p1.x - p3.x) * (p3.y - p4.y) - (p1.y - p3.y) * (p3.x - p4.x)) / Denominator(p1, p2, p3, p4)
    requires u == -((p1.x - p2.x) * (p1.y - p3.y) - (p1.y - p2.y) * (p1.x - p3.x)) / Denominator(p1, p2, p3, p4)
    ensures Lerp(p1, p2, t) == Lerp(p3, p4, u)
  {
    var ax, ay := p1.x - p3.x, p1.y - p3.y;
    var sx, sy := p2.x - p1.x, p2.y - p1.y;
    var cx, cy := p4.x - p3.x, p4.y - p3.y;
    var d := Denominator(p1, p2, p3, p4);
    var nt := ay * cx - ax * cy;
    var nu := sx * ay - sy * ax;
    assert d == sx * cy - sy * cx;
    assert (p1.x - p3.x) * (p3.y - p4.y) - (p1.y - p3.y) * (p3.x - p4.x) == nt;
    assert -((p1.x - p2.x) * (p1.y - p3.y) - (p1.y - p2.y) * (p1.x - p3.x)) == nu;
    assert t * d == nt;
    assert u * d == nu;
    CramerIdentity(ax, ay, sx, sy, cx, cy);
    assert d * (p1.x + t * sx) == d * p1.x + nt * sx;
    assert d * (p3.x + u * cx) == d * p3.x + nu * cx;
    CancelFactor(d, p1.x + t * sx, p3.x + u * cx);
    assert d * (p1.y + t * sy) == d * p1.y + nt * sy;
    assert d * (p3.y + u * cy) == d * p3.y + nu * cy;
    CancelFactor(d, p1.y + t * sy, p3.y + u * cy);
  }

  /** A quotient n / d with 0 <= n <= d lies in [0, 1]. */
  lemma QuotientInUnit(n: real, d: real)
    requires d > 0.0 && 0.0 <= n <= d
    ensures 0.0 <= n / d <= 1.0
  {
    var q := n / d;
    assert q * d == n;
    ProductSigns(q, d);
    ProductSigns(q - 1.0, d);
    assert (q - 1.0) * d == q * d - d;
  }

  /** If exactly one of a, b is positive, a / (a - b) lies in [0, 1]. */
  lemma RatioInUnit(a: real, b: real)
    requires (a > 0.0) != (b > 0.0)
    ensures a - b != 0.0
    ensures 0.0 <= a / (a - b) <= 1.0
  {
    if a > 0.0 {
      QuotientInUnit(a, a - b);
    } else {
      QuotientInUnit(-a, b - a);
      assert a / (a - b) == (-a) / (b - a);
    }
  }

  /**
   * Whenever LinesIntersect reports a crossing and the determinant clears
   * the parallel threshold, `get_intersection_point` returns a point.
   */
  lemma CrossingHasPoint(p1: Point, p2: Point, p3: Point, p4: Point)
    requires LinesIntersect(p1, p2, p3, p4)
    requires Abs(Denominator(p1, p2, p3, p4)) >= ParallelEpsilon
    ensures IntersectionPoint(p1, p2, p3, p4).Some?
  {
    var d := Denominator(p1, p2, p3, p4);
    var o1, o2 := Cross(p3, p4, p1), Cross(p3, p4, p2);
    var q1, q2 := Cross(p1, p2, p3), Cross(p1, p2, p4);
    assert Ccw(p1, p3, p4) == (o1 > 0.0);
    assert Ccw(p2, p3, p4) == (o2 > 0.0);
    assert d == o1 - o2;
    assert d == q2 - q1;
    RatioInUnit(o1, o2);
    RatioInUnit(q1, q2);
    var t := ((p1.x - p3.x) * (p3.y - p4.y) - (p1.y - p3.y) * (p3.x - p4.x)) / d;
    var u := -((p1.x - p2.x) * (p1.y - p3.y) - (p1.y - p2.y) * (p1.x - p3.x)) / d;
    assert t == o1 / (o1 - o2);
    assert -((p1.x - p2.x) * (p1.y - p3.y) - (p1.y - p2.y) * (p1.x - p3.x)) == -q1;
    assert u == q1 / (q1 - q2);
  }

  // ---------------------------------------------------------------------
  // Closest point on a segment
  // ---------------------------------------------------------------------

  function Clamp01(t: real): real
  {
    if t < 0.0 then 0.0 else if t > 1.0 then 1.0 else t
  }

  /** Dot product of p - a with b - a. */
  function Dot(p: Point, a: Point, b: Point): real
  {
    (p.x - a.x) * (b.x - a.x) + (p.y - a.y) * (b.y - a.y)
  }

  /**
   * The editor's clamped projection parameter of p onto segment a-b, with
   * the same guard for a segment that is a single point.
   */
  function ProjectionParameter(p: Point, a: Point, b: Point): (t: real)
    ensures 0.0 <= t <= 1.0
  {
    var dx, dy := b.x - a.x, b.y - a.y;
    if dx == 0.0 && dy == 0.0 then 0.0
    else
      SqSigns(dx);
      SqSigns(dy);
      Clamp01(Dot(p, a, b) / (Sq(dx) + Sq(dy)))
  }

  /**
   * The point of segment a-b nearest to p (a itself when the segment is a
   * single point): it lies on the segment and no point of the segment is
   * closer to p.
   */
  function ClosestPointOnSegment(p: Point, a: Point, b: Point): (c: Point)
    ensures OnSegment(c, a, b)
    ensures forall t: real {:trigger Lerp(a, b, t)} :: 0.0 <= t <= 1.0 ==> SqDist(p, c) <= SqDist(p, Lerp(a, b, t))
  {
    var tc := ProjectionParameter(p, a, b);
    assert forall t: real {:trigger Lerp(a, b, t)} :: 0.0 <= t <= 1.0 ==> SqDist(p, Lerp(a, b, tc)) <= SqDist(p, Lerp(a, b, t)) by {
      forall t: real | 0.0 <= t <= 1.0 ensures SqDist(p, Lerp(a, b, tc)) <= SqDist(p, Lerp(a, b, t)) {
        ProjectionIsNearest(p, a, b, t);
      }
    }
    Lerp(a, b, tc)
  }

  /** Squared distance from p along the line a + s (b - a), as a quadratic in s. */
  lemma SqDistAlongLine(p: Point, a: Point, b: Point, s: real)
    ensures SqDist(p, Lerp(a, b, s)) == SqDist(p, a) - 2.0 * s * Dot(p, a, b) + s * s * SqDist(b, a)
  {
    var ex, ey, dx, dy := p.x - a.x, p.y - a.y, b.x - a.x, b.y - a.y;
    var q := Lerp(a, b, s);
    assert p.x - q.x == ex - s * dx && p.y - q.y == ey - s * dy;
    var ss := s * s;
    ExpandSquare(ex, dx, s, ss);
    ExpandSquare(ey, dy, s, ss);
    assert Dot(p, a, b) == ex * dx + ey * dy;
    assert SqDist(b, a) == Sq(dx) + Sq(dy);
    assert SqDist(p, a) == Sq(ex) + Sq(ey);
    assert ss * (Sq(dx) + Sq(dy)) == ss * Sq(dx) + ss * Sq(dy);
  }

  lemma ExpandSquare(e: real, d: real, s: real, ss: real)
    requires ss == s * s
    ensures Sq(e - s * d) == Sq(e) - 2.0 * s * (e * d) + ss * Sq(d)
  {
  }

  /**
   * The quadratic s * s * len2 - 2 * s * dot, restricted to [0, 1], is
   * smallest at the clamped vertex.
   */
  lemma ClampedVertexIsMinimal(len2: real, dot: real, t: real)
    requires len2 > 0.0 && 0.0 <= t <= 1.0
    ensures var tc := Clamp01(dot / len2);
      tc * tc * len2 - 2.0 * tc * dot <= t * t * len2 - 2.0 * t * dot
  {
    var raw := dot / len2;
    assert raw * len2 == dot;
    if raw < 0.0 {
      ProductSigns(raw, len2);
      ProductSigns(t, dot);
      ProductSigns(t * t, len2);
    } else if raw > 1.0 {
      ProductSigns(raw - 1.0, len2);
      assert (raw - 1.0) * len2 == dot - len2;
      VertexRightOfUnit(len2, dot, t);
    } else {
      VertexInsideUnit(len2, raw, t);
    }
  }

  lemma VertexRightOfUnit(len2: real, dot: real, t: real)
    requires len2 > 0.0 && dot > len2 && 0.0 <= t <= 1.0
    ensures len2 - 2.0 * dot <= t * t * len2 - 2.0 * t * dot
  {
    var k := (t + 1.0) * len2 - 2.0 * dot;
    ProductSigns(t - 1.0, len2);
    assert (t - 1.0) * len2 == t * len2 - len2;
    assert k < 0.0;
    ProductSigns(t - 1.0, k);
    assert (t - 1.0) * k == t * t * len2 - 2.0 * t * dot - (len2 - 2.0 * dot);
  }

  lemma VertexInsideUnit(len2: real, tc: real, t: real)
    requires len2 > 0.0
    ensures tc * tc * len2 - 2.0 * tc * (tc * len2) <= t * t * len2 - 2.0 * t * (tc * len2)
  {
    ProductSigns(t - tc, t - tc);
    ProductSigns((t - tc) * (t - tc), len2);
    assert (t - tc) * (t - tc) * len2 == t * t * len2 - 2.0 * t * (tc * len2) - (tc * tc * len2 - 2.0 * tc * (tc * len2));
  }

  /** The clamped projection is no farther from p than any point of the segment. */
  lemma ProjectionIsNearest(p: Point, a: Point, b: Point, t: real)
    requires 0.0 <= t <= 1.0
    ensures SqDist(p, Lerp(a, b, ProjectionParameter(p, a, b))) <= SqDist(p, Lerp(a, b, t))
  {
    var dx, dy := b.x - a.x, b.y - a.y;
    if dx == 0.0 && dy == 0.0 {
      DegenerateLerp(a, b, t);
      DegenerateLerp(a, b, ProjectionParameter(p, a, b));
    } else {
      SqSigns(dx);
      SqSigns(dy);
      assert SqDist(b, a) == Sq(dx) + Sq(dy);
      VertexIsNearest(p, a, b, ProjectionParameter(p, a, b), t);
    }
  }

  /** The quadratic bound, transported to squared distances along the segment. */
  lemma VertexIsNearest(p: Point, a: Point, b: Point, tc: real, t: real)
    requires SqDist(b, a) > 0.0 && 0.0 <= t <= 1.0
    requires tc == Clamp01(Dot(p, a, b) / SqDist(b, a))
    ensures SqDist(p, Lerp(a, b, tc)) <= SqDist(p, Lerp(a, b, t))
  {
    ClampedVertexIsMinimal(SqDist(b, a), Dot(p, a, b), t);
    SqDistAlongLine(p, a, b, t);
    SqDistAlongLine(p, a, b, tc);
  }

  /** Every point of a single-point segment is that point. */
  lemma DegenerateLerp(a: Point, b: Point, t: real)
    requires b.x - a.x == 0.0 && b.y - a.y == 0.0
    ensures Lerp(a, b, t) == a
  {
  }

  /**
   * The editor's `closest_point_on_line`: a point of the segment that no
   * point of the segment is nearer to p than, and its distance from p.
   */
  function ClosestPointOnLine(p: Point, a: Point, b: Point, dist: (Point, Point) -> real): (r: (Point, real))
    requires IsEuclidean(dist)
    ensures OnSegment(r.0, a, b)
    ensures forall t: real {:trigger Lerp(a, b, t)} :: 0.0 <= t <= 1.0 ==> SqDist(p, r.0) <= SqDist(p, Lerp(a, b, t))
    ensures r.1 >= 0.0 && r.1 * r.1 == SqDist(p, r.0)
    ensures r.1 <= dist(p, a) && r.1 <= dist(p, b)
  {
    var c := ClosestPointOnSegment(p, a, b);
    NearestBeatsEndpoints(p, a, b, dist);
    (c, dist(p, c))
  }

  /**
   * The editor's `point_to_line_distance`: the distance from p to the
   * segment a-b, that is, to a point of the segment, and to none farther
   * than any other point of it.
   */
  function PointToLineDistance(p: Point, a: Point, b: Point, dist: (Point, Point) -> real): (r: real)
    requires IsEuclidean(dist)
    ensures r >= 0.0
    ensures exists c :: OnSegment(c, a, b) && r * r == SqDist(p, c)
    ensures r <= dist(p, a) && r <= dist(p, b)
    ensures forall t: real {:trigger Lerp(a, b, t)} :: 0.0 <= t <= 1.0 ==> r * r <= SqDist(p, Lerp(a, b, t))
  {
    NearestBeatsEndpoints(p, a, b, dist);
    dist(p, ClosestPointOnSegment(p, a, b))
  }

  lemma NearestBeatsEndpoints(p: Point, a: Point, b: Point, dist: (Point, Point) -> real)
    requires IsEuclidean(dist)
    ensures dist(p, ClosestPointOnSegment(p, a, b)) <= dist(p, a)
    ensures dist(p, ClosestPointOnSegment(p, a, b)) <= dist(p, b)
  {
    var c := ClosestPointOnSegment(p, a, b);
    NearestBeatsEndpointsSq(p, a, b);
    DistMonotone(dist, p, c, p, a);
    DistMonotone(dist, p, c, p, b);
  }

  lemma NearestBeatsEndpointsSq(p: Point, a: Point, b: Point)
    ensures SqDist(p, ClosestPointOnSegment(p, a, b)) <= SqDist(p, a)
    ensures SqDist(p, ClosestPointOnSegment(p, a, b)) <= SqDist(p, b)
  {
    assert Lerp(a, b, 0.0) == a;
    assert Lerp(a, b, 1.0) == b;
  }

  /** Euclidean distances are ordered as the squared distances are. */
  lemma DistMonotone(dist: (Point, Point) -> real, p: Point, q: Point, r: Point, s: Point)
    requires IsEuclidean(dist)
    requires SqDist(p, q) <= SqDist(r, s)
    ensures dist(p, q) <= dist(r, s)
  {
    var d1, d2 := dist(p, q), dist(r, s);
    assert d1 >= 0.0 && d1 * d1 == SqDist(p, q);
    assert d2 >= 0.0 && d2 * d2 == SqDist(r, s);
    SquareMonotone(d2, d1);
  }
}
