/** src/core/Math.js: rectangle intersection and the point-in-circle test. */
module CoreMath {
  import opened Wrappers
  import opened Geometry

  /** `Math.max` of two numbers. */
  function Max(a: real, b: real): (r: real)
    ensures r >= a && r >= b && (r == a || r == b)
  {
    if a >= b then a else b
  }

  /** `Math.min` of two numbers. */
  function Min(a: real, b: real): (r: real)
    ensures r <= a && r <= b && (r == a || r == b)
  {
    if a <= b then a else b
  }

  /** The overlap edges of `a` and `b`: greatest left and top, least right and bottom. */
  function OverlapRect(a: Rect, b: Rect): (r: Rect)
    ensures r.left >= a.left && r.left >= b.left && r.top >= a.top && r.top >= b.top
    ensures r.right <= a.right && r.right <= b.right && r.bottom <= a.bottom && r.bottom <= b.bottom
    ensures (r.left == a.left || r.left == b.left) && (r.top == a.top || r.top == b.top)
    ensures (r.right == a.right || r.right == b.right) && (r.bottom == a.bottom || r.bottom == b.bottom)
  {
    Rect(Max(a.left, b.left), Max(a.top, b.top), Min(a.right, b.right), Min(a.bottom, b.bottom))
  }

  /**
   * The rectangle where `a` and `b` overlap, or `None` when the overlap is empty
   * or has zero width or height (strict comparison: touching rectangles give `None`).
   */
  function Intersection(a: Rect, b: Rect): (r: Option<Box>)
    ensures var o := OverlapRect(a, b); r.Some? <==> o.right > o.left && o.bottom > o.top
    ensures r.Some? ==> r.value.ToRect() == OverlapRect(a, b)
    ensures r.Some? ==> r.value.width > 0.0 && r.value.height > 0.0
    ensures r.Some? ==> r.value.ToRect().Within(a) && r.value.ToRect().Within(b)
  {
    var o := OverlapRect(a, b);
    if o.right > o.left && o.bottom > o.top then Some(Box(o.left, o.top, o.right - o.left, o.bottom - o.top))
    else None
  }

  /** Whether `Intersection(a, b)` is non-null: exactly when the open rectangles share a point. */
  function Intersects(a: Rect, b: Rect): (r: bool)
    ensures r <==> exists p :: a.Interior(p) && b.Interior(p)
  {
    IntersectionIsCommonInterior(a, b);
    Intersection(a, b) != None
  }

  /**
   * Whether `(x, y)` lies strictly inside the circle of `radius` around `center`,
   * compared on squared distances.
   */
  function PointInsideCircle(x: real, y: real, center: Vec, radius: real): (r: bool)
    ensures r <==> (center.x - x) * (center.x - x) + (center.y - y) * (center.y - y) < radius * radius
  {
    var dx := center.x - x;
    var dy := center.y - y;
    var dist := dx * dx + dy * dy;
    var magnitude := if dist < 0.0 then -dist else dist; // Math.abs
    magnitude < radius * radius
  }

  /** The squared distance between two positions. */
  function DistanceSquared(p: Vec, q: Vec): real {
    (p.x - q.x) * (p.x - q.x) + (p.y - q.y) * (p.y - q.y)
  }

  /** The intersection is the same whichever rectangle comes first. */
  lemma IntersectionCommutes(a: Rect, b: Rect)
    ensures Intersection(a, b) == Intersection(b, a)
  {
    assert OverlapRect(a, b) == OverlapRect(b, a);
  }

  /** A non-null intersection is exactly the set of points of both closed rectangles. */
  lemma IntersectionIsCommonRegion(a: Rect, b: Rect, p: Vec)
    requires Intersection(a, b).Some?
    ensures Intersection(a, b).value.ToRect().Contains(p) <==> a.Contains(p) && b.Contains(p)
  {
  }

  /** The intersection is null exactly when no point lies inside both open rectangles. */
  lemma IntersectionIsCommonInterior(a: Rect, b: Rect)
    ensures Intersection(a, b).Some? <==> exists p :: a.Interior(p) && b.Interior(p)
  {
    var o := OverlapRect(a, b);
    if Intersection(a, b).Some? {
      var mid := Vec((o.left + o.right) / 2.0, (o.top + o.bottom) / 2.0);
      assert a.Interior(mid) && b.Interior(mid);
    } else {
      forall p | a.Interior(p)
        ensures !b.Interior(p)
      {
        assert o.right <= o.left || o.bottom <= o.top;
      }
    }
  }

  /** Rectangles that only share an edge do not intersect. */
  lemma TouchingRectanglesDoNotIntersect(a: Rect, b: Rect)
    requires a.right == b.left
    ensures Intersection(a, b).None?
  {
  }

  /** A rectangle that ends above another does not intersect it. */
  lemma SeparatedRectanglesDoNotIntersect(a: Rect, b: Rect)
    requires a.bottom <= b.top
    ensures Intersection(a, b).None?
  {
  }

  /** Rectangles of positive size whose spans overlap on both axes intersect. */
  lemma OverlappingRectanglesIntersect(a: Rect, b: Rect)
    requires a.left < a.right && a.top < a.bottom && b.left < b.right && b.top < b.bottom
    requires a.left < b.right && b.left < a.right && a.top < b.bottom && b.top < a.bottom
    ensures Intersection(a, b).Some?
  {
  }

  /** A non-zero number has a positive square. */
  lemma SquareIsPositive(r: real)
    requires r != 0.0
    ensures 0.0 < r * r
  {}

  /** At the centre the squared distance is zero, so the test reduces to `0 < radius * radius`. */
  lemma CenterInsideOnlyIfPositive(center: Vec, radius: real)
    ensures PointInsideCircle(center.x, center.y, center, radius) ==> 0.0 < radius * radius
  {}

  lemma CenterInsideIfPositive(center: Vec, radius: real)
    ensures 0.0 < radius * radius ==> PointInsideCircle(center.x, center.y, center, radius)
  {}

  /** The centre is inside its own circle exactly when the radius is not zero. */
  lemma CenterInsideIffRadiusNonZero(center: Vec, radius: real)
    ensures PointInsideCircle(center.x, center.y, center, radius) <==> radius != 0.0
  {
    CenterInsideOnlyIfPositive(center, radius);
    CenterInsideIfPositive(center, radius);
    if radius != 0.0 {
      SquareIsPositive(radius);
    }
  }

  /** The test is symmetric between the point and the centre. */
  lemma PointInsideCircleSymmetric(p: Vec, q: Vec, radius: real)
    ensures PointInsideCircle(p.x, p.y, q, radius) == PointInsideCircle(q.x, q.y, p, radius)
  {
    assert (q.x - p.x) * (q.x - p.x) == (p.x - q.x) * (p.x - q.x);
    assert (q.y - p.y) * (q.y - p.y) == (p.y - q.y) * (p.y - q.y);
  }

  /**
   * The fixtures of the unit tests of Math.js. The boxes `{x: 0, y: 0, width: 100,
   * height: 100}`, `{x: 50, y: 50, ...}` and `{x: 250, y: 50, ...}` are written
   * with their edges.
   */
  lemma MathFixtures()
    ensures Intersection(Rect(0.0, 0.0, 100.0, 100.0), Rect(50.0, 50.0, 150.0, 150.0))
         == Some(Box(50.0, 50.0, 50.0, 50.0))
    ensures Intersection(Rect(0.0, 0.0, 100.0, 100.0), Rect(250.0, 50.0, 350.0, 150.0)) == None
    ensures Intersects(Rect(0.0, 0.0, 100.0, 100.0), Rect(50.0, 50.0, 150.0, 150.0))
    ensures !Intersects(Rect(0.0, 0.0, 100.0, 100.0), Rect(250.0, 50.0, 350.0, 150.0))
    ensures PointInsideCircle(64.0, 64.0, Vec(64.0, 64.0), 64.0)
    ensures !PointInsideCircle(256.0, 64.0, Vec(64.0, 64.0), 64.0)
  {
  }

  lemma DistanceSquaredSymmetric(p: Vec, q: Vec)
    ensures DistanceSquared(p, q) == DistanceSquared(q, p)
  {
    assert (p.x - q.x) * (p.x - q.x) == (q.x - p.x) * (q.x - p.x);
    assert (p.y - q.y) * (p.y - q.y) == (q.y - p.y) * (q.y - p.y);
  }

  lemma DistanceSquaredNonNegative(p: Vec, q: Vec)
    ensures DistanceSquared(p, q) >= 0.0
  {
    var dx, dy := p.x - q.x, p.y - q.y;
    assert dx * dx >= 0.0 && dy * dy >= 0.0;
  }
}
