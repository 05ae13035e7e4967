/**
 * src/core/BoxCircleCollision.js: circle against box. The circle's centre is
 * placed in one of the eight Voronoi regions around the rectangle; an edge region
 * is settled by a box test of the circle's circumscribing square, a corner
 * region by testing the matching rectangle vertex against the circle.
 */
module BoxCircleCollision {
  import opened Wrappers
  import opened Geometry
  import opened CoreMath
  import opened BoxCollision
  import opened CoreCollider

  /**
   * The region of `center` around `rect`. Above and below the rectangle the
   * horizontal position of the centre picks left, centre or right; in the
   * middle band `splitX` alone picks left or right (the core passes the
   * collider's `right`, the monolithic build the collider's `x`).
   */
  function Classify(center: Vec, splitX: real, rect: Rect): (region: Region)
    ensures region != Unknown && region.IsCentral() != region.IsCorner()
    ensures (region.TopLeft? || region.TopCenter? || region.TopRight?) <==> center.y < rect.top
    ensures (region.BottomLeft? || region.BottomCenter? || region.BottomRight?)
        <==> rect.top <= center.y && rect.bottom < center.y
    ensures (region.LeftCenter? || region.RightCenter?) <==> rect.top <= center.y <= rect.bottom
    ensures region.LeftCenter? <==> rect.top <= center.y <= rect.bottom && splitX < rect.left
    ensures (region.TopLeft? || region.BottomLeft?)
        <==> (center.y < rect.top || rect.bottom < center.y) && center.x < rect.left
    ensures (region.TopRight? || region.BottomRight?)
        <==> (center.y < rect.top || rect.bottom < center.y) && rect.left <= center.x && rect.right < center.x
  {
    if center.y < rect.top then
      if center.x < rect.left then TopLeft
      else if center.x > rect.right then TopRight
      else TopCenter
    else if center.y > rect.bottom then
      if center.x < rect.left then BottomLeft
      else if center.x > rect.right then BottomRight
      else BottomCenter
    else if splitX < rect.left then LeftCenter
    else RightCenter
  }

  /** The vertex tested for a region: the matching corner of `rect`, or the origin outside the corner regions. */
  function Corner(region: Region, rect: Rect): (v: Vec)
    ensures region.TopLeft? ==> v == Vec(rect.left, rect.top)
    ensures region.TopRight? ==> v == Vec(rect.right, rect.top)
    ensures region.BottomLeft? ==> v == Vec(rect.left, rect.bottom)
    ensures region.BottomRight? ==> v == Vec(rect.right, rect.bottom)
    ensures !region.IsCorner() ==> v == Vec(0.0, 0.0)
  {
    match region
    case TopLeft => Vec(rect.left, rect.top)
    case TopRight => Vec(rect.right, rect.top)
    case BottomLeft => Vec(rect.left, rect.bottom)
    case BottomRight => Vec(rect.right, rect.bottom)
    case _ => Vec(0.0, 0.0)
  }

  /**
   * The answer for a region as the code computes it: an edge region returns
   * true on a box hit of `probe`; every other case ends in the point-in-circle
   * test of `Corner(region, rect)`.
   */
  function Resolve(region: Region, probe: Rect, rect: Rect, center: Vec, radius: real): bool {
    (region.IsCentral() && CollidedBox(probe, rect))
    || PointInsideCircle(Corner(region, rect).x, Corner(region, rect).y, center, radius)
  }

  /** An edge region with a box hit reports a collision. */
  lemma EdgeRegionBoxHit(region: Region, probe: Rect, rect: Rect, center: Vec, radius: real)
    requires region.IsCentral() && CollidedBox(probe, rect)
    ensures Resolve(region, probe, rect, center, radius)
  {
  }

  /** A corner region reports exactly whether the matching vertex lies inside the circle. */
  lemma CornerRegionIsVertexTest(region: Region, probe: Rect, rect: Rect, center: Vec, radius: real)
    requires region.IsCorner()
    ensures Resolve(region, probe, rect, center, radius)
        <==> DistanceSquared(center, Corner(region, rect)) < radius * radius
  {
  }

  /** An edge region whose box test misses answers the question "is the origin inside the circle?". */
  lemma EdgeMissTestsOrigin(region: Region, probe: Rect, rect: Rect, center: Vec, radius: real)
    requires region.IsCentral() && !CollidedBox(probe, rect)
    ensures Resolve(region, probe, rect, center, radius) == PointInsideCircle(0.0, 0.0, center, radius)
  {
  }

  /** Both middle regions take the box branch, so the value that splits them never changes the answer. */
  lemma MiddleSplitIrrelevant(center: Vec, split1: real, split2: real, probe: Rect, rect: Rect, radius: real)
    ensures Resolve(Classify(center, split1, rect), probe, rect, center, radius)
         == Resolve(Classify(center, split2, rect), probe, rect, center, radius)
  {
    var r1, r2 := Classify(center, split1, rect), Classify(center, split2, rect);
    if rect.top <= center.y <= rect.bottom {
      assert r1.IsCentral() && r2.IsCentral();
      assert Corner(r1, rect) == Corner(r2, rect) == Vec(0.0, 0.0);
    } else {
      assert r1 == r2;
    }
  }

  /** The answer the region analysis is meant to give: the box test alone for edge regions. */
  function ResolveIntended(region: Region, probe: Rect, rect: Rect, center: Vec, radius: real): bool {
    if region.IsCentral() then CollidedBox(probe, rect)
    else PointInsideCircle(Corner(region, rect).x, Corner(region, rect).y, center, radius)
  }

  /** The code's answer is the intended one, plus the origin test after an edge-region box miss. */
  lemma ResolveAddsOriginCase(region: Region, probe: Rect, rect: Rect, center: Vec, radius: real)
    ensures Resolve(region, probe, rect, center, radius)
        <==> (ResolveIntended(region, probe, rect, center, radius)
              || (region.IsCentral() && !CollidedBox(probe, rect) && PointInsideCircle(0.0, 0.0, center, radius)))
  {
  }

  /** `v` limited to the interval from `lo` to `hi`. */
  function Clamp(v: real, lo: real, hi: real): (r: real)
    requires lo <= hi
    ensures lo <= r <= hi
    ensures lo <= v <= hi ==> r == v
    ensures v < lo ==> r == lo
    ensures hi < v ==> r == hi
  {
    Max(lo, Min(v, hi))
  }

  /** The point of a well-formed rectangle nearest to `p`. */
  function ClosestPoint(p: Vec, rect: Rect): (q: Vec)
    requires rect.WellFormed()
    ensures rect.Contains(q)
  {
    Vec(Clamp(p.x, rect.left, rect.right), Clamp(p.y, rect.top, rect.bottom))
  }

  lemma ProductStrictlyIncreasing(c: real, a: real, b: real)
    requires 0.0 < c && a < b
    ensures c * a < c * b
  {
  }

  lemma SquareMonotone(a: real, b: real)
    requires 0.0 <= a <= b
    ensures a * a <= b * b
  {
    assert a * a <= a * b;
  }

  lemma SquareStrictlyMonotone(a: real, b: real)
    requires 0.0 <= a < b
    ensures a * a < b * b
  {
    calc {
      a * a;
    <=
      a * b;
    ==
      b * a;
    <  { ProductStrictlyIncreasing(b, a, b); }
      b * b;
    }
  }

  /** For non-negative numbers, comparing squares is comparing the numbers. */
  lemma SquaresOrdered(a: real, b: real)
    requires 0.0 <= a && 0.0 <= b
    ensures a <= b <==> a * a <= b * b
  {
    if a <= b {
      SquareMonotone(a, b);
    } else {
      SquareStrictlyMonotone(b, a);
    }
  }

  /**
   * In an edge region the nearest point of the rectangle differs from the centre
   * on one axis only, and the square around the circle reaches the rectangle
   * exactly when that nearest point is within `radius`.
   */
  lemma EdgeRegionIsDistanceToRect(c: Circle, splitX: real, rect: Rect)
    requires rect.WellFormed() && c.radius >= 0.0
    requires Classify(c.Center(), splitX, rect).IsCentral()
    ensures var q := ClosestPoint(c.Center(), rect);
      CollidedBox(c.ToRect(), rect) <==> DistanceSquared(q, c.Center()) <= c.radius * c.radius
  {
    if rect.top <= c.y <= rect.bottom {
      BesideRect(c, rect);
    } else {
      AboveOrBelowRect(c, rect);
    }
  }

  /** Level with the rectangle, the nearest point is straight across and the gap is horizontal. */
  lemma BesideRect(c: Circle, rect: Rect)
    requires rect.WellFormed() && c.radius >= 0.0 && rect.top <= c.y <= rect.bottom
    ensures var q := ClosestPoint(c.Center(), rect);
      CollidedBox(c.ToRect(), rect) <==> DistanceSquared(q, c.Center()) <= c.radius * c.radius
  {
    var q := ClosestPoint(c.Center(), rect);
    var gap := if c.x < rect.left then rect.left - c.x else if rect.right < c.x then c.x - rect.right else 0.0;
    assert q.y == c.y;
    assert DistanceSquared(q, c.Center()) == gap * gap;
    assert CollidedBox(c.ToRect(), rect) <==> gap <= c.radius;
    SquaresOrdered(gap, c.radius);
  }

  /** Between the rectangle's sides, above or below it, the nearest point is straight up or down. */
  lemma AboveOrBelowRect(c: Circle, rect: Rect)
    requires rect.WellFormed() && c.radius >= 0.0 && !(rect.top <= c.y <= rect.bottom)
    requires rect.left <= c.x <= rect.right
    ensures var q := ClosestPoint(c.Center(), rect);
      CollidedBox(c.ToRect(), rect) <==> DistanceSquared(q, c.Center()) <= c.radius * c.radius
  {
    var q := ClosestPoint(c.Center(), rect);
    var gap := if c.y < rect.top then rect.top - c.y else c.y - rect.bottom;
    assert q.x == c.x;
    assert DistanceSquared(q, c.Center()) == gap * gap;
    assert CollidedBox(c.ToRect(), rect) <==> gap <= c.radius;
    SquaresOrdered(gap, c.radius);
  }

  /** In a corner region the tested vertex is the nearest point of the rectangle. */
  lemma CornerIsClosestPoint(center: Vec, splitX: real, rect: Rect)
    requires rect.WellFormed()
    requires Classify(center, splitX, rect).IsCorner()
    ensures Corner(Classify(center, splitX, rect), rect) == ClosestPoint(center, rect)
  {
  }

  /**
   * The intended answer for a circle `c` is a distance test against the nearest
   * point of the rectangle: within `radius` for edge regions, strictly within it
   * for corner regions.
   */
  lemma IntendedIsDistanceToRect(c: Circle, splitX: real, rect: Rect)
    requires rect.WellFormed() && c.radius >= 0.0
    ensures var region := Classify(c.Center(), splitX, rect);
      var d := DistanceSquared(ClosestPoint(c.Center(), rect), c.Center());
      ResolveIntended(region, c.ToRect(), rect, c.Center(), c.radius)
      == if region.IsCorner() then d < c.radius * c.radius else d <= c.radius * c.radius
  {
    var region := Classify(c.Center(), splitX, rect);
    if region.IsCorner() {
      CornerIsClosestPoint(c.Center(), splitX, rect);
      DistanceSquaredSymmetric(c.Center(), ClosestPoint(c.Center(), rect));
    } else {
      EdgeRegionIsDistanceToRect(c, splitX, rect);
    }
  }

  /** The region `collidedCircleRect` assigns: the bounding circle's centre, split on the collider's `right`. */
  function CircleRegion(circle: Body, rect: Body): Region {
    Classify(circle.circle.Center(), circle.ToRect().right, rect.ToRect())
  }

  /** What `collidedCircleRect(circle, rect)` returns. */
  function CircleRectHit(circle: Body, rect: Body): bool {
    Resolve(CircleRegion(circle, rect), circle.circle.ToRect(), rect.ToRect(), circle.circle.Center(), circle.radius)
  }

  /**
   * A circle collider 95 units left of a 10 by 10 box: the circle of radius 10
   * around (5, 5) is nowhere near the box, the box test misses, and the fall-through
   * tests the origin, which lies inside the circle.
   */
  lemma FarCircleReportedByOriginTest()
    ensures var circle := Body(None, 0.0, 0.0, 10.0, 10.0, 10.0, Circle(5.0, 5.0, 10.0));
      var rect := Body(None, 100.0, 0.0, 10.0, 10.0, 5.0, Circle(105.0, 5.0, 5.0));
      CircleRegion(circle, rect) == LeftCenter
      && !CollidedBox(circle.circle.ToRect(), rect.ToRect())
      && CircleRectHit(circle, rect)
      && !ResolveIntended(LeftCenter, circle.circle.ToRect(), rect.ToRect(), circle.circle.Center(), circle.radius)
  {
  }

  /**
   * `collidedCircleRect(circle, rect)`: records the region and the bounding
   * circle's square on `circle`, then answers as `CircleRectHit`.
   */
  method CollidedCircleRect(circle: CoreCollider.Collider, rect: CoreCollider.Collider) returns (hit: bool)
    modifies circle`region, circle`circlesRect
    ensures circle.region == Some(CircleRegion(circle.View(), rect.View()))
    ensures circle.circlesRect == Some(circle.circle.ToRect())
    ensures hit == CircleRectHit(circle.View(), rect.View())
  {
    var boundingCircle := circle.circle;
    var target := rect.View().ToRect();
    var region := Classify(boundingCircle.Center(), circle.Right(), target);
    circle.region := Some(region);
    var circlesRect := boundingCircle.ToRect();
    circle.circlesRect := Some(circlesRect);
    if region.IsCentral() && CollidedBox(circlesRect, target) {
      return true;
    }
    var vertex := Corner(region, target);
    hit := PointInsideCircle(vertex.x, vertex.y, boundingCircle.Center(), circle.radius);
  }

  /** `collidedRectCircle(rect, circle)`: the same test with the arguments swapped back. */
  method CollidedRectCircle(rect: CoreCollider.Collider, circle: CoreCollider.Collider) returns (hit: bool)
    modifies circle`region, circle`circlesRect
    ensures circle.region == Some(CircleRegion(circle.View(), rect.View()))
    ensures circle.circlesRect == Some(circle.circle.ToRect())
    ensures hit == CircleRectHit(circle.View(), rect.View())
  {
    hit := CollidedCircleRect(circle, rect);
  }
}
