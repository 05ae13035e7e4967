/**
 * src/core/CircleCollision.js: circle against circle. A box pre-check, then a
 * point-in-circle test of `b`'s top-left corner against `a`'s top-left corner
 * with the sum of the radii.
 */
module CircleCollision {
  import opened Wrappers
  import opened Geometry
  import opened CoreMath
  import opened BoxCollision
  import opened CoreCollider

  /**
   * `collidedCircle(a, b)`: the boxes must collide, and then the distance
   * between the colliders' `x`/`y` (their top-left corners, not the circle
   * centres) must be less than the sum of the radii.
   */
  function CollidedCircle(a: Body, b: Body): (r: bool)
    ensures r <==> (CollidedBox(a.ToRect(), b.ToRect())
                    && DistanceSquared(a.Position(), b.Position()) < (a.radius + b.radius) * (a.radius + b.radius))
  {
    if !CollidedBox(a.ToRect(), b.ToRect()) then false
    else PointInsideCircle(b.x, b.y, a.Position(), a.radius + b.radius)
  }

  /** The test gives the same answer with the arguments swapped. */
  lemma CollidedCircleSymmetric(a: Body, b: Body)
    ensures CollidedCircle(a, b) == CollidedCircle(b, a)
  {
    CollidedBoxSymmetric(a.ToRect(), b.ToRect());
    DistanceSquaredSymmetric(a.Position(), b.Position());
    assert (a.radius + b.radius) * (a.radius + b.radius) == (b.radius + a.radius) * (b.radius + a.radius);
  }

  /** Circles whose distance equals the radius sum (tangency) do not collide: the comparison is strict. */
  lemma TangentCirclesDoNotCollide(a: Body, b: Body)
    requires DistanceSquared(a.Position(), b.Position()) == (a.radius + b.radius) * (a.radius + b.radius)
    ensures !CollidedCircle(a, b)
  {
  }

  /** With a radius sum of zero nothing collides, not even two colliders at the same place. */
  lemma ZeroRadiusSumNeverCollides(a: Body, b: Body)
    requires a.radius + b.radius == 0.0
    ensures !CollidedCircle(a, b)
  {
    DistanceSquaredNonNegative(a.Position(), b.Position());
  }

  /** Two colliders of the same size are as far apart at their corners as at their centres. */
  lemma EqualSizesCornerDistanceIsCentreDistance(a: Body, b: Body)
    requires a.width == b.width && a.height == b.height
    ensures a.x - b.x == CircleAround(Box(a.x, a.y, a.width, a.height), a.radius).x
                       - CircleAround(Box(b.x, b.y, b.width, b.height), b.radius).x
    ensures a.y - b.y == CircleAround(Box(a.x, a.y, a.width, a.height), a.radius).y
                       - CircleAround(Box(b.x, b.y, b.width, b.height), b.radius).y
  {
  }

  /**
   * Colliders of different sizes: a 100 by 10 collider of radius 50 at the origin
   * and a 10 by 10 collider of radius 5 at (90, 0). Their circles, centred at
   * (50, 5) and (95, 5), overlap (45 < 55), yet the corners are 90 apart, so
   * the test reports no collision.
   */
  lemma CornersNotCentres()
    ensures var a := Body(None, 0.0, 0.0, 100.0, 10.0, 50.0, CircleAround(Box(0.0, 0.0, 100.0, 10.0), 50.0));
            var b := Body(None, 90.0, 0.0, 10.0, 10.0, 5.0, CircleAround(Box(90.0, 0.0, 10.0, 10.0), 5.0));
            CollidedCircleIntended(a, b) && CollidedBox(a.ToRect(), b.ToRect()) && !CollidedCircle(a, b)
  {
  }

  /** The test the circle colliders are meant to get: the bounding circles' centres closer than the summed radii. */
  function CollidedCircleIntended(a: Body, b: Body): bool {
    DistanceSquared(a.circle.Center(), b.circle.Center()) < (a.radius + b.radius) * (a.radius + b.radius)
  }

  /**
   * For colliders of the same size whose bounding circles are centred on their
   * boxes, the code's test is the intended one behind the box pre-check.
   */
  lemma SameSizeMatchesIntended(a: Body, b: Body)
    requires a.width == b.width && a.height == b.height
    requires a.circle == CircleAround(Box(a.x, a.y, a.width, a.height), a.radius)
    requires b.circle == CircleAround(Box(b.x, b.y, b.width, b.height), b.radius)
    ensures CollidedCircle(a, b) <==> CollidedBox(a.ToRect(), b.ToRect()) && CollidedCircleIntended(a, b)
  {
    EqualSizesCornerDistanceIsCentreDistance(a, b);
    assert DistanceSquared(a.Position(), b.Position()) == DistanceSquared(a.circle.Center(), b.circle.Center());
  }
}
