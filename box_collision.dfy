/** src/core/BoxCollision.js: the rectangle-versus-rectangle test, in which touching edges collide. */
module BoxCollision {
  import opened Wrappers
  import opened Geometry
  import CoreMath

  /** Whether `a` and `b` collide: none of the four separations holds. */
  function CollidedBox(a: Rect, b: Rect): (r: bool)
    ensures r <==> a.left <= b.right && b.left <= a.right && a.top <= b.bottom && b.top <= a.bottom
  {
    !((a.bottom < b.top) || (a.top > b.bottom) || (a.left > b.right) || (a.right < b.left))
  }

  /** For well-formed rectangles the test holds exactly when the closed rectangles share a point. */
  lemma CollidedBoxIsSharedPoint(a: Rect, b: Rect)
    requires a.WellFormed() && b.WellFormed()
    ensures CollidedBox(a, b) <==> exists p :: a.Contains(p) && b.Contains(p)
  {
    if CollidedBox(a, b) {
      var o := CoreMath.OverlapRect(a, b);
      assert a.Contains(Vec(o.left, o.top)) && b.Contains(Vec(o.left, o.top));
    }
  }

  /** The test is symmetric. */
  lemma CollidedBoxSymmetric(a: Rect, b: Rect)
    ensures CollidedBox(a, b) == CollidedBox(b, a)
  {
  }

  /** A well-formed rectangle collides with itself. */
  lemma CollidedBoxReflexive(a: Rect)
    requires a.WellFormed()
    ensures CollidedBox(a, a)
  {
  }

  /** Edge contact with vertical overlap counts as a collision. */
  lemma EdgeContactCollides(a: Rect, b: Rect)
    requires a.right == b.left && a.WellFormed() && b.WellFormed()
    requires a.top <= b.bottom && b.top <= a.bottom
    ensures CollidedBox(a, b)
    ensures CoreMath.Intersection(a, b).None?
  {
  }

  /** Every non-null intersection is a collision. */
  lemma IntersectionImpliesCollidedBox(a: Rect, b: Rect)
    requires CoreMath.Intersection(a, b).Some?
    ensures CollidedBox(a, b)
  {
  }

  /** The fixtures: overlapping boxes collide, boxes 150 apart do not. */
  lemma BoxFixtures()
    ensures CollidedBox(Box(0.0, 0.0, 100.0, 100.0).ToRect(), Box(50.0, 50.0, 100.0, 100.0).ToRect())
    ensures !CollidedBox(Box(0.0, 0.0, 100.0, 100.0).ToRect(), Box(250.0, 50.0, 100.0, 100.0).ToRect())
  {
  }
}
