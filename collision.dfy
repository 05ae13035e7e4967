/**
 * src/core/Collision.js: `collided(a, b)` picks the collision test for a pair of
 * colliders from `collisionMatrix`, keyed by `${a.type}vs${b.type}`, and falls
 * back to the box test when the key is missing.
 */
module Collision {
  import opened Wrappers
  import opened Geometry
  import opened ColliderTypes
  import opened ObjectLiteral
  import opened BoxCollision
  import opened CircleCollision
  import opened BoxCircleCollision
  import opened AlphaCollision
  import opened CoreCollider

  /** The five tests `collisionMatrix` can name. */
  datatype Test = UseAlpha | UseCircle | UseCircleRect | UseBox | UseRectCircle

  /** `collisionMatrix` as written, row by row. */
  const CollisionRows: seq<(Kind, Kind, Test)> := [
    (AlphaCollider, AlphaCollider, UseAlpha),
    (AlphaCollider, CircleCollider, UseAlpha),
    (AlphaCollider, BoxCollider, UseAlpha),
    (CircleCollider, CircleCollider, UseCircle),
    (CircleCollider, BoxCollider, UseCircleRect),
    (CircleCollider, AlphaCollider, UseAlpha),
    (BoxCollider, BoxCollider, UseBox),
    (BoxCollider, CircleCollider, UseRectCircle),
    (BoxCollider, AlphaCollider, UseAlpha)
  ]

  /** The object `collisionMatrix` as the source builds it. */
  function CollisionTable(): map<string, Test> {
    Build(TextKeyed(CollisionRows))
  }

  /** All nine keys are the same text; the last row, box against alpha, decides the one entry. */
  lemma CollisionTableCollapses()
    ensures CollisionTable() == map[ObjectText + "vs" + ObjectText := UseAlpha]
  {
    var entries := TextKeyed(CollisionRows);
    forall i | 0 <= i < |entries|
      ensures entries[i].0 == ObjectText + "vs" + ObjectText
    {
      TypedPairKeysCoincide(CollisionRows[i].0, CollisionRows[i].1, BoxCollider, BoxCollider);
    }
    SameKeyKeepsLast(entries, ObjectText + "vs" + ObjectText);
  }

  /**
   * The test `collided` runs for a pair of types: the table entry for the key,
   * or the box test when the key is missing. Every typed pair gets the
   * pixel test; a pair with an untyped side gets the box test.
   */
  function Selected(a: Option<Kind>, b: Option<Kind>): (t: Test)
    ensures a.Some? && b.Some? ==> t == UseAlpha
    ensures a.None? || b.None? ==> t == UseBox
  {
    KeyPresence(a, b);
    var key := PairKey(a, b);
    if key in CollisionTable() then CollisionTable()[key] else UseBox
  }

  /** The key of a typed pair is in the table and names the pixel test; an untyped side's key is missing. */
  lemma KeyPresence(a: Option<Kind>, b: Option<Kind>)
    ensures PairKey(a, b) in CollisionTable() <==> a.Some? && b.Some?
    ensures a.Some? && b.Some? ==> CollisionTable()[PairKey(a, b)] == UseAlpha
  {
    CollisionTableCollapses();
    if a.Some? && b.Some? {
      TypedPairKeysCoincide(a.value, b.value, BoxCollider, BoxCollider);
    } else {
      UntypedPairKeyDiffers(a, b, BoxCollider, BoxCollider);
    }
  }

  /** The test each pair of kinds is given in the rows (and in the library's test suite). */
  function IntendedTest(a: Kind, b: Kind): Test {
    if a.AlphaCollider? || b.AlphaCollider? then UseAlpha
    else if a.BoxCollider? && b.BoxCollider? then UseBox
    else if a.CircleCollider? && b.CircleCollider? then UseCircle
    else if a.CircleCollider? then UseCircleRect
    else UseRectCircle
  }

  /** Keyed by the pair of kinds, the rows are distinct and the table gives each pair its intended test. */
  lemma IntendedCollisionTableFollowsRows(a: Kind, b: Kind)
    ensures var table := Build(KindKeyed(CollisionRows));
      (a, b) in table && table[(a, b)] == IntendedTest(a, b)
  {
    CollisionRowsDistinct();
    var i := RowOf(a, b);
    RowsIntended(i);
    KindKeyedLookup(CollisionRows, i);
  }

  /** `collisionMatrix` lists the pairs in the same order as `intersectionMatrix`. */
  lemma SameRowOrder(i: int)
    requires 0 <= i < |CollisionRows|
    ensures i < |IntersectionRows|
    ensures CollisionRows[i].0 == IntersectionRows[i].0 && CollisionRows[i].1 == IntersectionRows[i].1
  {
  }

  /** No two rows of `collisionMatrix` name the same pair of kinds. */
  lemma CollisionRowsDistinct()
    ensures DistinctPairs(CollisionRows)
  {
    IntersectionRowsDistinct();
    forall p, q | 0 <= p < q < |CollisionRows|
      ensures (CollisionRows[p].0, CollisionRows[p].1) != (CollisionRows[q].0, CollisionRows[q].1)
    {
      SameRowOrder(p);
      SameRowOrder(q);
    }
  }

  /** Each row holds the intended test of its pair; `i` is a row of the pair `IntersectionRows[i]`. */
  lemma RowsIntended(i: int)
    requires 0 <= i < |IntersectionRows|
    ensures i < |CollisionRows|
    ensures CollisionRows[i].0 == IntersectionRows[i].0 && CollisionRows[i].1 == IntersectionRows[i].1
    ensures CollisionRows[i].2 == IntendedTest(CollisionRows[i].0, CollisionRows[i].1)
  {
  }

  /** Only pairs that involve an alpha collider get the test they were meant to get. */
  lemma SelectedMatchesIntentOnlyWithAlpha(a: Kind, b: Kind)
    ensures Selected(Some(a), Some(b)) == IntendedTest(a, b) <==> a.AlphaCollider? || b.AlphaCollider?
  {
  }

  /** What `collided` returns: a boolean, or the point object `collidedAlpha` returns on a hit. */
  datatype Outcome = Flag(hit: bool) | At(point: Point) {
    /** The outcome's truthiness. */
    predicate Hit() {
      At? || hit
    }
  }

  /** `collidedAlpha`'s value as an outcome: the point, or `false`. */
  function FromAlpha(point: Option<Point>): (o: Outcome)
    ensures o.Hit() <==> point.Some?
  {
    match point
    case Some(p) => At(p)
    case None => Flag(false)
  }

  /**
   * What `collidedAlpha(a, b)` leaves behind: both collision points hold the
   * result, the pixel test's fields follow its trace, and the circle fields
   * are untouched.
   */
  twostate predicate AlphaRecorded(a: Collider, b: Collider, t: AlphaTrace)
    reads a, b
  {
    a.collisionPoint == t.Result() && b.collisionPoint == t.Result() && TestRecorded(a, b, t)
    && a.region == old(a.region) && b.region == old(b.region)
    && a.circlesRect == old(a.circlesRect) && b.circlesRect == old(b.circlesRect)
  }

  /**
   * What `collidedCircleRect(circle, rect)` leaves behind: the circle's region
   * and square are recorded, its other fields are untouched, and a distinct
   * rectangle collider is unchanged.
   */
  twostate predicate RegionRecorded(circle: Collider, rect: Collider)
    reads circle, rect
  {
    circle.region == Some(CircleRegion(circle.View(), rect.View()))
    && circle.circlesRect == Some(circle.circle.ToRect())
    && unchanged(circle`collisionPoint, circle`alphaTestBounds, circle`overlapImageData)
    && (circle != rect ==> unchanged(rect))
  }

  /** `collisionMethod(a, b)`: runs the named test. */
  method Dispatch(test: Test, a: Collider, b: Collider, sample: Sampler) returns (r: Outcome)
    requires test.UseAlpha? ==> a.kind.Some? && b.kind.Some?
    modifies {a, b}`collisionPoint, {a, b}`alphaTestBounds, {a, b}`overlapImageData
    modifies {a, b}`region, {a, b}`circlesRect
    ensures test.UseAlpha? ==> var t := old(Trace(a, b, sample));
      r == FromAlpha(t.Result()) && AlphaRecorded(a, b, t)
    ensures test.UseCircle? ==> r == Flag(CollidedCircle(a.View(), b.View())) && unchanged(a, b)
    ensures test.UseBox? ==> r == Flag(CollidedBox(a.View().ToRect(), b.View().ToRect())) && unchanged(a, b)
    ensures test.UseCircleRect? ==> r == Flag(CircleRectHit(a.View(), b.View())) && RegionRecorded(a, b)
    ensures test.UseRectCircle? ==> r == Flag(CircleRectHit(b.View(), a.View())) && RegionRecorded(b, a)
  {
    match test
    case UseAlpha =>
      var point := CollidedAlpha(a, b, sample);
      r := FromAlpha(point);
    case UseCircle =>
      r := Flag(CollidedCircle(a.View(), b.View()));
    case UseCircleRect =>
      var hit := CollidedCircleRect(a, b);
      r := Flag(hit);
    case UseBox =>
      r := Flag(CollidedBox(a.View().ToRect(), b.View().ToRect()));
    case UseRectCircle =>
      var hit := CollidedRectCircle(a, b);
      r := Flag(hit);
  }

  /**
   * `collided(a, b)`: never a collider with itself; otherwise the test the table
   * selects, which for two typed colliders is always the pixel test.
   */
  method Collided(a: Collider, b: Collider, sample: Sampler) returns (r: Outcome)
    modifies {a, b}`collisionPoint, {a, b}`alphaTestBounds, {a, b}`overlapImageData
    modifies {a, b}`region, {a, b}`circlesRect
    ensures a == b ==> r == Flag(false) && unchanged(a)
    ensures a != b && (a.kind.None? || b.kind.None?) ==>
      r == Flag(CollidedBox(a.View().ToRect(), b.View().ToRect())) && unchanged(a, b)
    ensures a != b && a.kind.Some? && b.kind.Some? ==> var t := old(Trace(a, b, sample));
      r == FromAlpha(t.Result()) && AlphaRecorded(a, b, t)
  {
    if a == b {
      return Flag(false);
    }
    var test := Selected(a.kind, b.kind);
    r := Dispatch(test, a, b, sample);
  }
}
