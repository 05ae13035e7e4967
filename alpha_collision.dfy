/**
 * src/core/AlphaCollision.js: pixel-perfect collision. The overlap of the two
 * colliders is rendered for each of them, and the alpha channels of the two
 * RGBA buffers are scanned for a pixel that is opaque in both.
 */
module AlphaCollision {
  import opened Wrappers
  import opened Geometry
  import opened ColliderTypes
  import opened ObjectLiteral
  import opened CoreMath
  import opened CoreCollider

  /** RGBA: four components per pixel, alpha last, and the alpha level that counts as opaque. */
  const ComponentCount: int := 4
  const AlphaComponent: int := 3
  const TransparencyThreshold: real := 0.3

  /**
   * `getPointOfCollision(pixelIndex, columnCount)`: `(pixelIndex % columnCount) | 0`
   * and `(pixelIndex / columnCount) | 0`, with JavaScript's remainder (the sign of
   * the dividend) and `| 0` truncating toward zero. A zero column count gives
   * `NaN` and `Infinity`, both of which `| 0` turns into 0.
   */
  function PointOfCollision(pixelIndex: int, columnCount: real): (p: Point)
    ensures columnCount == 0.0 ==> p == Point(0, 0)
    ensures 0 <= pixelIndex && 0.0 < columnCount ==>
      0 <= p.x && p.x as real < columnCount && p.y == (pixelIndex as real / columnCount).Floor
  {
    if columnCount == 0.0 then Point(0, 0)
    else
      var quotient := pixelIndex as real / columnCount;
      var remainder := pixelIndex as real - columnCount * Truncate(quotient) as real;
      if 0 <= pixelIndex && 0.0 < columnCount then
        RemainderBounds(pixelIndex as real, columnCount, Truncate(quotient) as real);
        Point(Truncate(remainder), Truncate(quotient))
      else
        Point(Truncate(remainder), Truncate(quotient))
  }

  /** Dividing by a positive count and taking the whole part leaves a remainder below the count. */
  lemma RemainderBounds(n: real, c: real, t: real)
    requires 0.0 < c && t <= n / c < t + 1.0
    ensures 0.0 <= n - c * t < c
  {
    var q := n / c;
    assert c * q == n;
    ProductMonotone(c, t, q);
    ProductStrictlyMonotone(c, q, t + 1.0);
    calc {
      n - c * t;
    <  c * (t + 1.0) - c * t;
    == { assert c * (t + 1.0) == c * t + c; }
      c;
    }
  }

  lemma ProductMonotone(c: real, a: real, b: real)
    requires 0.0 < c && a <= b
    ensures c * a <= c * b
  {
    assert c * b - c * a == c * (b - a);
  }

  lemma ProductStrictlyMonotone(c: real, a: real, b: real)
    requires 0.0 < c && a < b
    ensures c * a < c * b
  {
    assert c * b - c * a == c * (b - a);
  }

  /** With a whole number of columns the point is the row-major decomposition of the index. */
  lemma PointOfCollisionDecomposes(pixelIndex: nat, columns: nat)
    requires 0 < columns
    ensures var p := PointOfCollision(pixelIndex, columns as real);
      p == Point(pixelIndex % columns, pixelIndex / columns)
  {
    var q, r := pixelIndex / columns, pixelIndex % columns;
    var quotient := pixelIndex as real / columns as real;
    WholeDivision(pixelIndex, columns);
    assert Truncate(quotient) == q;
    assert pixelIndex as real - columns as real * q as real == r as real;
  }

  /** Real division of whole numbers: the integer quotient plus a fraction below one. */
  lemma WholeDivision(n: nat, c: nat)
    requires 0 < c
    ensures (n / c) as real <= n as real / c as real < (n / c) as real + 1.0
    ensures n as real - c as real * (n / c) as real == (n % c) as real
  {
    var q, r := n / c, n % c;
    assert n == q * c + r;
    assert (q * c) as real == q as real * c as real;
    assert n as real == c as real * q as real + r as real;
    FractionBelowOne(r, c);
    assert n as real / c as real == q as real + r as real / c as real;
  }

  /** A remainder divided by its divisor lies in `[0, 1)`. */
  lemma FractionBelowOne(r: nat, c: nat)
    requires r < c
    ensures 0.0 <= r as real / c as real < 1.0
  {
    assert r as real / c as real * c as real == r as real;
  }

  /**
   * `aPixels[index] >= 0.3`: an index past the end reads `undefined`, which
   * compares false. For the bytes of an image buffer this means "alpha not zero".
   */
  predicate Opaque(pixels: seq<int>, index: int) {
    0 <= index < |pixels| && pixels[index] as real >= TransparencyThreshold
  }

  /** Over bytes, the threshold test is a test against zero. */
  lemma OpaqueMeansNonZero(pixels: seq<int>, index: int)
    requires 0 <= index < |pixels| && 0 <= pixels[index] <= 255
    ensures Opaque(pixels, index) <==> pixels[index] != 0
  {
  }

  /** The loop's test at component offset `i`: the alpha of that pixel is opaque in both buffers. */
  predicate StrideHit(aPixels: seq<int>, bPixels: seq<int>, i: int) {
    Opaque(aPixels, i + AlphaComponent) && Opaque(bPixels, i + AlphaComponent)
  }

  /** The first pixel offset from `from` on (in steps of four, below `|aPixels|`) that is opaque in both buffers. */
  function FirstHit(aPixels: seq<int>, bPixels: seq<int>, from: nat): (r: Option<nat>)
    requires from % ComponentCount == 0
    ensures r.Some? ==> from <= r.value < |aPixels| && r.value % ComponentCount == 0
                        && StrideHit(aPixels, bPixels, r.value)
    ensures r.Some? ==> forall j :: from <= j < r.value && j % ComponentCount == 0 ==> !StrideHit(aPixels, bPixels, j)
    ensures r.None? ==> forall j :: from <= j < |aPixels| && j % ComponentCount == 0 ==> !StrideHit(aPixels, bPixels, j)
    decreases |aPixels| - from
  {
    if from >= |aPixels| then None
    else if StrideHit(aPixels, bPixels, from) then Some(from)
    else FirstHit(aPixels, bPixels, from + ComponentCount)
  }

  /** What `testPixels(aPixels, bPixels, width)` returns: the decoded point of the first hit, if any. */
  function PixelTest(aPixels: seq<int>, bPixels: seq<int>, overlapWidth: real): Option<Point> {
    match FirstHit(aPixels, bPixels, 0)
    case None => None
    case Some(i) => Some(PointOfCollision(i + AlphaComponent, overlapWidth))
  }

  /** The test finds a point exactly when some pixel is opaque in both buffers. */
  lemma PixelTestFindsSharedOpaquePixel(aPixels: seq<int>, bPixels: seq<int>, overlapWidth: real)
    ensures PixelTest(aPixels, bPixels, overlapWidth).Some?
        <==> exists i :: 0 <= i < |aPixels| && i % ComponentCount == 0 && StrideHit(aPixels, bPixels, i)
  {
  }

  /** A buffer without a single opaque alpha byte never collides with anything. */
  lemma TransparentNeverHits(aPixels: seq<int>, bPixels: seq<int>, overlapWidth: real)
    requires forall i :: 0 <= i < |bPixels| ==> bPixels[i] as real < TransparencyThreshold
    ensures PixelTest(aPixels, bPixels, overlapWidth) == None
  {
  }

  /**
   * `testPixels`: walks the alpha components in steps of four and returns on the
   * first one that is opaque in both buffers.
   */
  method TestPixels(aPixels: seq<int>, bPixels: seq<int>, overlapWidth: real) returns (point: Option<Point>)
    ensures point == PixelTest(aPixels, bPixels, overlapWidth)
  {
    var count := |aPixels|;
    var i := 0;
    while i < count
      invariant i % ComponentCount == 0
      invariant FirstHit(aPixels, bPixels, 0) == FirstHit(aPixels, bPixels, i)
      decreases count - i
    {
      var index := i + AlphaComponent;
      if index < |aPixels| && aPixels[index] as real >= TransparencyThreshold
         && index < |bPixels| && bPixels[index] as real >= TransparencyThreshold {
        return Some(PointOfCollision(index, overlapWidth));
      }
      i := i + ComponentCount;
    }
    return None;
  }

  /**
   * The point is decoded from the byte offset of the alpha component rather
   * than from the pixel number. In a one-pixel overlap (width 1, four bytes)
   * the only pixel is reported at row 3, outside the overlap.
   */
  lemma ByteOffsetLeavesOverlap()
    ensures PixelTest([0, 0, 0, 255], [0, 0, 0, 255], 1.0) == Some(Point(0, 3))
  {
    assert FirstHit([0, 0, 0, 255], [0, 0, 0, 255], 0) == Some(0);
    PointOfCollisionDecomposes(3, 1);
  }

  /** The point decoded from the pixel number `i / 4`, as the overlap coordinates are meant. */
  function PixelTestIntended(aPixels: seq<int>, bPixels: seq<int>, overlapWidth: real): Option<Point> {
    match FirstHit(aPixels, bPixels, 0)
    case None => None
    case Some(i) => Some(PointOfCollision(i / ComponentCount, overlapWidth))
  }

  /** For a buffer of `width` by `height` RGBA pixels the intended point lies inside the overlap. */
  lemma IntendedPointInsideOverlap(aPixels: seq<int>, bPixels: seq<int>, width: nat, height: nat)
    requires 0 < width && |aPixels| == ComponentCount * width * height
    ensures var p := PixelTestIntended(aPixels, bPixels, width as real);
      p.Some? ==> 0 <= p.value.x < width && 0 <= p.value.y < height
  {
    var hit := FirstHit(aPixels, bPixels, 0);
    if hit.Some? {
      var pixel := hit.value / ComponentCount;
      assert pixel < width * height;
      PointOfCollisionDecomposes(pixel, width);
    }
  }

  // ---------------------------------------------------------------- lookup tables

  /** The four entries of `intersectionMatrix`: which rectangles of the two colliders are intersected. */
  datatype IntersectionRule =
    | Plain        // intersection(a, b): both colliders' own rectangles
    | RectCircle   // getRectCircleIntersection: a's rectangle, b's circle square
    | CircleCircle // getCircleIntersection: both circle squares
    | CircleRect   // getCircleRectIntersection: a's circle square, b's rectangle

  /** `intersectionMatrix` as written, row by row. */
  const IntersectionRows: seq<(Kind, Kind, IntersectionRule)> := [
    (AlphaCollider, AlphaCollider, Plain),
    (AlphaCollider, CircleCollider, RectCircle),
    (AlphaCollider, BoxCollider, Plain),
    (CircleCollider, CircleCollider, CircleCircle),
    (CircleCollider, BoxCollider, CircleRect),
    (CircleCollider, AlphaCollider, CircleRect),
    (BoxCollider, BoxCollider, Plain),
    (BoxCollider, CircleCollider, RectCircle),
    (BoxCollider, AlphaCollider, Plain)
  ]

  /** The object `intersectionMatrix` as the source builds it, keyed by `${a.type}vs${b.type}`. */
  function IntersectionTable(): map<string, IntersectionRule> {
    Build(TextKeyed(IntersectionRows))
  }

  /** All nine keys are the same text, so the table holds one entry: the last row's plain intersection. */
  lemma IntersectionTableCollapses()
    ensures IntersectionTable() == map[ObjectText + "vs" + ObjectText := Plain]
  {
    var entries := TextKeyed(IntersectionRows);
    forall i | 0 <= i < |entries|
      ensures entries[i].0 == ObjectText + "vs" + ObjectText
    {
      TypedPairKeysCoincide(IntersectionRows[i].0, IntersectionRows[i].1, BoxCollider, BoxCollider);
    }
    SameKeyKeepsLast(entries, ObjectText + "vs" + ObjectText);
  }

  /** The rule each pair of kinds is given in the rows. */
  function IntendedRule(a: Kind, b: Kind): IntersectionRule {
    if a.CircleCollider? && b.CircleCollider? then CircleCircle
    else if a.CircleCollider? then CircleRect
    else if b.CircleCollider? then RectCircle
    else Plain
  }

  /** Keyed by the pair of kinds, the nine rows are distinct and the table gives every pair its own rule. */
  lemma IntendedTableFollowsRows(a: Kind, b: Kind)
    ensures var table := Build(KindKeyed(IntersectionRows));
      (a, b) in table && table[(a, b)] == IntendedRule(a, b)
  {
    IntersectionRowsDistinct();
    KindKeyedLookup(IntersectionRows, RowOf(a, b));
  }

  /** The position of the pair `(a, b)` among the rows; that row holds the pair's rule. */
  function RowOf(a: Kind, b: Kind): (i: nat)
    ensures i < |IntersectionRows| && IntersectionRows[i].0 == a && IntersectionRows[i].1 == b
    ensures IntersectionRows[i].2 == IntendedRule(a, b)
  {
    match (a, b)
    case (AlphaCollider, AlphaCollider) => 0
    case (AlphaCollider, CircleCollider) => 1
    case (AlphaCollider, BoxCollider) => 2
    case (CircleCollider, CircleCollider) => 3
    case (CircleCollider, BoxCollider) => 4
    case (CircleCollider, AlphaCollider) => 5
    case (BoxCollider, BoxCollider) => 6
    case (BoxCollider, CircleCollider) => 7
    case (BoxCollider, AlphaCollider) => 8
  }

  /** Each row is the position of its own pair. */
  lemma RowOfInverse(i: int)
    requires 0 <= i < |IntersectionRows|
    ensures RowOf(IntersectionRows[i].0, IntersectionRows[i].1) == i
  {
  }

  /** No two rows of `intersectionMatrix` name the same pair of kinds. */
  lemma IntersectionRowsDistinct()
    ensures DistinctPairs(IntersectionRows)
  {
    forall p, q | 0 <= p < q < |IntersectionRows|
      ensures (IntersectionRows[p].0, IntersectionRows[p].1) != (IntersectionRows[q].0, IntersectionRows[q].1)
    {
      RowOfInverse(p);
      RowOfInverse(q);
    }
  }

  /** The rectangles a rule intersects, read from the two colliders. */
  function ApplyRule(rule: IntersectionRule, a: Body, b: Body): Option<Box> {
    match rule
    case Plain => Intersection(a.ToRect(), b.ToRect())
    case RectCircle => Intersection(a.ToRect(), b.circle.ToRect())
    case CircleCircle => Intersection(a.circle.ToRect(), b.circle.ToRect())
    case CircleRect => Intersection(a.circle.ToRect(), b.ToRect())
  }

  /**
   * `getIntersection(a, b)`: the table lookup. Every typed pair reaches the
   * plain intersection of the colliders' own rectangles.
   */
  function GetIntersection(a: Body, b: Body): (r: Option<Box>)
    requires a.kind.Some? && b.kind.Some?
    ensures r == Intersection(a.ToRect(), b.ToRect())
  {
    IntersectionTableCollapses();
    TypedPairKeysCoincide(a.kind.value, b.kind.value, BoxCollider, BoxCollider);
    ApplyRule(IntersectionTable()[PairKey(a.kind, b.kind)], a, b)
  }

  /** The lookup the rows are meant to give, with the circle squares for circle colliders. */
  function GetIntersectionIntended(a: Body, b: Body): Option<Box>
    requires a.kind.Some? && b.kind.Some?
  {
    ApplyRule(IntendedRule(a.kind.value, b.kind.value), a, b)
  }

  /** Two circle colliders whose rectangles are apart while their circle squares overlap. */
  predicate CirclesOverlapOnlyAsCircles(a: Body, b: Body) {
    var ca, cb := a.circle.ToRect(), b.circle.ToRect();
    a.kind == Some(CircleCollider) && b.kind == Some(CircleCollider)
    && a.y + a.height <= b.y && a.circle.radius > 0.0 && b.circle.radius > 0.0
    && ca.left < cb.right && cb.left < ca.right && ca.top < cb.bottom && cb.top < ca.bottom
  }

  /**
   * For such a pair the table as built finds no overlap, while the intended
   * circle-circle row finds one.
   */
  lemma CircleRowsNeverReached(a: Body, b: Body)
    requires CirclesOverlapOnlyAsCircles(a, b)
    ensures GetIntersection(a, b).None? && GetIntersectionIntended(a, b).Some?
  {
    SeparatedRectanglesDoNotIntersect(a.ToRect(), b.ToRect());
    OverlappingRectanglesIntersect(a.circle.ToRect(), b.circle.ToRect());
  }

  /** Two circle colliders, 10 by 2 at heights 0 and 4, each with radius 5, form such a pair. */
  lemma StackedCirclesOverlapOnlyAsCircles()
    ensures CirclesOverlapOnlyAsCircles(
      Body(Some(CircleCollider), 0.0, 0.0, 10.0, 2.0, 5.0, Circle(5.0, 1.0, 5.0)),
      Body(Some(CircleCollider), 0.0, 4.0, 10.0, 2.0, 5.0, Circle(5.0, 5.0, 5.0)))
  {
  }

  /** The three renderers of `getPixelDataMatrix`. */
  datatype Renderer = FromBox | FromCircle | FromAlpha

  /** `getPixelDataMatrix` as written: one row per collider kind. */
  const RendererRows: seq<(Kind, Renderer)> := [
    (BoxCollider, FromBox),
    (CircleCollider, FromCircle),
    (AlphaCollider, FromAlpha)
  ]

  /** The object as the source builds it, keyed by `${type}`. */
  function RendererTable(): map<string, Renderer> {
    Build(seq(|RendererRows|, i requires 0 <= i < |RendererRows| => (KeyOf(Some(RendererRows[i].0)), RendererRows[i].1)))
  }

  /** The three keys coincide; the alpha renderer, written last, is the only one left. */
  lemma RendererTableCollapses()
    ensures RendererTable() == map[ObjectText := FromAlpha]
  {
    var entries := seq(|RendererRows|, i requires 0 <= i < |RendererRows| => (KeyOf(Some(RendererRows[i].0)), RendererRows[i].1));
    SameKeyKeepsLast(entries, ObjectText);
  }

  /** `getPixelDataFromCollider`: the renderer the table gives a typed collider, the alpha one for every kind. */
  function RendererFor(kind: Kind): (r: Renderer)
    ensures r == FromAlpha
  {
    RendererTableCollapses();
    RendererTable()[KeyOf(Some(kind))]
  }

  /**
   * The canvas: `ImageData.data` of the given renderer drawing the collider and
   * reading back the rectangle `x, y, w, h`.
   */
  type Sampler = (Renderer, Collider, Box) -> seq<int>

  /** The source rectangle of a collider: the overlap moved into the collider's own coordinates. */
  function LocalBounds(overlap: Box, c: Body): (r: Box)
    ensures r.x == overlap.x - c.x && r.y == overlap.y - c.y
    ensures r.width == overlap.width && r.height == overlap.height
  {
    Box(overlap.x - c.x, overlap.y - c.y, overlap.width, overlap.height)
  }

  /** The local rectangle lies within the collider's own extent, starting at (0, 0). */
  lemma LocalBoundsInsideCollider(a: Body, b: Body)
    requires a.kind.Some? && b.kind.Some?
    requires GetIntersection(a, b).Some?
    ensures var o := GetIntersection(a, b).value;
      LocalBounds(o, a).ToRect().Within(Box(0.0, 0.0, a.width, a.height).ToRect())
      && LocalBounds(o, b).ToRect().Within(Box(0.0, 0.0, b.width, b.height).ToRect())
      && LocalBounds(o, a).width > 0.0 && LocalBounds(o, a).height > 0.0
  {
  }

  /** What `alphaCollisionTest(a, b)` sees and decides. */
  datatype AlphaTrace =
    | NoOverlap
    | Sampled(overlap: Box, boundsA: Box, boundsB: Box, pixelsA: seq<int>, pixelsB: seq<int>, point: Option<Point>)
  {
    function Result(): Option<Point> {
      if NoOverlap? then None else point
    }
  }

  function Trace(a: Collider, b: Collider, sample: Sampler): (t: AlphaTrace)
    requires a.kind.Some? && b.kind.Some?
    reads {a, b}`kind, {a, b}`x, {a, b}`y, {a, b}`width, {a, b}`height, {a, b}`radius, {a, b}`circle
    ensures t.NoOverlap? <==> GetIntersection(a.View(), b.View()).None?
    ensures t.Sampled? ==> t.boundsA == LocalBounds(t.overlap, a.View()) && t.boundsB == LocalBounds(t.overlap, b.View())
    ensures t.Sampled? ==> t.point == PixelTest(t.pixelsA, t.pixelsB, t.overlap.width)
  {
    match GetIntersection(a.View(), b.View())
    case None => NoOverlap
    case Some(overlap) =>
      var boundsA, boundsB := LocalBounds(overlap, a.View()), LocalBounds(overlap, b.View());
      var pixelsA := sample(RendererFor(a.kind.value), a, boundsA);
      var pixelsB := sample(RendererFor(b.kind.value), b, boundsB);
      Sampled(overlap, boundsA, boundsB, pixelsA, pixelsB, PixelTest(pixelsA, pixelsB, overlap.width))
  }

  /**
   * The fields `alphaCollisionTest(a, b)` leaves behind, given its trace: nothing
   * written without an overlap; otherwise both local rectangles, and both pixel
   * buffers on a hit, deleted on a miss.
   */
  twostate predicate TestRecorded(a: Collider, b: Collider, t: AlphaTrace)
    reads a, b
  {
    (t.NoOverlap? ==> a.alphaTestBounds == old(a.alphaTestBounds) && b.alphaTestBounds == old(b.alphaTestBounds)
                      && a.overlapImageData == old(a.overlapImageData) && b.overlapImageData == old(b.overlapImageData))
    && (t.Sampled? ==> a.alphaTestBounds == Some(t.boundsA) && b.alphaTestBounds == Some(t.boundsB))
    && (t.Sampled? && t.point.Some? ==> a.overlapImageData == Some(t.pixelsA) && b.overlapImageData == Some(t.pixelsB))
    && (t.Sampled? && t.point.None? ==> a.overlapImageData.None? && b.overlapImageData.None?)
  }

  /**
   * `alphaCollisionTest(a, b)`: no overlap returns at once; otherwise records the
   * local rectangles and the pixel data, keeps the data only on a hit, and
   * returns the point.
   */
  method AlphaCollisionTest(a: Collider, b: Collider, sample: Sampler) returns (point: Option<Point>)
    requires a.kind.Some? && b.kind.Some?
    modifies a`alphaTestBounds, a`overlapImageData, b`alphaTestBounds, b`overlapImageData
    ensures var t := old(Trace(a, b, sample));
      point == t.Result() && TestRecorded(a, b, t)
  {
    var overlap := GetIntersection(a.View(), b.View());
    if overlap.None? {
      return None;
    }
    var boundsA := LocalBounds(overlap.value, a.View());
    var boundsB := LocalBounds(overlap.value, b.View());
    a.alphaTestBounds := Some(boundsA);
    b.alphaTestBounds := Some(boundsB);
    var pixelsA := sample(RendererFor(a.kind.value), a, boundsA);
    var pixelsB := sample(RendererFor(b.kind.value), b, boundsB);
    a.overlapImageData := Some(pixelsA);
    b.overlapImageData := Some(pixelsB);
    point := TestPixels(pixelsA, pixelsB, overlap.value.width);
    if point.Some? {
      return point;
    }
    a.overlapImageData := None;
    b.overlapImageData := None;
  }

  /**
   * `collidedAlpha(a, b)`: a missing collider gives no collision and no writes;
   * otherwise both collision points are cleared, the test runs, and on a hit
   * both colliders record the point.
   */
  method CollidedAlpha(a: Collider?, b: Collider?, sample: Sampler) returns (point: Option<Point>)
    requires a != null && b != null ==> a.kind.Some? && b.kind.Some?
    modifies ({a, b} - {null})`collisionPoint, ({a, b} - {null})`alphaTestBounds
    modifies ({a, b} - {null})`overlapImageData
    ensures a == null || b == null ==> point.None?
    ensures a == null && b != null ==> unchanged(b)
    ensures b == null && a != null ==> unchanged(a)
    ensures a != null && b != null ==>
      var t := old(Trace(a, b, sample));
      point == t.Result() && a.collisionPoint == point && b.collisionPoint == point && TestRecorded(a, b, t)
  {
    if a == null || b == null {
      return None;
    }
    a.collisionPoint := None;
    b.collisionPoint := None;
    point := AlphaCollisionTest(a, b, sample);
    if point.Some? {
      a.collisionPoint := point;
      b.collisionPoint := point;
    }
  }
}
