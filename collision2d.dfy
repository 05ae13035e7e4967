/**
 * src/Collision2D.js: the single-file build of the library. Its colliders are
 * configured once by their constructor and read their position live from the
 * display object; its tests differ from the modular engine in a few places
 * (a non-strict intersection, no box pre-check before the circle test, a
 * boolean pixel test, a different middle-band split, and an if-chain dispatch).
 */
module Collision2D {
  import opened Wrappers
  import opened Geometry
  import opened ColliderTypes
  import opened Display
  import opened CoreMath
  import opened BoxCollision
  import opened BoxCircleCollision
  import opened ObjectLiteral
  import Collision
  import CircleCollision
  import CoreCollider

  /** The two errors the `Collider` constructor throws. */
  datatype ConstructionError = MissingDisplayObject | UnknownType

  /** The type strings `'box'`, `'circle'` and `'alpha'`. */
  function TypeName(kind: Kind): string {
    match kind
    case BoxCollider => "box"
    case CircleCollider => "circle"
    case AlphaCollider => "alpha"
  }

  /**
   * The constructor's type handling for a string or absent type: an absent or
   * empty type means `'box'`; otherwise it must be one of the three names.
   */
  function ParseType(name: Option<string>): (r: Result<Kind, ConstructionError>)
    ensures name.None? || name == Some("") ==> r == Ok(BoxCollider)
    ensures r.Ok? && name.Some? && name.value != "" ==> TypeName(r.value) == name.value
    ensures r.Err? <==> name.Some? && name.value !in {"", "box", "circle", "alpha"}
  {
    if name.None? || name.value == "" then Ok(BoxCollider)
    else if name.value == "box" then Ok(BoxCollider)
    else if name.value == "circle" then Ok(CircleCollider)
    else if name.value == "alpha" then Ok(AlphaCollider)
    else Err(UnknownType)
  }

  /** Every type name is accepted and gives back its kind. */
  lemma ParseTypeName(kind: Kind)
    ensures ParseType(Some(TypeName(kind))) == Ok(kind)
  {
  }

  /** The optional fields of the configuration object; `None` is `undefined`. */
  datatype Request = Request(kind: Option<string>, width: Option<real>, height: Option<real>, radius: Option<real>)

  /** What the constructor stores: type, pivot, size and radius (`None` while undefined). */
  datatype Settings = Settings(kind: Kind, pivotX: real, pivotY: real, width: real, height: real, radius: Option<real>)

  /** Width and height: the requested pair when both are given, otherwise the display object's bounds. */
  function ChosenSize(request: Request, bounds: Size): (s: Size)
    ensures request.width.Some? && request.height.Some? ==> s == Size(request.width.value, request.height.value)
    ensures request.width.None? || request.height.None? ==> s == bounds
  {
    if request.width.Some? && request.height.Some? then Size(request.width.value, request.height.value)
    else bounds
  }

  /** `Math.floor(0.5 * Math.sqrt(width * width + height * height))`: half the diagonal, rounded down. */
  function HalfDiagonal(width: real, height: real, sqrt: real -> real): (r: real)
    ensures r == r.Floor as real && r <= 0.5 * sqrt(width * width + height * height) < r + 1.0
  {
    (0.5 * sqrt(width * width + height * height)).Floor as real
  }

  /**
   * The radius as the constructor sets it: a supplied radius is replaced by
   * the half diagonal, and an omitted one stays undefined.
   */
  function ChosenRadius(radius: Option<real>, width: real, height: real, sqrt: real -> real): (r: Option<real>)
    ensures radius.Some? ==> r == Some(HalfDiagonal(width, height, sqrt))
    ensures radius.None? ==> r.None?
  {
    if radius.Some? then Some(HalfDiagonal(width, height, sqrt)) else radius
  }

  /** A supplied radius never reaches the collider, and a circle collider built without one has none. */
  lemma SuppliedRadiusIgnored(r1: real, r2: real, width: real, height: real, sqrt: real -> real)
    ensures ChosenRadius(Some(r1), width, height, sqrt) == ChosenRadius(Some(r2), width, height, sqrt)
    ensures ChosenRadius(None, width, height, sqrt).None?
  {
  }

  /** The radius the documentation promises: the supplied one, or the half diagonal when none is given. */
  function IntendedRadius(radius: Option<real>, width: real, height: real, sqrt: real -> real): real {
    if radius.Some? then radius.value else HalfDiagonal(width, height, sqrt)
  }

  /** The intended radius keeps a supplied value and is always defined; it agrees with the code on nothing else. */
  lemma IntendedRadiusKeepsSupplied(radius: Option<real>, width: real, height: real, sqrt: real -> real)
    ensures radius.Some? ==> IntendedRadius(radius, width, height, sqrt) == radius.value
    ensures radius.None? ==> IntendedRadius(radius, width, height, sqrt) == HalfDiagonal(width, height, sqrt)
    ensures ChosenRadius(radius, width, height, sqrt) == Some(IntendedRadius(radius, width, height, sqrt))
        <==> radius.Some? && radius.value == HalfDiagonal(width, height, sqrt)
  {
  }

  /**
   * The `Collider` constructor's decisions: no display object throws first,
   * then an unknown type; otherwise the pivot is the registration point and
   * size and radius follow the rules above.
   */
  function Configure(displayObject: DisplayObject?, request: Request, sqrt: real -> real): (r: Result<Settings, ConstructionError>)
    reads displayObject
    ensures displayObject == null ==> r == Err(MissingDisplayObject)
    ensures displayObject != null && ParseType(request.kind).Err? ==> r == Err(UnknownType)
    ensures displayObject != null && ParseType(request.kind).Ok? ==>
      r.Ok? && r.value.kind == ParseType(request.kind).value
      && r.value.pivotX == displayObject.regX && r.value.pivotY == displayObject.regY
      && Size(r.value.width, r.value.height) == ChosenSize(request, displayObject.bounds)
      && r.value.radius == ChosenRadius(request.radius, r.value.width, r.value.height, sqrt)
  {
    if displayObject == null then Err(MissingDisplayObject)
    else match ParseType(request.kind)
      case Err(e) => Err(e)
      case Ok(kind) =>
        var size := ChosenSize(request, displayObject.bounds);
        Ok(Settings(kind, displayObject.regX, displayObject.regY, size.width, size.height,
                    ChosenRadius(request.radius, size.width, size.height, sqrt)))
  }

  /** What the collision functions read from a collider: type, the `x`/`y` getters, size and radius. */
  datatype Shape = Shape(kind: Kind, x: real, y: real, width: real, height: real, radius: Option<real>) {

    /** The `left`, `top`, `right` and `bottom` getters. */
    function ToRect(): (r: Rect)
      ensures r.left == x && r.top == y && r.right == x + width && r.bottom == y + height
    {
      Rect(x, y, x + width, y + height)
    }

    function Position(): Vec {
      Vec(x, y)
    }
  }

  class Collider {
    const kind: Kind
    const displayObject: DisplayObject
    const pivotX: real
    const pivotY: real
    const width: real
    const height: real
    const radius: Option<real>

    constructor (displayObject: DisplayObject, settings: Settings)
      ensures this.displayObject == displayObject && Stored() == settings
    {
      this.displayObject := displayObject;
      kind := settings.kind;
      pivotX, pivotY := settings.pivotX, settings.pivotY;
      width, height := settings.width, settings.height;
      radius := settings.radius;
    }

    /** The fields the constructor set. */
    function Stored(): Settings {
      Settings(kind, pivotX, pivotY, width, height, radius)
    }

    /** The getters are numbers: a circle collider has a radius (an undefined one makes them `NaN`). */
    predicate Defined() {
      kind.CircleCollider? ==> radius.Some?
    }

    /** The `x` getter: for a circle the display object's `x` moved by the radius, else by the pivot alone. */
    function X(): (r: real)
      requires Defined()
      reads displayObject
      ensures kind.CircleCollider? ==> r == displayObject.x + radius.value - pivotX
      ensures !kind.CircleCollider? ==> r == displayObject.x - pivotX
    {
      if kind.CircleCollider? then displayObject.x + radius.value - pivotX else displayObject.x - pivotX
    }

    /** The `y` getter, in the same way. */
    function Y(): (r: real)
      requires Defined()
      reads displayObject
      ensures kind.CircleCollider? ==> r == displayObject.y + radius.value - pivotY
      ensures !kind.CircleCollider? ==> r == displayObject.y - pivotY
    {
      if kind.CircleCollider? then displayObject.y + radius.value - pivotY else displayObject.y - pivotY
    }

    /** The collider as the collision functions see it now. */
    function View(): (s: Shape)
      requires Defined()
      reads displayObject
      ensures s.kind == kind && s.width == width && s.height == height && s.radius == radius
      ensures s.ToRect() == Rect(X(), Y(), X() + width, Y() + height)
    {
      Shape(kind, X(), Y(), width, height, radius)
    }
  }

  /**
   * `new Collider(config)`: either the error it throws, or a fresh collider
   * holding the configured settings and the given display object.
   */
  method Create(displayObject: DisplayObject?, request: Request, sqrt: real -> real)
    returns (r: Result<Collider, ConstructionError>)
    ensures var s := Configure(displayObject, request, sqrt);
      (s.Err? ==> r == Err(s.error))
      && (s.Ok? ==> r.Ok? && fresh(r.value) && r.value.displayObject == displayObject && r.value.Stored() == s.value)
  {
    var settings := Configure(displayObject, request, sqrt);
    if settings.Err? {
      return Err(settings.error);
    }
    var collider := new Collider(displayObject, settings.value);
    return Ok(collider);
  }

  /** A box collider's corner is the display object's position minus its pivot, whatever its radius. */
  lemma BoxCornerIsPivotOffset(c: Collider)
    requires c.kind.BoxCollider?
    ensures c.Defined() && c.View().Position() == Vec(c.displayObject.x - c.pivotX, c.displayObject.y - c.pivotY)
  {
  }

  // ---------------------------------------------------------------- tests

  /** `intersection(a, b)`: the overlap rectangle, kept when its size is not negative. */
  function Intersection(a: Rect, b: Rect): (r: Option<Box>)
    ensures var o := OverlapRect(a, b); r.Some? <==> o.right >= o.left && o.bottom >= o.top
    ensures r.Some? ==> r.value.ToRect() == OverlapRect(a, b)
    ensures r.Some? ==> r.value.width >= 0.0 && r.value.height >= 0.0
  {
    var left, top := Max(a.left, b.left), Max(a.top, b.top);
    var right, bottom := Min(a.right, b.right), Min(a.bottom, b.bottom);
    if right >= left && bottom >= top then Some(Box(left, top, right - left, bottom - top)) else None
  }

  /** `intersects(a, b)`: the intersection is not `null`. */
  function Intersects(a: Rect, b: Rect): (r: bool)
    ensures r <==> exists p :: a.Contains(p) && b.Contains(p)
  {
    var o := Intersection(a, b);
    if o.Some? then
      assert a.Contains(Vec(o.value.x, o.value.y)) && b.Contains(Vec(o.value.x, o.value.y));
      true
    else
      false
  }

  /** Where the modular engine finds an overlap, this one finds the same overlap. */
  lemma CoreOverlapIsKept(a: Rect, b: Rect)
    requires CoreMath.Intersection(a, b).Some?
    ensures Intersection(a, b) == CoreMath.Intersection(a, b)
  {
  }

  /** Rectangles that only touch have no overlap in the modular engine, and a zero-width one here. */
  lemma TouchingRectanglesMeet(a: Rect, b: Rect)
    requires a.WellFormed() && b.WellFormed() && a.right == b.left
    requires a.top < b.bottom && b.top < a.bottom
    ensures CoreMath.Intersection(a, b).None?
    ensures Intersection(a, b).Some? && Intersection(a, b).value.width == 0.0
  {
    CoreMath.TouchingRectanglesDoNotIntersect(a, b);
  }

  /** For well-formed rectangles a non-null intersection and a box collision are the same thing. */
  lemma IntersectionIsCollidedBox(a: Rect, b: Rect)
    requires a.WellFormed() && b.WellFormed()
    ensures Intersection(a, b).Some? <==> CollidedBox(a, b)
  {
  }

  /** `collidedCircle(a, b)`: `b`'s position inside the circle around `a`'s with the summed radii. */
  function CollidedCircle(a: Shape, b: Shape): (r: bool)
    requires a.radius.Some? && b.radius.Some?
    ensures r <==> DistanceSquared(a.Position(), b.Position())
                   < (a.radius.value + b.radius.value) * (a.radius.value + b.radius.value)
  {
    PointInsideCircle(b.x, b.y, a.Position(), a.radius.value + b.radius.value)
  }

  /** The test gives the same answer with the arguments swapped. */
  lemma CollidedCircleSymmetric(a: Shape, b: Shape)
    requires a.radius.Some? && b.radius.Some?
    ensures CollidedCircle(a, b) == CollidedCircle(b, a)
  {
    DistanceSquaredSymmetric(a.Position(), b.Position());
    assert (a.radius.value + b.radius.value) * (a.radius.value + b.radius.value)
        == (b.radius.value + a.radius.value) * (b.radius.value + a.radius.value);
  }

  /** The modular engine's circle test is this one behind a box pre-check. */
  lemma CoreCircleAddsBoxCheck(a: Shape, b: Shape, ca: CoreCollider.Body, cb: CoreCollider.Body)
    requires a.radius.Some? && b.radius.Some?
    requires ca.x == a.x && ca.y == a.y && ca.width == a.width && ca.height == a.height && ca.radius == a.radius.value
    requires cb.x == b.x && cb.y == b.y && cb.width == b.width && cb.height == b.height && cb.radius == b.radius.value
    ensures CircleCollision.CollidedCircle(ca, cb) <==> CollidedBox(a.ToRect(), b.ToRect()) && CollidedCircle(a, b)
  {
  }

  /**
   * `aPixels[index] !== 0`: a byte past the end reads `undefined`, which is
   * not `0`, so a missing byte counts as visible.
   */
  predicate Visible(pixels: seq<int>, index: nat) {
    index >= |pixels| || pixels[index] != 0
  }

  /** Some stride below `|aPixels|` has a visible alpha byte in both buffers. */
  predicate SharedVisibleStride(aPixels: seq<int>, bPixels: seq<int>) {
    exists i: nat :: i < |aPixels| && i % 4 == 0 && Visible(aPixels, i + 3) && Visible(bPixels, i + 3)
  }

  /** The pixel loop of `collidedAlpha`: true on the first stride whose alpha is visible in both buffers. */
  method ScanPixels(aPixels: seq<int>, bPixels: seq<int>) returns (hit: bool)
    ensures hit == SharedVisibleStride(aPixels, bPixels)
  {
    var count := |aPixels|;
    var i := 0;
    while i < count
      invariant i % 4 == 0
      invariant forall j: nat :: j < i && j < count && j % 4 == 0 ==> !(Visible(aPixels, j + 3) && Visible(bPixels, j + 3))
      decreases count - i
    {
      var index := i + 3;
      if (index >= |aPixels| || aPixels[index] != 0) && (index >= |bPixels| || bPixels[index] != 0) {
        assert Visible(aPixels, i + 3) && Visible(bPixels, i + 3);
        return true;
      }
      i := i + 4;
    }
    return false;
  }

  /**
   * Two five-byte buffers whose only alpha byte is 0: the second stride reads
   * past the end, the missing byte counts as visible, and the test succeeds.
   */
  lemma MissingAlphaByteCountsAsVisible()
    ensures SharedVisibleStride([0, 0, 0, 0, 255], [0, 0, 0, 0, 255])
  {
    var pixels := [0, 0, 0, 0, 255];
    var i: nat := 4;
    assert i < |pixels| && i % 4 == 0 && Visible(pixels, i + 3);
  }

  /** `imgData(x, y, w, h)` of a collider: the RGBA bytes of its rendering in that rectangle. */
  type Sampler = (Collider, Box) -> seq<int>

  /** The source rectangle of a collider: the overlap moved into the collider's own coordinates. */
  function LocalBounds(overlap: Box, s: Shape): (r: Box)
    ensures r.x + s.x == overlap.x && r.y + s.y == overlap.y
    ensures r.width == overlap.width && r.height == overlap.height
  {
    Box(overlap.x - s.x, overlap.y - s.y, overlap.width, overlap.height)
  }

  /**
   * Both source rectangles handed to `imgData` lie inside their collider's own
   * `0..width` by `0..height` extent. Their size may be zero: touching
   * rectangles intersect here with a zero width or height.
   */
  lemma LocalBoundsInsideShape(a: Shape, b: Shape)
    requires a.width >= 0.0 && a.height >= 0.0 && b.width >= 0.0 && b.height >= 0.0
    requires Intersection(a.ToRect(), b.ToRect()).Some?
    ensures var o := Intersection(a.ToRect(), b.ToRect()).value;
      LocalBounds(o, a).ToRect().Within(Box(0.0, 0.0, a.width, a.height).ToRect())
      && LocalBounds(o, b).ToRect().Within(Box(0.0, 0.0, b.width, b.height).ToRect())
      && o.width >= 0.0 && o.height >= 0.0
  {
  }

  /** What `collidedAlpha(a, b)` returns. */
  function AlphaHit(a: Collider, b: Collider, sample: Sampler): bool
    requires a.Defined() && b.Defined()
    reads a.displayObject, b.displayObject
  {
    var ra, rb := a.View().ToRect(), b.View().ToRect();
    if !CollidedBox(ra, rb) then false
    else match Intersection(ra, rb)
      case None => false
      case Some(o) => SharedVisibleStride(sample(a, LocalBounds(o, a.View())), sample(b, LocalBounds(o, b.View())))
  }

  /**
   * For colliders of non-negative size the box test already decides whether
   * the intersection is null: the second guard never fires.
   */
  lemma AlphaSecondGuardRedundant(a: Collider, b: Collider, sample: Sampler)
    requires a.Defined() && b.Defined()
    requires a.width >= 0.0 && a.height >= 0.0 && b.width >= 0.0 && b.height >= 0.0
    ensures var ra, rb := a.View().ToRect(), b.View().ToRect();
      AlphaHit(a, b, sample) == (
        CollidedBox(ra, rb)
        && SharedVisibleStride(sample(a, LocalBounds(Intersection(ra, rb).value, a.View())),
                               sample(b, LocalBounds(Intersection(ra, rb).value, b.View()))))
  {
    IntersectionIsCollidedBox(a.View().ToRect(), b.View().ToRect());
  }

  /** `collidedAlpha(a, b)`: both guards, then the pixel loop over the two samples. */
  method CollidedAlpha(a: Collider, b: Collider, sample: Sampler) returns (hit: bool)
    requires a.Defined() && b.Defined()
    ensures hit == AlphaHit(a, b, sample)
  {
    var ra, rb := a.View().ToRect(), b.View().ToRect();
    if !CollidedBox(ra, rb) {
      return false;
    }
    var overlap := Intersection(ra, rb);
    if overlap.None? {
      return false;
    }
    var aPixels := sample(a, LocalBounds(overlap.value, a.View()));
    var bPixels := sample(b, LocalBounds(overlap.value, b.View()));
    hit := ScanPixels(aPixels, bPixels);
  }

  /**
   * `collidedCircleRect(circle, rect)`: the region of the circle collider's
   * `x`/`y` (its centre), the middle band split on `x`, the box test on the
   * collider's own rectangle, and the vertex (or origin) test with its radius.
   */
  function CollidedCircleRect(circle: Shape, rect: Shape): (r: bool)
    requires circle.radius.Some?
    ensures var region := Classify(circle.Position(), circle.x, rect.ToRect());
      region.IsCorner() ==>
        r == PointInsideCircle(Corner(region, rect.ToRect()).x, Corner(region, rect.ToRect()).y,
                               circle.Position(), circle.radius.value)
    ensures Classify(circle.Position(), circle.x, rect.ToRect()).IsCentral() ==>
      r == (CollidedBox(circle.ToRect(), rect.ToRect()) || PointInsideCircle(0.0, 0.0, circle.Position(), circle.radius.value))
  {
    Resolve(Classify(circle.Position(), circle.x, rect.ToRect()), circle.ToRect(), rect.ToRect(),
            circle.Position(), circle.radius.value)
  }

  /** The answer is the intended one plus the origin test after an edge-region box miss. */
  lemma CircleRectAddsOriginCase(circle: Shape, rect: Shape)
    requires circle.radius.Some?
    ensures var region := Classify(circle.Position(), circle.x, rect.ToRect());
      CollidedCircleRect(circle, rect) == (
        ResolveIntended(region, circle.ToRect(), rect.ToRect(), circle.Position(), circle.radius.value)
        || (region.IsCentral() && !CollidedBox(circle.ToRect(), rect.ToRect())
            && PointInsideCircle(0.0, 0.0, circle.Position(), circle.radius.value)))
  {
    var region := Classify(circle.Position(), circle.x, rect.ToRect());
    ResolveAddsOriginCase(region, circle.ToRect(), rect.ToRect(), circle.Position(), circle.radius.value);
  }

  /** Splitting the middle band on `x` (here) or on the collider's right edge (the modular engine) gives the same answer. */
  lemma SplitOnXIsHarmless(circle: Shape, rect: Shape)
    requires circle.radius.Some?
    ensures CollidedCircleRect(circle, rect)
        == Resolve(Classify(circle.Position(), circle.ToRect().right, rect.ToRect()), circle.ToRect(), rect.ToRect(),
                   circle.Position(), circle.radius.value)
  {
    MiddleSplitIrrelevant(circle.Position(), circle.x, circle.ToRect().right, circle.ToRect(), rect.ToRect(),
                          circle.radius.value);
  }

  /** The test `collided` chooses, in the order of its if-chain. */
  function Route(a: Kind, b: Kind): Collision.Test {
    if a.AlphaCollider? || b.AlphaCollider? then Collision.UseAlpha
    else if a.BoxCollider? && b.BoxCollider? then Collision.UseBox
    else if a.CircleCollider? && b.CircleCollider? then Collision.UseCircle
    else if a.BoxCollider? && b.CircleCollider? then Collision.UseRectCircle
    else Collision.UseCircleRect
  }

  /** The if-chain selects, for every pair, what the modular engine's table was meant to select. */
  lemma RouteIsIntendedTable(a: Kind, b: Kind)
    ensures Route(a, b) == Collision.IntendedTest(a, b)
    ensures var table := Build(KindKeyed(Collision.CollisionRows));
      (a, b) in table && Route(a, b) == table[(a, b)]
  {
    Collision.IntendedCollisionTableFollowsRows(a, b);
  }

  /**
   * `collided(a, b)`: the chosen test on `(a, b)`, with the circle first in
   * the mixed cases. There is no self-check, so a box collider of
   * non-negative size collides with itself.
   */
  method Collided(a: Collider, b: Collider, sample: Sampler) returns (hit: bool)
    requires a.Defined() && b.Defined()
    ensures Route(a.kind, b.kind).UseAlpha? ==> hit == AlphaHit(a, b, sample)
    ensures Route(a.kind, b.kind).UseBox? ==> hit == CollidedBox(a.View().ToRect(), b.View().ToRect())
    ensures Route(a.kind, b.kind).UseCircle? ==> hit == CollidedCircle(a.View(), b.View())
    ensures Route(a.kind, b.kind).UseRectCircle? ==> hit == CollidedCircleRect(b.View(), a.View())
    ensures Route(a.kind, b.kind).UseCircleRect? ==> hit == CollidedCircleRect(a.View(), b.View())
    ensures a == b && a.kind.BoxCollider? && a.width >= 0.0 && a.height >= 0.0 ==> hit
  {
    if a.kind.AlphaCollider? || b.kind.AlphaCollider? {
      hit := CollidedAlpha(a, b, sample);
    } else if a.kind.BoxCollider? && b.kind.BoxCollider? {
      hit := CollidedBox(a.View().ToRect(), b.View().ToRect());
      if a == b && a.width >= 0.0 && a.height >= 0.0 {
        CollidedBoxReflexive(a.View().ToRect());
      }
    } else if a.kind.CircleCollider? && b.kind.CircleCollider? {
      hit := CollidedCircle(a.View(), b.View());
    } else if a.kind.BoxCollider? && b.kind.CircleCollider? {
      hit := CollidedCircleRect(b.View(), a.View());
    } else {
      hit := CollidedCircleRect(a.View(), b.View());
    }
  }
}
