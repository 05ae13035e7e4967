/**
 * src/core/Collider.js: a collider derives its box and circle geometry from the
 * bounds and the concatenated transform of its display object. Its radius comes
 * from the module-level `getRadius`, which every constructor re-binds to the
 * collider being built.
 */
module CoreCollider {
  import opened Wrappers
  import opened Geometry
  import opened ColliderTypes
  import opened Display
  import CoreMath

  /** `v | 0` for a value inside the 32-bit range: truncation toward zero. */
  function Truncate(v: real): (r: int)
    ensures 0.0 <= v ==> 0 <= r && r as real <= v < r as real + 1.0
    ensures v < 0.0 ==> r <= 0 && r as real - 1.0 < v <= r as real
  {
    if v >= 0.0 then v.Floor else -((-v).Floor)
  }

  /** The two ways of deriving a radius from a size, chosen by the mode setters before construction. */
  datatype RadiusMode = Inscribed | Circumscribed

  /** `getInscribedRadius`: half the larger side, truncated. */
  function InscribedRadius(width: real, height: real): (r: real)
    ensures 0.0 <= width && 0.0 <= height ==>
      0.0 <= r && r <= CoreMath.Max(width, height) * 0.5 < r + 1.0 && r == r.Floor as real
  {
    Truncate(CoreMath.Max(width, height) * 0.5) as real
  }

  /** `getCircumscribedRadius`: half the diagonal, truncated; `sqrt` stands for `Math.sqrt`. */
  function CircumscribedRadius(width: real, height: real, sqrt: real -> real): (r: real)
    ensures 0.0 <= sqrt(width * width + height * height) ==>
      0.0 <= r && r <= sqrt(width * width + height * height) * 0.5 < r + 1.0 && r == r.Floor as real
  {
    Truncate(sqrt(width * width + height * height) * 0.5) as real
  }

  function ModeRadius(mode: RadiusMode, width: real, height: real, sqrt: real -> real): real {
    match mode
    case Inscribed => InscribedRadius(width, height)
    case Circumscribed => CircumscribedRadius(width, height, sqrt)
  }

  /**
   * What the collision functions read from a collider: its type, the top-left
   * corner and size (`left = x`, `right = x + width`, ...), its radius and its
   * bounding circle.
   */
  datatype Body = Body(kind: Option<Kind>, x: real, y: real, width: real, height: real, radius: real, circle: Circle) {

    /** The collider seen through its `left`, `top`, `right` and `bottom` getters. */
    function ToRect(): (r: Rect)
      ensures r.left == x && r.top == y && r.right == x + width && r.bottom == y + height
    {
      Rect(x, y, x + width, y + height)
    }

    function Position(): Vec {
      Vec(x, y)
    }
  }

  /** The box `update()` derives: the translation as corner, the scaled bounds as size. */
  function LayoutBox(bounds: Size, matrix: Matrix): (b: Box)
    ensures b.Left() == matrix.tx && b.Top() == matrix.ty
    ensures b.Right() == matrix.tx + matrix.a * bounds.width && b.Bottom() == matrix.ty + matrix.d * bounds.height
  {
    Box(matrix.tx, matrix.ty, matrix.a * bounds.width, matrix.d * bounds.height)
  }

  /** The circle `update()` derives from a box: centred on the box, with the given radius. */
  function CircleAround(box: Box, radius: real): (c: Circle)
    ensures c.radius == radius
    ensures 2.0 * c.x == box.Left() + box.Right() && 2.0 * c.y == box.Top() + box.Bottom()
  {
    Circle(box.x + box.width * 0.5, box.y + box.height * 0.5, radius)
  }

  /** The centre of a box with non-negative size lies in the box, and the circle's square shares that centre. */
  lemma CircleCentredInBox(box: Box, radius: real)
    requires box.width >= 0.0 && box.height >= 0.0
    ensures box.ToRect().Contains(CircleAround(box, radius).Center())
    ensures var s := CircleAround(box, radius).ToRect();
      s.left + s.right == box.Left() + box.Right() && s.top + s.bottom == box.Top() + box.Bottom()
  {
  }

  /** A square box gets an inscribed circle that touches its sides (up to the truncation of the radius). */
  lemma InscribedCircleFitsSquare(box: Box)
    requires box.width == box.height && box.width >= 0.0
    ensures var c := CircleAround(box, InscribedRadius(box.width, box.height));
      c.ToRect().Within(box.ToRect()) && box.Right() - c.Right() < 1.0
  {
  }

  class Collider {
    /** `null` for a plain `Collider`; the subclass constructors set their kind. */
    var kind: Option<Kind>
    const displayObject: DisplayObject
    var bounds: Size
    var matrix: Matrix
    var x: real
    var y: real
    var width: real
    var height: real
    var radius: real
    /** The owned `BoundingBox` and `BoundingCircle`, refreshed by every `update()`. */
    var box: Box
    var circle: Circle
    /** Written by `collidedCircleRect` on its circle argument. */
    var region: Option<Region>
    var circlesRect: Option<Rect>
    /** Written by `collidedAlpha`; `None` stands for both `undefined` and `null`. */
    var collisionPoint: Option<Point>
    var alphaTestBounds: Option<Box>
    var overlapImageData: Option<seq<int>>

    /** The box mirrors the collider's corner and size; the circle is centred on the box. */
    ghost predicate Valid()
      reads this`box, this`circle, this`x, this`y, this`width, this`height, this`radius
    {
      box == Box(x, y, width, height) && circle == CircleAround(box, radius)
    }

    function Left(): real
      reads this`x
    {
      x
    }

    function Top(): real
      reads this`y
    {
      y
    }

    function Right(): real
      reads this`x, this`width
    {
      x + width
    }

    function Bottom(): real
      reads this`y, this`height
    {
      y + height
    }

    /** The values the collision functions read. */
    function View(): (b: Body)
      reads this`kind, this`x, this`y, this`width, this`height, this`radius, this`circle
      ensures b.ToRect() == Rect(Left(), Top(), Right(), Bottom())
    {
      Body.Body(kind, x, y, width, height, radius, circle)
    }

    /**
     * `constructor(displayObject)` followed by the subclass's type assignment:
     * installs the back link, re-binds `getRadius` to this collider and runs `update()`.
     */
    constructor (displayObject: DisplayObject, kind: Option<Kind>, mode: RadiusMode, binding: RadiusBinding)
      modifies displayObject`collider, binding`target, binding`mode
      ensures this.displayObject == displayObject && displayObject.collider == this
      ensures binding.target == this && binding.mode == mode
      ensures this.kind == kind && Valid()
      ensures bounds == displayObject.bounds && matrix == displayObject.matrix
      ensures box == LayoutBox(bounds, matrix)
      ensures radius == ModeRadius(mode, width, height, binding.sqrt)
      ensures region.None? && circlesRect.None? && collisionPoint.None?
      ensures alphaTestBounds.None? && overlapImageData.None?
    {
      this.kind := None;
      this.displayObject := displayObject;
      box := Box(0.0, 0.0, 0.0, 0.0);
      circle := Circle(0.0, 0.0, 0.0);
      bounds := Size(0.0, 0.0);
      matrix := Matrix(1.0, 1.0, 0.0, 0.0);
      x, y, width, height, radius := 0.0, 0.0, 0.0, 0.0, 0.0;
      region, circlesRect := None, None;
      collisionPoint, alphaTestBounds, overlapImageData := None, None, None;
      new;
      displayObject.collider := this;
      binding.target := this;
      binding.mode := mode;
      Update(binding);
      this.kind := kind;
    }

    /**
     * `update()`: re-reads bounds and transform, then recomputes corner, size,
     * radius, box and circle. The radius is that of whichever collider
     * `getRadius` is bound to, read after this collider's size is stored.
     */
    method Update(binding: RadiusBinding)
      requires binding.target != null
      modifies this`bounds, this`matrix, this`box, this`x, this`y, this`width, this`height, this`radius, this`circle
      ensures bounds == displayObject.bounds && matrix == displayObject.matrix
      ensures box == LayoutBox(bounds, matrix) && Valid()
      ensures radius == binding.Radius()
      ensures binding.target == this ==> radius == ModeRadius(binding.mode, width, height, binding.sqrt)
      ensures kind == old(kind) && region == old(region) && circlesRect == old(circlesRect)
      ensures collisionPoint == old(collisionPoint) && alphaTestBounds == old(alphaTestBounds)
      ensures overlapImageData == old(overlapImageData)
    {
      Relayout();
      // `getRadius` reads the bound collider's size after this one's is stored.
      radius := binding.Radius();
      circle := CircleAround(box, radius);
    }

    /** The first half of `update()`: bounds, transform, box, corner and size. */
    method Relayout()
      modifies this`bounds, this`matrix, this`box, this`x, this`y, this`width, this`height
      ensures bounds == displayObject.bounds && matrix == displayObject.matrix
      ensures box == LayoutBox(bounds, matrix) && box == Box(x, y, width, height)
    {
      var b := LayoutBox(displayObject.bounds, displayObject.matrix);
      bounds, matrix, box, x, y, width, height := displayObject.bounds, displayObject.matrix, b, b.x, b.y, b.width, b.height;
    }
  }

  /**
   * The module-level `getRadius`: one of the two radius functions, bound to the
   * most recently constructed collider. `sqrt` is the host's `Math.sqrt`.
   */
  class RadiusBinding {
    var target: Collider?
    var mode: RadiusMode
    const sqrt: real -> real

    constructor (sqrt: real -> real)
      ensures target == null && mode == Inscribed && this.sqrt == sqrt
    {
      target := null;
      mode := Inscribed;
      this.sqrt := sqrt;
    }

    /** What `getRadius()` returns now: computed from the bound collider's current size. */
    function Radius(): real
      requires target != null
      reads this, target`width, target`height
    {
      ModeRadius(mode, target.width, target.height, sqrt)
    }
  }
}
