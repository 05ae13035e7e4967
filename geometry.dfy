/**
 * Value types shared by both implementations: the edge record every overlap test
 * reads, the bounding box and bounding circle records, points and the Voronoi
 * regions of a rectangle.
 */
module Geometry {

  /** A position with `x` and `y`: a point under test or the centre handed to a circle test. */
  datatype Vec = Vec(x: real, y: real)

  /** A pixel position in an overlap region (the collision point of the alpha test). */
  datatype Point = Point(x: int, y: int)

  /**
   * Anything with `left`, `top`, `right` and `bottom`: the only fields that the
   * rectangle tests read, so colliders, bounding boxes and plain edge records all fit.
   */
  datatype Rect = Rect(left: real, top: real, right: real, bottom: real) {

    /** Non-negative extent on both axes. */
    predicate WellFormed() {
      left <= right && top <= bottom
    }

    /** `p` lies in the closed rectangle. */
    predicate Contains(p: Vec) {
      left <= p.x <= right && top <= p.y <= bottom
    }

    /** `p` lies in the open rectangle. */
    predicate Interior(p: Vec) {
      left < p.x < right && top < p.y < bottom
    }

    /** This rectangle lies inside `outer`. */
    predicate Within(outer: Rect) {
      outer.left <= left && right <= outer.right && outer.top <= top && bottom <= outer.bottom
    }
  }

  /** A bounding box: top-left corner and size. */
  datatype Box = Box(x: real, y: real, width: real, height: real) {

    function Left(): real { x }

    function Top(): real { y }

    function Right(): real { x + width }

    function Bottom(): real { y + height }

    /** The box seen through its edge getters. */
    function ToRect(): (r: Rect)
      ensures r.left == x && r.top == y
      ensures r.right - r.left == width && r.bottom - r.top == height
      ensures width >= 0.0 && height >= 0.0 ==> r.WellFormed()
    {
      Rect(Left(), Top(), Right(), Bottom())
    }
  }

  /** A bounding circle: centre and radius; its edges are those of the circumscribing square. */
  datatype Circle = Circle(x: real, y: real, radius: real) {

    function Center(): Vec { Vec(x, y) }

    function Left(): real { x - radius }

    function Top(): real { y - radius }

    function Right(): real { x + radius }

    function Bottom(): real { y + radius }

    /** The circumscribing square, centred on the circle, with side `2 * radius`. */
    function ToRect(): (r: Rect)
      ensures r.right - r.left == 2.0 * radius && r.bottom - r.top == 2.0 * radius
      ensures (r.left + r.right) / 2.0 == x && (r.top + r.bottom) / 2.0 == y
      ensures radius >= 0.0 ==> r.WellFormed() && r.Contains(Center())
    {
      Rect(Left(), Top(), Right(), Bottom())
    }
  }

  /** The Voronoi regions of a rectangle, plus the sentinel the classifier starts from. */
  datatype Region =
    | TopLeft | TopCenter | TopRight
    | LeftCenter | RightCenter
    | BottomLeft | BottomCenter | BottomRight
    | Unknown
  {
    /** The four edge regions, which are resolved by a box test. */
    predicate IsCentral() {
      TopCenter? || BottomCenter? || LeftCenter? || RightCenter?
    }

    /** The four corner regions, which are resolved by a vertex-in-circle test. */
    predicate IsCorner() {
      TopLeft? || TopRight? || BottomLeft? || BottomRight?
    }
  }
}
