/**
 * The display-object collaborator (an EaselJS DisplayObject) reduced to the data
 * the colliders read from it: position, registration point, local bounds and the
 * scale and translation of its concatenated matrix.
 */
module Display {

  /** The `width` and `height` of `getBounds()`. */
  datatype Size = Size(width: real, height: real)

  /** The entries of `getConcatenatedMatrix()` that the colliders read: scales `a`, `d` and translation `tx`, `ty`. */
  datatype Matrix = Matrix(a: real, d: real, tx: real, ty: real)

  class DisplayObject {
    var x: real
    var y: real
    var regX: real
    var regY: real
    var bounds: Size
    var matrix: Matrix
    /** The back link `__c2dCollider` that a core collider installs on construction. */
    var collider: object?

    constructor (x: real, y: real, regX: real, regY: real, bounds: Size, matrix: Matrix)
      ensures this.x == x && this.y == y && this.regX == regX && this.regY == regY
      ensures this.bounds == bounds && this.matrix == matrix && collider == null
    {
      this.x, this.y := x, y;
      this.regX, this.regY := regX, regY;
      this.bounds, this.matrix := bounds, matrix;
      collider := null;
    }
  }
}
