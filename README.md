# Collision2D in Dafny

A model of Collision2D, a 2D collision-detection library for HTML5 games, and
proofs about it. A game gives each display object a *collider*. The library then
answers whether two colliders touch. It has four kinds of test:

- a box test on axis-aligned rectangles;
- a circle test on summed radii;
- a circle-against-box test that places the circle in one of the eight Voronoi
  regions around the rectangle;
- a pixel-perfect ("alpha") test that scans the alpha channel of both colliders'
  RGBA renderings over the area where they overlap.

The repository contains two implementations, and each has its own modules here:

- **The modular engine** (`src/core/*`):
  - `Geometry`, `CoreMath`, `BoxCollision`, `CircleCollision` and
    `BoxCircleCollision` hold the records and the tests.
  - `CoreCollider` holds the collider class. Its `Update` re-reads the display
    object's bounds and transform.
  - `AlphaCollision` holds the pixel test, with its lookup tables.
  - `Collision` holds the table-driven `collided` dispatcher.
  - `ColliderTypes` and `ObjectLiteral` describe how the source's lookup tables
    are keyed and built. A JavaScript object literal keeps the last value of a
    repeated key. Each table's key is a template literal over `ColliderType`
    objects, and that literal is always `"[object Object]"`. Every table
    therefore collapses to a single entry.
- **The single-file build** (`src/Collision2D.js`), in module `Collision2D`:
  - its `Collider` class, with constructor validation and live position getters;
  - its non-strict `intersection`;
  - its circle, alpha and circle-against-box tests;
  - its if-chain `collided`.

  Where its code is the same as the modular engine's (`collidedBox`,
  `pointInsideCircle`, region classification), this module reuses those
  definitions.

Coordinates are `real`. Pixel buffers are `seq<int>`. The canvas is a function
parameter (`Sampler`), and so is `Math.sqrt`. A `null` collider type is
`Option.None`. An `undefined` field is `None`.

## Model

| member | source | states |
|---|---|---|
| Geometry.Box.ToRect | src/core/BoundingBox.js:46-64 | `left = x`, `top = y`, `right - left = width`, `bottom - top = height`; a box of non-negative size has `left <= right` and `top <= bottom` |
| Geometry.Circle.ToRect | src/core/BoundingCircle.js:39-57 | the circumscribing square has side `2 * radius`; its midpoint is the centre; for `radius >= 0` it is well formed and contains the centre |
| CoreMath.Max | src/core/Math.js:14-15 | the result is at least both arguments and equals one of them |
| CoreMath.Min | src/core/Math.js:16-17 | the result is at most both arguments and equals one of them |
| CoreMath.OverlapRect | src/core/Math.js:14-17 | the overlap's edges are the larger left/top and the smaller right/bottom, so they lie inside both inputs |
| CoreMath.Intersection | src/core/Math.js:13-22 | `Some` exactly when `right > left` and `bottom > top`; the box's edges are the overlap; its width and height are positive; it lies within both inputs |
| CoreMath.Intersects | src/core/Math.js:30-32 | true exactly when some point lies strictly inside both rectangles |
| CoreMath.IntersectionCommutes | src/core/Math.js:14-17 | `intersection(a, b) == intersection(b, a)` |
| CoreMath.IntersectionIsCommonRegion | src/core/Math.js:13-22 | a point lies in the intersection exactly when it lies in both rectangles |
| CoreMath.IntersectionIsCommonInterior | src/core/Math.js:18-21 | the intersection is non-null exactly when the two open rectangles share a point |
| CoreMath.TouchingRectanglesDoNotIntersect | src/core/Math.js:18-21 | rectangles that only share an edge give `null` |
| CoreMath.PointInsideCircle | src/core/Math.js:43-48 | true exactly when `dx² + dy² < radius²`; the `Math.abs` changes nothing (`pointInsideCircle` in src/Collision2D.js is the same expression) |
| CoreMath.CenterInsideIffRadiusNonZero | src/core/Math.js:43-48 | the centre is inside its own circle exactly when the radius is not zero |
| CoreMath.PointInsideCircleSymmetric | src/core/Math.js:43-48 | swapping the point and the centre keeps the answer |
| CoreMath.MathFixtures | test/core/Math.spec.js:8-46 | the test suite's expected values for `intersection`, `intersects` and `pointInsideCircle` hold on its boxes, written by their edges |
| CoreMath.SeparatedRectanglesDoNotIntersect | src/core/Math.js:13-22 | a rectangle that ends at or above the other's top gives `null` |
| CoreMath.OverlappingRectanglesIntersect | src/core/Math.js:13-22 | rectangles of positive size that overlap strictly on both axes give a box |
| BoxCollision.CollidedBox | src/core/BoxCollision.js:12-14 | true exactly when none of the four separations holds; edges that touch collide (`collidedBox` in src/Collision2D.js is the same expression) |
| BoxCollision.CollidedBoxIsSharedPoint | src/core/BoxCollision.js:13 | for well-formed rectangles, true exactly when the closed rectangles share a point |
| BoxCollision.CollidedBoxSymmetric | src/core/BoxCollision.js:13 | symmetric in `a` and `b` |
| BoxCollision.CollidedBoxReflexive | src/core/BoxCollision.js:13 | a well-formed rectangle collides with itself |
| BoxCollision.BoxFixtures | src/core/BoxCollision.js:12-14 | two overlapping 100 by 100 boxes collide; two separated ones do not |
| BoxCollision.EdgeContactCollides | src/core/BoxCollision.js:13 | `a.right == b.left` with vertical overlap collides |
| BoxCollision.IntersectionImpliesCollidedBox | src/core/BoxCollision.js:13 | a non-null `intersection` implies `collidedBox` |
| CircleCollision.CollidedCircle | src/core/CircleCollision.js:14-19 | true exactly when the boxes collide and the squared distance between the colliders' `x`/`y` (top-left corners) is below the squared radius sum |
| CircleCollision.CollidedCircleSymmetric | src/core/CircleCollision.js:15-18 | symmetric in `a` and `b` |
| CircleCollision.TangentCirclesDoNotCollide | src/core/CircleCollision.js:18 | at a distance equal to the radius sum the test is false |
| CircleCollision.ZeroRadiusSumNeverCollides | src/core/CircleCollision.js:18 | a radius sum of 0 is never a collision |
| CircleCollision.EqualSizesCornerDistanceIsCentreDistance | src/core/CircleCollision.js:18 | for colliders of the same size, the corners are as far apart as the circle centres |
| CircleCollision.SameSizeMatchesIntended | src/core/CircleCollision.js:14-19 | for colliders of the same size, the test is the box pre-check plus the centre-distance test |
| CircleCollision.CornersNotCentres | src/core/CircleCollision.js:18 | for colliders of different sizes, circles whose centres are close enough can still be reported apart |
| BoxCircleCollision.Classify | src/core/BoxCircleCollision.js:91-121 | never `UNKNOWN`; exactly one of edge or corner; TOP_* iff `y < top`; BOTTOM_* iff `y > bottom` and not above; the middle band includes `y == top` and `y == bottom`; LEFT_CENTER iff middle band and the split value `< rect.left`; the corners are refined by `x < left` and `x > right` |
| BoxCircleCollision.Corner | src/core/BoxCircleCollision.js:145-161 | the vertex that matches each corner region, and `(0, 0)` for every other region |
| BoxCircleCollision.EdgeRegionBoxHit | src/core/BoxCircleCollision.js:132-143 | in an edge region, a box hit of the circle's square returns true |
| BoxCircleCollision.CornerRegionIsVertexTest | src/core/BoxCircleCollision.js:149-165 | in a corner region, the answer is whether that vertex lies inside the bounding circle |
| BoxCircleCollision.EdgeMissTestsOrigin | src/core/BoxCircleCollision.js:139-165 | in an edge region with a box miss, the answer is whether the origin lies inside the circle |
| BoxCircleCollision.MiddleSplitIrrelevant | src/core/BoxCircleCollision.js:114-121 | the middle-band left/right choice never changes the answer |
| BoxCircleCollision.ResolveAddsOriginCase | src/core/BoxCircleCollision.js:132-165 | the code's answer is the intended one, or else the origin test after an edge-region miss |
| BoxCircleCollision.IntendedIsDistanceToRect | src/core/BoxCircleCollision.js:90-166 | the intended answer compares the distance from the centre to the closest point of the rectangle with the radius (closed for edges, open for corners) |
| BoxCircleCollision.FarCircleReportedByOriginTest | src/core/BoxCircleCollision.js:139-165 | a circle far from the box but around the origin is reported as colliding |
| BoxCircleCollision.CollidedCircleRect | src/core/BoxCircleCollision.js:90-166 | writes `circle.region` (the bounding-circle centre's region, split on the collider's `right`) and `circle.circlesRect` (the circle's square), touches nothing else, and returns the region analysis |
| BoxCircleCollision.CollidedRectCircle | src/core/BoxCircleCollision.js:174-176 | the same test as `collidedCircleRect(circle, rect)` |
| CoreCollider.Truncate | src/core/Collider.js:28 | `| 0` on a finite value: the whole part, toward zero |
| CoreCollider.InscribedRadius | src/core/Collider.js:27-29 | for a non-negative size: a whole number at most half the larger side and within 1 of it |
| CoreCollider.CircumscribedRadius | src/core/Collider.js:31-33 | when the square root is non-negative: a non-negative whole number at most half the diagonal and within 1 of it |
| CoreCollider.LayoutBox | src/core/Collider.js:87-92 | corner is the translation `tx, ty`; right and bottom are the corner plus the scaled bounds |
| CoreCollider.CircleAround | src/core/Collider.js:100-102 | the circle has the collider's radius and is centred on the box |
| CoreCollider.CircleCentredInBox | src/core/Collider.js:100-102 | the centre lies in the box, and the circle's square has the box's midpoint |
| CoreCollider.InscribedCircleFitsSquare | src/core/Collider.js:27-29 | for a square box, the inscribed circle's square fits inside the box, less than 1 short of its side |
| CoreCollider.Body.ToRect | src/core/Collider.js:112-115 | `left = x`, `top = y`, `right = x + width`, `bottom = y + height` |
| CoreCollider.Collider.View | src/core/Collider.js:108-121 | the getters the tests read; the edges are `x`, `y`, `x + width` and `y + height` |
| CoreCollider.Collider.constructor | src/core/Collider.js:68-82 | links the display object to the collider, binds the shared radius function to the new collider in the current mode, runs `update()`, then sets the type (`None` for the base class) |
| CoreCollider.Collider.Update | src/core/Collider.js:84-103 | bounds and transform are re-read, and the box, corner, size and centred circle are recomputed. The radius is the shared radius function's value: the current size of the collider it is bound to, in the bound mode, which is this collider's own new size when it is bound to itself. Type and the result fields are unchanged, and no other field is written |
| ColliderTypes.KeyOf | src/core/ColliderTypes.js:5-10 | `${type}` is `"[object Object]"` for every collider type and `"null"` for none |
| ColliderTypes.TypedPairKeysCoincide | src/core/Collision.js:43 | every typed pair has one and the same key |
| ColliderTypes.UntypedPairKeyDiffers | src/core/Collision.js:43 | a pair with a `null` type has a key no typed pair has |
| ObjectLiteral.Build | src/core/Collision.js:20-30 | the object's keys are the entries' keys, and each key maps to the value of its last entry |
| ObjectLiteral.SameKeyKeepsLast | src/core/AlphaCollision.js:91-101 | entries that share one key leave one entry: the last |
| ObjectLiteral.DistinctKeysKeepAll | test/core/Collision.spec.js:28-44 | with distinct keys every entry survives |
| ColliderTypes.KindKeyedLookup | test/core/Collision.spec.js:28-44 | keyed by the pair of kinds, rows that name distinct pairs each keep their own value |
| AlphaCollision.PointOfCollision | src/core/AlphaCollision.js:13-18 | zero columns give `(0, 0)`; for `idx >= 0` and `cols > 0`, `0 <= x < cols` and `y = floor(idx / cols)` |
| AlphaCollision.PointOfCollisionDecomposes | src/core/AlphaCollision.js:13-18 | with a whole number of columns, `x = idx % cols` and `y = idx / cols`, so `y * cols + x == idx` |
| AlphaCollision.OpaqueMeansNonZero | src/core/AlphaCollision.js:24-27 | for a byte, `>= 0.3` means non-zero |
| AlphaCollision.FirstHit | src/core/AlphaCollision.js:25-31 | the first 4-byte stride below the length whose alpha bytes (offset `i + 3`) are opaque in both buffers; no earlier stride qualifies; `None` means no stride does |
| AlphaCollision.PixelTestFindsSharedOpaquePixel | src/core/AlphaCollision.js:20-33 | a point is found exactly when some stride is opaque in both buffers |
| AlphaCollision.TransparentNeverHits | src/core/AlphaCollision.js:32 | a fully transparent buffer gives `false` |
| AlphaCollision.TestPixels | src/core/AlphaCollision.js:20-33 | the loop returns the point decoded from the byte offset of the first stride that hits, or `false` |
| AlphaCollision.ByteOffsetLeavesOverlap | src/core/AlphaCollision.js:28 | the point is decoded from the byte offset: a 1 by 1 overlap reports row 3 |
| AlphaCollision.IntendedPointInsideOverlap | src/core/AlphaCollision.js:13-33 | decoded from the pixel number, the point lies inside a `width` by `height` overlap |
| AlphaCollision.IntersectionTableCollapses | src/core/AlphaCollision.js:91-101 | `intersectionMatrix` holds one key, mapped to plain `intersection` |
| AlphaCollision.IntendedTableFollowsRows | src/core/AlphaCollision.js:91-101 | keyed by the kinds, each pair gets its row's rule: circle squares for circle colliders |
| AlphaCollision.GetIntersection | src/core/AlphaCollision.js:103-105 | for every pair of typed colliders: the plain intersection of their own rectangles |
| AlphaCollision.CircleRowsNeverReached | src/core/AlphaCollision.js:87-105 | for any two circle colliders whose circle squares overlap but whose rectangles are stacked apart, the code finds no overlap while the intended rows find one |
| AlphaCollision.StackedCirclesOverlapOnlyAsCircles | src/core/AlphaCollision.js:87-105 | two 10 by 2 circle colliders of radius 5, at heights 0 and 4, are such a pair |
| AlphaCollision.IntersectionRowsDistinct | src/core/AlphaCollision.js:91-101 | no two rows of `intersectionMatrix` name the same pair of kinds |
| AlphaCollision.RendererTableCollapses | src/core/AlphaCollision.js:76-80 | `getPixelDataMatrix` holds one key, mapped to the alpha renderer |
| AlphaCollision.RendererFor | src/core/AlphaCollision.js:81-83 | every collider kind is rendered by the alpha renderer |
| AlphaCollision.LocalBounds | src/core/AlphaCollision.js:115-137 | the overlap moved by `-x, -y`, with the overlap's width and height |
| AlphaCollision.LocalBoundsInsideCollider | src/core/AlphaCollision.js:115-137 | the local rectangle has positive size and lies within `0..width` and `0..height` of its collider |
| AlphaCollision.Trace | src/core/AlphaCollision.js:107-155 | no overlap exactly when the intersection is null; otherwise the local bounds of both colliders and the pixel test over their samples |
| AlphaCollision.AlphaCollisionTest | src/core/AlphaCollision.js:107-155 | no overlap returns false before any write; otherwise both `alphaTestBounds` are set; `overlapImageData` is kept on a hit and deleted on a miss |
| AlphaCollision.CollidedAlpha | src/core/AlphaCollision.js:167-180 | a null argument gives false and no writes; otherwise both `collisionPoint`s end up equal to the result, and `alphaTestBounds`/`overlapImageData` are as `alphaCollisionTest` leaves them |
| Collision.CollisionTableCollapses | src/core/Collision.js:20-30 | `collisionMatrix` holds one key, mapped to `collidedAlpha` |
| Collision.KeyPresence | src/core/Collision.js:43-44 | a typed pair's key is present and names `collidedAlpha`; a key with a `null` side is missing |
| Collision.Selected | src/core/Collision.js:43-48 | typed pairs get `collidedAlpha`; a pair with a `null` type falls back to `collidedBox` |
| Collision.IntendedCollisionTableFollowsRows | test/core/Collision.spec.js:28-44 | keyed by the kinds, the rows give: any alpha side, the alpha test; box/box, the box test; circle/circle, the circle test; circle/box, `collidedCircleRect`; box/circle, `collidedRectCircle` |
| Collision.CollisionRowsDistinct | src/core/Collision.js:20-30 | no two rows of `collisionMatrix` name the same pair of kinds |
| Collision.SelectedMatchesIntentOnlyWithAlpha | src/core/Collision.js:20-30 | the selected test is the intended one exactly for pairs with an alpha side |
| Collision.FromAlpha | src/core/AlphaCollision.js:173-179 | the outcome is truthy exactly when a point was found |
| Collision.Dispatch | src/core/Collision.js:45 | the selected test runs on `(a, b)` in the original order, and its result is returned unchanged; the box and circle tests write nothing; the alpha test leaves both `collisionPoint`s equal to the result, the local rectangles and pixel buffers as its trace says, and the circle fields untouched; the circle-against-box tests record the circle collider's `region` and `circlesRect`, leave its other fields alone and leave a distinct rectangle collider unchanged |
| Collision.Collided | src/core/Collision.js:38-49 | `collided(a, a)` is false with no writes; a pair with a `null` type gets the box test with no writes; every other pair gets the alpha test, with both `collisionPoint`s set to its result, `alphaTestBounds`/`overlapImageData` as the test leaves them, and `region`/`circlesRect` untouched |
| Collision2D.ParseType | src/Collision2D.js:159-172 | an absent or empty type means `'box'`; `'box'`, `'circle'` and `'alpha'` are accepted; any other string throws |
| Collision2D.ParseTypeName | src/Collision2D.js:159-172 | each type name parses back to its kind |
| Collision2D.ChosenSize | src/Collision2D.js:174-191 | the requested width and height only when both are given; otherwise the bounds |
| Collision2D.HalfDiagonal | src/Collision2D.js:199 | a whole number at most half the diagonal and within 1 of it |
| Collision2D.ChosenRadius | src/Collision2D.js:193-203 | a supplied radius becomes the half diagonal; an omitted one stays undefined |
| Collision2D.SuppliedRadiusIgnored | src/Collision2D.js:193-203 | the supplied value never matters, and no radius gives none |
| Collision2D.IntendedRadiusKeepsSupplied | src/Collision2D.js:193-203 | the documented radius keeps a supplied value; the code agrees with it only when that value equals the half diagonal |
| Collision2D.Configure | src/Collision2D.js:138-203 | throws on a missing display object first, then on an unknown type; otherwise the pivot is the registration point, and size and radius follow the rules above |
| Collision2D.Create | src/Collision2D.js:138-217 | the error, or a fresh collider holding exactly the configured settings |
| Collision2D.Collider.constructor | src/Collision2D.js:138-217 | stores the display object and the settings |
| Collision2D.Collider.X | src/Collision2D.js:248-253 | a circle: display object `x + radius - pivotX`; otherwise `x - pivotX` |
| Collision2D.Collider.Y | src/Collision2D.js:259-264 | a circle: display object `y + radius - pivotY`; otherwise `y - pivotY` |
| Collision2D.Collider.View | src/Collision2D.js:288-306 | `left = x`, `top = y`, `right = x + width`, `bottom = y + height` |
| Collision2D.BoxCornerIsPivotOffset | src/Collision2D.js:248-264 | a box collider's corner is the display object's position minus the pivot |
| Collision2D.Intersection | src/Collision2D.js:327-336 | `Some` exactly when `right >= left` and `bottom >= top`; the edges are the overlap; the size is non-negative |
| Collision2D.Intersects | src/Collision2D.js:344-346 | true exactly when the closed rectangles share a point |
| Collision2D.CoreOverlapIsKept | src/Collision2D.js:332 | where the modular engine finds an overlap, this build finds the same one |
| Collision2D.TouchingRectanglesMeet | src/Collision2D.js:332 | touching rectangles give `null` in the modular engine and a zero-width box here |
| Collision2D.IntersectionIsCollidedBox | src/Collision2D.js:327-336 | for well-formed rectangles, a non-null intersection is the same as `collidedBox` |
| Collision2D.CollidedCircle | src/Collision2D.js:381-383 | true exactly when the squared distance between the colliders' `x`/`y` is below the squared radius sum; there is no pre-check |
| Collision2D.CollidedCircleSymmetric | src/Collision2D.js:381-383 | symmetric in `a` and `b` |
| Collision2D.CoreCircleAddsBoxCheck | src/Collision2D.js:381-383 | the modular engine's circle test is this one behind a box pre-check |
| Collision2D.ScanPixels | src/Collision2D.js:412-422 | true exactly when some stride has an alpha byte `!== 0` in both buffers; a byte past the end counts |
| Collision2D.MissingAlphaByteCountsAsVisible | src/Collision2D.js:418 | an `undefined` alpha byte past the end counts as visible |
| Collision2D.LocalBounds | src/Collision2D.js:408-409 | moved back by the collider's corner, the source rectangle is the overlap; it has the overlap's size |
| Collision2D.LocalBoundsInsideShape | src/Collision2D.js:402-409 | for colliders of non-negative size, both rectangles passed to `imgData` lie within `0..width` by `0..height` of their collider; their size is non-negative and may be zero |
| Collision2D.AlphaSecondGuardRedundant | src/Collision2D.js:396-405 | for colliders of non-negative size, the null-intersection guard never fires after the box test |
| Collision2D.CollidedAlpha | src/Collision2D.js:395-424 | false unless the boxes collide and the intersection is non-null; then the pixel scan of both samples |
| Collision2D.CollidedCircleRect | src/Collision2D.js:507-572 | the region is taken from the circle collider's `x`/`y` (its centre), with the middle band split on `x`; in a corner region the answer is whether that vertex lies strictly inside the circle of `radius`; in an edge region it is the box test on the collider's own rectangle, whose top-left is the centre, or else the point-in-circle test of the origin; `CircleRectAddsOriginCase` and `SplitOnXIsHarmless` relate it to the intended answer and to the modular engine |
| Collision2D.CircleRectAddsOriginCase | src/Collision2D.js:507-572 | the answer is the intended one, or else the origin test after an edge-region miss |
| Collision2D.SplitOnXIsHarmless | src/Collision2D.js:529-535 | splitting the middle band on `x` gives the same answer as splitting on the right edge |
| Collision2D.RouteIsIntendedTable | src/Collision2D.js:580-606 | the if-chain selects, for every pair, the test the modular engine's rows intend |
| Collision2D.Collided | src/Collision2D.js:580-606 | any alpha side gets the alpha test; box/box, the box test; circle/circle, the circle test; mixed pairs, the circle-against-box test with the circle first; a box collider of non-negative size collides with itself |

Helpers without a row, each specified through the rows that use it: `CoreCollider.ModeRadius` (src/core/Collider.js:22-33, through `CoreCollider.Collider.Update`), `BoxCircleCollision.Resolve`, `BoxCircleCollision.CircleRegion` and `BoxCircleCollision.CircleRectHit` (src/core/BoxCircleCollision.js:90-166, through `ResolveAddsOriginCase`, `IntendedIsDistanceToRect` and `BoxCircleCollision.CollidedCircleRect`), `Collision2D.AlphaHit` (src/Collision2D.js:395-423, through `Collision2D.CollidedAlpha` and `AlphaSecondGuardRedundant`), `Collision2D.Route` (src/Collision2D.js:580-605, through `RouteIsIntendedTable` and `Collision2D.Collided`), and the two-state predicates `AlphaCollision.TestRecorded`, `Collision.AlphaRecorded` and `Collision.RegionRecorded`.

## Left out

- Canvas and DOM sampling (`getPixelDataFrom*Collider`, per-collider canvases, `imgData`) is the `Sampler` parameter. It returns the RGBA bytes for a rectangle. What the renderers draw is not modelled, so neither is the fact that `getImageData` rejects a zero-sized rectangle.
- The EaselJS display object is reduced to position, registration point, bounds, and the scale and translation of its concatenated matrix. `getBounds`, `getConcatenatedMatrix` and `draw` are not modelled.
- `Math.sqrt` is a parameter `sqrt: real -> real`. No property of a square root is assumed.
- The global inscribed/circumscribed mode setters are not modelled as module state. The mode is an argument to the core collider's constructor and is stored in the shared `RadiusBinding`.
- `src/core/ColliderFactory.js` and the single-file `createBoxCollider`, `createCircleCollider` and `createAlphaCollider` are thin wrappers and are not part of this model. The single-file ones build a `Request` for `Collision2D.Create`.
- `ColliderType`'s symbol is not modelled. Only its text in a template literal matters, and that is `ColliderTypes.KeyOf`.
- JavaScript number corner cases are not modelled: `NaN`, infinities and the 32-bit wrap of `| 0`. Coordinates are exact reals.
- Collision2D.Collider.X: a circle collider built without a radius has an undefined radius, which makes its getters `NaN`. The model requires a radius for circle colliders (`Defined`, or `radius.Some?` on a `Shape`) and does not model `NaN` comparisons. The same requirement sits on `Collision2D.Collider.Y`, `Collision2D.Collider.View`, `Collision2D.CollidedCircle`, `Collision2D.CollidedCircleRect`, `Collision2D.CollidedAlpha` and `Collision2D.Collided`, and on the lemmas about them.
- Collision.Collided: its arguments are non-null colliders, as documented. In the source `collided(null, null)` returns `false` (the two are identical), and a `null` argument beside a collider throws a `TypeError` when its `type` is read; the model does not express `null` arguments here.
- CoreCollider.Collider.Update: the owned `BoundingBox` and `BoundingCircle` objects are value fields that `Update` reassigns. A caller holding the old object would see it change in place; the model does not capture that aliasing.
- AlphaCollision.AlphaCollisionTest: `getIntersection` and the renderer lookup throw for a collider whose type is `null`. The alpha members require typed colliders. `collided` never sends an untyped pair to the alpha test.
- AlphaCollision.CollidedAlpha: `null` and `undefined` results are both `None`. The model does not distinguish a deleted `overlapImageData` from one never set.
- Collision2D.ParseType: the type is modelled as an optional string. `!type` is also true for `null`, `0`, `false` and `NaN`, which all give `'box'`, and a truthy non-string such as `5` or `{}` throws; the model cannot express those values.
- The core collider's `type` field is named `kind`, because `type` is a keyword in Dafny.
- No executable scenario builds two colliders in a row. The shared-radius effect is stated by `CoreCollider.Collider.Update` for any binding target instead.

## Findings

| source | as written | input that shows it | evidently intended | confidence | as-written member | corrected member |
|---|---|---|---|---|---|---|
| src/core/Collision.js:20-30 | every key is `"[object Object]vs[object Object]"`, so every typed pair is sent to `collidedAlpha` | a box collider against a box collider | the table in the test suite: box/box gets `collidedBox`, and so on | high, not executed | Collision.Selected | Collision.IntendedCollisionTableFollowsRows |
| src/core/AlphaCollision.js:91-101 | every key collapses, so `getIntersection` always intersects the colliders' own rectangles | two circle colliders, 10 by 2, at heights 0 and 4, radius 5 (`AlphaCollision.StackedCirclesOverlapOnlyAsCircles`) | circle colliders use their circle squares | high, not executed | AlphaCollision.CircleRowsNeverReached | AlphaCollision.IntendedTableFollowsRows |
| src/core/AlphaCollision.js:28 | the hit point is decoded from the byte offset `i + 3` | a 1 by 1 overlap with an opaque pixel reports `(0, 3)` | decoded from the pixel number `i / 4`, inside the overlap | high, not executed | AlphaCollision.ByteOffsetLeavesOverlap | AlphaCollision.IntendedPointInsideOverlap |
| src/core/BoxCircleCollision.js:139-165 | an edge region whose box test misses falls through to a point-in-circle test of `(0, 0)` | a circle of radius 10 around (5, 5), and a box at (100, 0) | an edge-region miss is no collision | high, not executed | BoxCircleCollision.FarCircleReportedByOriginTest | BoxCircleCollision.IntendedIsDistanceToRect |
| src/core/CircleCollision.js:18 | the distance is taken between the colliders' top-left corners | a 100 by 10 collider of radius 50 at (0, 0), and a 10 by 10 collider of radius 5 at (90, 0) | the distance between the circle centres | medium, not executed | CircleCollision.CornersNotCentres | CircleCollision.SameSizeMatchesIntended |
| src/Collision2D.js:193-203 | a supplied radius is replaced by the half diagonal, and an omitted one stays undefined | `createCircleCollider` with radius 7, or without a radius | keep a supplied radius, and compute one when it is omitted | high, not executed | Collision2D.SuppliedRadiusIgnored | Collision2D.IntendedRadiusKeepsSupplied |
