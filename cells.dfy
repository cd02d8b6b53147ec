/**
 * The grid `detect_collisions_system` files its colliders in, and what the
 * bounding box of a circle has to do with it.
 */
module Cells {
  import opened Geometry
  import opened Collision

  /** `chunk_size` of the grid the system builds. */
  const ChunkSize: real := 64.0

  /** The cell a point lies in. */
  function CellOf(p: Vec): Cell {
    ((p.x / ChunkSize).Floor, (p.y / ChunkSize).Floor)
  }

  /** A box is filed under the cell of each of its points. */
  lemma {:induction false} PointCell(b: Box, p: Vec)
    requires Contains(b, p)
    ensures InRange(CellOf(p), b, ChunkSize)
  {
    DivMonotone(b.tl.x, p.x, ChunkSize);
    DivMonotone(p.x, b.br.x, ChunkSize);
    DivMonotone(b.tl.y, p.y, ChunkSize);
    DivMonotone(p.y, b.br.y, ChunkSize);
  }

  /** Two circles that touch have bounding boxes (half-extent the radius)
      that share a cell: the corner of the overlap of the two boxes. */
  lemma {:induction false} CircleBoundsShareCell(c1: Circle, c2: Circle) returns (c: Cell)
    requires LengthSquared(Sub(c1.center, c2.center)) <= Mul(c1.radius + c2.radius, c1.radius + c2.radius)
    ensures InRange(c, CircleBounds(c1), ChunkSize) && InRange(c, CircleBounds(c2), ChunkSize)
  {
    var d := Sub(c1.center, c2.center);
    var r := c1.radius + c2.radius;
    SquareSign(d.x);
    SquareSign(d.y);
    WithinBySquares(d.x, r);
    WithinBySquares(d.y, r);
    var p := Vec(Max(c1.center.x - c1.radius, c2.center.x - c2.radius), Max(c1.center.y - c1.radius, c2.center.y - c2.radius));
    assert Contains(CircleBounds(c1), p) && Contains(CircleBounds(c2), p);
    PointCell(CircleBounds(c1), p);
    PointCell(CircleBounds(c2), p);
    c := CellOf(p);
  }

  /** Two circles 131 apart, with radii 64 and 70: they overlap by 3. */
  const Left: Circle := Round(Vec(32.0, 0.0), 64.0)
  const Right: Circle := Round(Vec(163.0, 0.0), 70.0)

  lemma {:induction false} LeftBoxEnds()
    ensures CircleBox(Left).br.x == 64.0
  {
  }

  lemma {:induction false} RightBoxStarts()
    ensures CircleBox(Right).tl.x == 128.0
  {
  }

  /** A box ending at x = 64 and a box starting at x = 128 share no cell. */
  lemma {:induction false} ColumnsApart(c: Cell, b1: Box, b2: Box)
    requires b1.br.x == 64.0 && b2.tl.x == 128.0
    ensures !(InRange(c, b1, ChunkSize) && InRange(c, b2, ChunkSize))
  {
  }

  lemma {:induction false} CentresApart()
    ensures Sub(Left.center, Right.center) == Vec(-131.0, 0.0)
  {
  }

  lemma {:induction false} SquaredDistance(v: Vec)
    requires v == Vec(-131.0, 0.0)
    ensures LengthSquared(v) == 17161.0
  {
  }

  /** Circles no further apart than the sum of their radii collide. */
  lemma {:induction false} TouchingCollide(c1: Circle, c2: Circle, root: Sqrt)
    requires RootAt(root, LengthSquared(Sub(c1.center, c2.center)))
    requires LengthSquared(Sub(c1.center, c2.center)) <= Mul(c1.radius + c2.radius, c1.radius + c2.radius)
    ensures CollideCircles(c1, c2, root).Some?
  {
    CirclesApartBySquares(c1, c2, root);
  }

  /** `Left` and `Right` touch: `collide_circles` pushes them apart. */
  lemma {:induction false} LeftRightTouch(root: Sqrt)
    requires RootAt(root, 17161.0)
    ensures CollideCircles(Left, Right, root).Some?
  {
    CentresApart();
    SquaredDistance(Sub(Left.center, Right.center));
    RadiiSum();
    TouchingCollide(Left, Right, root);
  }

  /** `Left` and `Right` are no further apart than the sum of their radii. */
  lemma {:induction false} LeftRightClose()
    ensures LengthSquared(Sub(Left.center, Right.center)) <= Mul(Left.radius + Right.radius, Left.radius + Right.radius)
  {
    CentresApart();
    SquaredDistance(Sub(Left.center, Right.center));
    RadiiSum();
  }

  /** `collide_shapes` pushes apart two circles within the sum of their
      radii. */
  lemma {:induction false} TouchingShapesCollide(c1: Circle, c2: Circle, root: Sqrt)
    requires RootAt(root, LengthSquared(Sub(c1.center, c2.center)))
    requires LengthSquared(Sub(c1.center, c2.center)) <= Mul(c1.radius + c2.radius, c1.radius + c2.radius)
    ensures CollideShapes(CircleShape(c1), CircleShape(c2), root).Some?
  {
    TouchingCollide(c1, c2, root);
  }

  lemma {:induction false} RadiiSum()
    ensures Mul(Left.radius + Right.radius, Left.radius + Right.radius) == 17956.0
  {
  }

  /** With `Circle.bbox` as written (half-extent radius/2) the touching
      circles `Left` and `Right` are filed in cells that do not meet, so
      their pair is never tested. */
  lemma {:induction false} CircleBoxMissesContact(c: Cell)
    ensures !(InRange(c, CircleBox(Left), ChunkSize) && InRange(c, CircleBox(Right), ChunkSize))
  {
    LeftBoxEnds();
    RightBoxStarts();
    ColumnsApart(c, CircleBox(Left), CircleBox(Right));
  }
}
