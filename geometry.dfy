/**
 * Plane geometry of game/geometry.py: vectors, axis-aligned boxes whose corners
 * are normalised on construction, and circles with a non-negative radius.
 * Python floats are modelled as Dafny reals; the square root the source takes
 * from `math.sqrt` is a parameter of type `Sqrt`.
 */
module Geometry {
  import opened Wrappers

  datatype Vec = Vec(x: real, y: real)

  const Zero := Vec(0.0, 0.0)

  function Add(a: Vec, b: Vec): Vec {
    Vec(a.x + b.x, a.y + b.y)
  }

  function Sub(a: Vec, b: Vec): Vec {
    Vec(a.x - b.x, a.y - b.y)
  }

  function Scale(v: Vec, k: real): Vec {
    Vec(Mul(v.x, k), Mul(v.y, k))
  }

  function Neg(v: Vec): Vec {
    Vec(-v.x, -v.y)
  }

  /** Product of two reals. Squares are written `Mul(a, a)` so that the
      solver sees every square as the same term. */
  function Mul(a: real, b: real): real {
    a * b
  }

  /** `length_squared`: `x**2 + y**2`. */
  function LengthSquared(v: Vec): real {
    Mul(v.x, v.x) + Mul(v.y, v.y)
  }

  /** The square root `math.sqrt` provides; all the model relies on is that it
      is positive on positive arguments, so that `Normal` never divides by zero. */
  type Sqrt = f: real -> real | forall x: real :: PositiveAt(f, x)
    witness (x: real) => x

  /** `f` is positive at `x` if `x` is. */
  predicate PositiveAt(f: real -> real, x: real) {
    0.0 < x ==> 0.0 < f(x)
  }

  /** `root` agrees with the true square root at `x`. */
  predicate RootAt(root: Sqrt, x: real) {
    0.0 <= root(x) && Mul(root(x), root(x)) == x
  }

  /** `length`: `sqrt(x**2 + y**2)`. */
  function Length(v: Vec, root: Sqrt): real {
    root(LengthSquared(v))
  }

  lemma {:induction false} MulSign(a: real, b: real)
    ensures 0.0 < a && 0.0 < b ==> 0.0 < Mul(a, b)
    ensures a < 0.0 && b < 0.0 ==> 0.0 < Mul(a, b)
    ensures a == 0.0 ==> Mul(a, b) == 0.0
  {
  }

  lemma {:induction false} SquareSign(a: real)
    ensures 0.0 <= Mul(a, a)
    ensures 0.0 < Mul(a, a) <==> a != 0.0
  {
    MulSign(a, a);
  }

  /** `length_squared` is positive exactly on the non-zero vectors. */
  lemma {:induction false} LengthSquaredPositive(v: Vec)
    ensures 0.0 <= LengthSquared(v)
    ensures 0.0 < LengthSquared(v) <==> v != Zero
  {
    SquareSign(v.x);
    SquareSign(v.y);
  }

  lemma {:induction false} LengthSquaredNonZero(v: Vec)
    requires v != Zero
    ensures 0.0 < LengthSquared(v)
  {
    LengthSquaredPositive(v);
  }

  /** A non-zero vector has a positive length. */
  lemma {:induction false} LengthPositive(v: Vec, root: Sqrt)
    requires v != Zero
    ensures 0.0 < Length(v, root)
  {
    LengthSquaredNonZero(v);
    assert PositiveAt(root, LengthSquared(v));
  }

  /** Squaring is strictly monotone on the non-negative reals. */
  lemma {:induction false} SquareMonotone(a: real, b: real)
    requires 0.0 <= a <= b
    ensures Mul(a, a) <= Mul(b, b)
    ensures a < b ==> Mul(a, a) < Mul(b, b)
  {
    assert Mul(b, b) - Mul(a, a) == Mul(b - a, b + a);
    MulSign(b - a, b + a);
  }

  /** For non-negative `s` and `t`, comparing them is comparing their squares. */
  lemma {:induction false} CompareBySquares(s: real, t: real)
    requires 0.0 <= s && 0.0 <= t
    ensures s > t <==> Mul(s, s) > Mul(t, t)
  {
    if s > t {
      SquareMonotone(t, s);
    } else {
      SquareMonotone(s, t);
    }
  }

  /** Cross product; zero exactly when the vectors are parallel. */
  function Cross(a: Vec, b: Vec): real {
    Mul(a.x, b.y) - Mul(a.y, b.x)
  }

  /** Dot product; positive when the vectors point the same way. */
  function Dot(a: Vec, b: Vec): real {
    Mul(a.x, b.x) + Mul(a.y, b.y)
  }

  /** A positive multiple of a non-zero vector is parallel to it and points
      the same way. */
  lemma {:induction false} ScaleKeepsDirection(v: Vec, k: real)
    requires v != Zero && 0.0 < k
    ensures Cross(Scale(v, k), v) == 0.0
    ensures 0.0 < Dot(Scale(v, k), v)
  {
    assert Dot(Scale(v, k), v) == Mul(k, LengthSquared(v));
    LengthSquaredNonZero(v);
    MulSign(k, LengthSquared(v));
  }

  /** `Vec.normal`: the zero vector is returned as it is; any other vector is
      divided by its length. */
  function Normal(v: Vec, root: Sqrt): (r: Vec)
    ensures v == Zero ==> r == Zero
  {
    if v.x == 0.0 && v.y == 0.0 then
      v
    else
      LengthPositive(v, root);
      Scale(v, 1.0 / Length(v, root))
  }

  /** `normal` of a non-zero vector is parallel to it and points the same way. */
  lemma {:induction false} NormalKeepsDirection(v: Vec, root: Sqrt)
    requires v != Zero
    ensures Cross(Normal(v, root), v) == 0.0
    ensures 0.0 < Dot(Normal(v, root), v)
  {
    LengthPositive(v, root);
    ScaleKeepsDirection(v, 1.0 / Length(v, root));
  }

  /** With a true square root, `normal` of a non-zero vector has length one. */
  lemma {:induction false} NormalHasUnitLength(v: Vec, root: Sqrt)
    requires v != Zero
    requires RootAt(root, LengthSquared(v))
    ensures LengthSquared(Normal(v, root)) == 1.0
  {
    LengthPositive(v, root);
    var l := Length(v, root);
    var k := 1.0 / l;
    assert LengthSquared(Scale(v, k)) == Mul(Mul(k, k), LengthSquared(v));
    assert Mul(Mul(k, k), Mul(l, l)) == 1.0;
  }

  lemma {:induction false} AddNegCancels(a: Vec, v: Vec)
    ensures Add(Add(a, v), Neg(v)) == a
  {
  }

  // ---------------------------------------------------------------- Box

  /** Two corners, stored top-left and bottom-right. */
  datatype Corners = Corners(tl: Vec, br: Vec)

  /** A `Box`: its constructor always leaves `tl` componentwise below `br`. */
  type Box = b: Corners | b.tl.x <= b.br.x && b.tl.y <= b.br.y
    witness Corners(Zero, Zero)

  function Min(a: real, b: real): real {
    if a <= b then a else b
  }

  function Max(a: real, b: real): real {
    if a <= b then b else a
  }

  /** `Box(p1, p2)`: whatever the order of the arguments, `tl` is the
      componentwise minimum and `br` the componentwise maximum. */
  function MakeBox(p1: Vec, p2: Vec): (b: Box)
    ensures b.tl.x <= p1.x && b.tl.x <= p2.x && (b.tl.x == p1.x || b.tl.x == p2.x)
    ensures b.tl.y <= p1.y && b.tl.y <= p2.y && (b.tl.y == p1.y || b.tl.y == p2.y)
    ensures p1.x <= b.br.x && p2.x <= b.br.x && (b.br.x == p1.x || b.br.x == p2.x)
    ensures p1.y <= b.br.y && p2.y <= b.br.y && (b.br.y == p1.y || b.br.y == p2.y)
  {
    Corners(Vec(Min(p1.x, p2.x), Min(p1.y, p2.y)), Vec(Max(p1.x, p2.x), Max(p1.y, p2.y)))
  }

  lemma {:induction false} MakeBoxSymmetric(p1: Vec, p2: Vec)
    ensures MakeBox(p1, p2) == MakeBox(p2, p1)
  {
  }

  /** Rebuilding a box from its own corners gives the same box. */
  lemma {:induction false} MakeBoxOfCorners(b: Box)
    ensures MakeBox(b.tl, b.br) == b
  {
  }

  function TopRight(b: Box): Vec {
    Vec(b.br.x, b.tl.y)
  }

  function BottomLeft(b: Box): Vec {
    Vec(b.tl.x, b.br.y)
  }

  /** `corners()`, in the source's order: tl, br, tr, bl. */
  function CornerList(b: Box): (cs: seq<Vec>)
    ensures cs == [b.tl, b.br, Vec(b.br.x, b.tl.y), Vec(b.tl.x, b.br.y)]
  {
    [b.tl, b.br, TopRight(b), BottomLeft(b)]
  }

  function Center(b: Box): Vec {
    Scale(Add(b.tl, b.br), 0.5)
  }

  function Width(b: Box): (w: real)
    ensures 0.0 <= w
  {
    b.br.x - b.tl.x
  }

  function Height(b: Box): (h: real)
    ensures 0.0 <= h
  {
    b.br.y - b.tl.y
  }

  function Size(b: Box): (s: Vec)
    ensures s.x == Width(b) && s.y == Height(b)
    ensures 0.0 <= s.x && 0.0 <= s.y
  {
    Vec(Width(b), Height(b))
  }

  /** `shift(v)`: both corners move by `v`; the extent is unchanged. */
  function Shift(b: Box, v: Vec): (r: Box)
    ensures r.tl == Add(b.tl, v) && r.br == Add(b.br, v)
    ensures Width(r) == Width(b) && Height(r) == Height(b)
  {
    MakeBox(Add(b.tl, v), Add(b.br, v))
  }

  lemma {:induction false} ShiftBack(b: Box, v: Vec)
    ensures Shift(Shift(b, v), Neg(v)) == b
  {
    AddNegCancels(b.tl, v);
    AddNegCancels(b.br, v);
  }

  /** `contains`: inclusive on all four edges. */
  predicate Contains(b: Box, p: Vec) {
    b.tl.x <= p.x <= b.br.x && b.tl.y <= p.y <= b.br.y
  }

  lemma {:induction false} ContainsCornersAndCenter(b: Box)
    ensures forall i :: 0 <= i < 4 ==> Contains(b, CornerList(b)[i])
    ensures Contains(b, Center(b))
  {
  }

  // ---------------------------------------------------------------- Circle

  datatype Round = Round(center: Vec, radius: real)

  /** A `Circle`: `__post_init__` asserts the radius is not negative. */
  type Circle = c: Round | 0.0 <= c.radius witness Round(Zero, 0.0)

  /** Constructing a circle: `None` stands for the failing assertion. */
  function MakeCircle(center: Vec, radius: real): (r: Option<Circle>)
    ensures r.Some? <==> 0.0 <= radius
    ensures r.Some? ==> r.value.center == center && r.value.radius == radius
  {
    if 0.0 <= radius then Some(Round(center, radius)) else None
  }

  /** `Circle.shift`: moves the centre, keeps the radius. */
  function ShiftCircle(c: Circle, v: Vec): (r: Circle)
    ensures r.radius == c.radius
    ensures r.center == Add(c.center, v)
  {
    Round(Add(c.center, v), c.radius)
  }

  /** `Circle.bbox`: the box from `center - (radius/2, radius/2)` to
      `center + (radius/2, radius/2)`. */
  function CircleBox(c: Circle): Box {
    var delta := Vec(c.radius / 2.0, c.radius / 2.0);
    MakeBox(Sub(c.center, delta), Add(c.center, delta))
  }

  /** `Circle.bbox` is centred on the circle, with half-extent radius/2:
      only half the circle's extent. */
  lemma {:induction false} CircleBoxShape(c: Circle)
    ensures Center(CircleBox(c)) == c.center
    ensures Width(CircleBox(c)) == c.radius && Height(CircleBox(c)) == c.radius
  {
  }

  /** The box that bounds a circle: centred on it, with half-extent the
      radius. */
  function CircleBounds(c: Circle): Box {
    var delta := Vec(c.radius, c.radius);
    MakeBox(Sub(c.center, delta), Add(c.center, delta))
  }

  lemma {:induction false} CircleBoundsShape(c: Circle)
    ensures Center(CircleBounds(c)) == c.center
    ensures Width(CircleBounds(c)) == 2.0 * c.radius && Height(CircleBounds(c)) == 2.0 * c.radius
  {
  }

  /** A coordinate whose square is at most `r * r` lies within `r` of zero. */
  lemma {:induction false} WithinBySquares(d: real, r: real)
    requires 0.0 <= r && Mul(d, d) <= Mul(r, r)
    ensures -r <= d <= r
  {
    if d < -r {
      SquareMonotone(r, -d);
    } else if r < d {
      SquareMonotone(r, d);
    }
  }

  /** `CircleBounds` holds every point of the disc. */
  lemma {:induction false} CircleBoundsHoldDisc(c: Circle, p: Vec)
    requires LengthSquared(Sub(p, c.center)) <= Mul(c.radius, c.radius)
    ensures Contains(CircleBounds(c), p)
  {
    var d := Sub(p, c.center);
    SquareSign(d.x);
    SquareSign(d.y);
    WithinBySquares(d.x, c.radius);
    WithinBySquares(d.y, c.radius);
  }
}
