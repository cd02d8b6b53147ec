/**
 * Narrow phase (shape against shape) and broad phase (uniform grid grouper)
 * of game/collision.py.
 */
module Collision {
  import opened Wrappers
  import opened Geometry

  /** The shapes `collide_shapes` dispatches on. */
  datatype Shape = BoxShape(box: Box) | CircleShape(circle: Circle)

  /** Every push vector is scaled by this damping factor. */
  const Damping: real := 0.75

  /** `-push`, keeping `None` as it is. */
  function NegateOpt(o: Option<Vec>): (r: Option<Vec>)
    ensures r.None? <==> o.None?
    ensures o.Some? ==> r.value == Neg(o.value)
  {
    match o
    case None => None
    case Some(v) => Some(Neg(v))
  }

  // ------------------------------------------------------------ circles

  /** The miss test of `collide_circles`: the centres are further apart than
      the sum of the radii. */
  predicate CirclesApart(c1: Circle, c2: Circle, root: Sqrt) {
    Length(Sub(c1.center, c2.center), root) > c1.radius + c2.radius
  }

  /** The push `collide_circles` returns on a hit: along the centre line, by
      the damped overlap. */
  function CirclePush(delta: Vec, target: real, root: Sqrt): Vec {
    Scale(Scale(Normal(delta, root), target - Length(delta, root)), Damping)
  }

  /** `collide_circles`: no push exactly when the circles are apart. */
  function CollideCircles(c1: Circle, c2: Circle, root: Sqrt): (r: Option<Vec>)
    ensures r.None? <==> CirclesApart(c1, c2, root)
    ensures r.Some? ==> r.value == CirclePush(Sub(c1.center, c2.center), c1.radius + c2.radius, root)
  {
    if CirclesApart(c1, c2, root) then
      None
    else
      Some(CirclePush(Sub(c1.center, c2.center), c1.radius + c2.radius, root))
  }

  /** With a true square root the miss test is a comparison of squares, since
      both radii are non-negative. */
  lemma {:induction false} CirclesApartBySquares(c1: Circle, c2: Circle, root: Sqrt)
    requires RootAt(root, LengthSquared(Sub(c1.center, c2.center)))
    ensures CirclesApart(c1, c2, root) <==>
              LengthSquared(Sub(c1.center, c2.center)) > Mul(c1.radius + c2.radius, c1.radius + c2.radius)
  {
    var d := LengthSquared(Sub(c1.center, c2.center));
    CompareBySquares(root(d), c1.radius + c2.radius);
  }

  lemma {:induction false} MulNeg(a: real, b: real)
    ensures Mul(-a, -b) == Mul(a, b)
  {
  }

  lemma {:induction false} LengthSquaredNeg(v: Vec)
    ensures LengthSquared(Neg(v)) == LengthSquared(v)
  {
    MulNeg(v.x, v.x);
    MulNeg(v.y, v.y);
  }

  lemma {:induction false} MulNegLeft(a: real, b: real)
    ensures Mul(-a, b) == -Mul(a, b)
  {
  }

  lemma {:induction false} ScaleNeg(v: Vec, k: real)
    ensures Scale(Neg(v), k) == Neg(Scale(v, k))
  {
    MulNegLeft(v.x, k);
    MulNegLeft(v.y, k);
  }

  lemma {:induction false} LengthNeg(v: Vec, root: Sqrt)
    ensures Length(Neg(v), root) == Length(v, root)
  {
    LengthSquaredNeg(v);
  }

  lemma {:induction false} NormalNeg(v: Vec, root: Sqrt)
    ensures Normal(Neg(v), root) == Neg(Normal(v, root))
  {
    if v != Zero {
      LengthNeg(v, root);
      LengthPositive(v, root);
      var k := 1.0 / Length(v, root);
      assert Normal(v, root) == Scale(v, k);
      assert Normal(Neg(v), root) == Scale(Neg(v), k);
      ScaleNeg(v, k);
    }
  }

  lemma {:induction false} CirclePushNeg(delta: Vec, target: real, root: Sqrt)
    ensures CirclePush(Neg(delta), target, root) == Neg(CirclePush(delta, target, root))
  {
    var n := Normal(delta, root);
    var t := target - Length(delta, root);
    LengthNeg(delta, root);
    NormalNeg(delta, root);
    ScaleNeg(n, t);
    ScaleNeg(Scale(n, t), Damping);
  }

  /** Swapping the circles negates the push (and keeps `None`). */
  lemma {:induction false} CirclesAntisymmetric(c1: Circle, c2: Circle, root: Sqrt)
    ensures CollideCircles(c2, c1, root) == NegateOpt(CollideCircles(c1, c2, root))
  {
    var d := Sub(c1.center, c2.center);
    assert Sub(c2.center, c1.center) == Neg(d);
    assert CirclesApart(c2, c1, root) == CirclesApart(c1, c2, root) by {
      LengthNeg(d, root);
    }
    var t := c1.radius + c2.radius;
    assert c2.radius + c1.radius == t;
    if !CirclesApart(c1, c2, root) {
      CirclePushNeg(d, t, root);
      assert CollideCircles(c2, c1, root) == Some(CirclePush(Neg(d), t, root));
    }
  }

  // ------------------------------------------------------------ boxes

  /** `collide_boxes`: boxes never push each other. */
  function CollideBoxes(b1: Box, b2: Box): (r: Option<Vec>)
    ensures r.None?
  {
    None
  }

  // ------------------------------------------------------------ box against circle

  /** The vertical correction: applied when the circle's centre lies in the box
      widened vertically by the radius. */
  function VerticalPush(box: Box, circle: Circle): Vec {
    var dy := Vec(0.0, circle.radius);
    if Contains(MakeBox(Sub(box.tl, dy), Add(box.br, dy)), circle.center) then
      if circle.center.y < Center(box).y then
        Vec(0.0, circle.radius - (box.tl.y - circle.center.y))
      else
        Vec(0.0, -(circle.radius - (circle.center.y - box.br.y)))
    else
      Zero
  }

  /** The horizontal correction, symmetric to `VerticalPush`. */
  function HorizontalPush(box: Box, circle: Circle): Vec {
    var dx := Vec(circle.radius, 0.0);
    if Contains(MakeBox(Sub(box.tl, dx), Add(box.br, dx)), circle.center) then
      if circle.center.x < Center(box).x then
        Vec(circle.radius - (box.tl.x - circle.center.x), 0.0)
      else
        Vec(-(circle.radius - (circle.center.x - box.br.x)), 0.0)
    else
      Zero
  }

  /** The correction for one corner: a point circle at the centre tested
      against a circle of the same radius around the corner. */
  function CornerPush(corner: Vec, circle: Circle, root: Sqrt): Vec {
    var point := Round(circle.center, 0.0);
    if CollideCircles(point, Round(corner, circle.radius), root).Some? then
      var push := Sub(corner, circle.center);
      Scale(Normal(push, root), circle.radius - Length(push, root))
    else
      Zero
  }

  /** `total` after the corners `cs` have been added to `start`, in order. */
  function AddCornerPushes(start: Vec, cs: seq<Vec>, circle: Circle, root: Sqrt): Vec
    decreases |cs|
  {
    if cs == [] then start
    else Add(AddCornerPushes(start, cs[..|cs| - 1], circle, root), CornerPush(cs[|cs| - 1], circle, root))
  }

  /** The undamped sum of every correction `collide_box_circle` accumulates. */
  function BoxCircleTotal(box: Box, circle: Circle, root: Sqrt): Vec {
    var axes := Add(Add(Zero, VerticalPush(box, circle)), HorizontalPush(box, circle));
    AddCornerPushes(axes, CornerList(box), circle, root)
  }

  /** The final test of `collide_box_circle`: no push when the total is the
      zero vector, otherwise the damped total. */
  function Damped(total: Vec): (r: Option<Vec>)
    ensures r.None? <==> total == Zero
    ensures r.Some? ==> r.value == Scale(total, Damping)
  {
    LengthSquaredPositive(total);
    if LengthSquared(total) > 0.0 then Some(Scale(total, Damping)) else None
  }

  /** `collide_box_circle` as a value. */
  function BoxCircle(box: Box, circle: Circle, root: Sqrt): (r: Option<Vec>)
    ensures r.None? <==> BoxCircleTotal(box, circle, root) == Zero
    ensures r.Some? ==> r.value == Scale(BoxCircleTotal(box, circle, root), Damping)
  {
    Damped(BoxCircleTotal(box, circle, root))
  }

  /** The corner loop of `collide_box_circle`: adds each corner's correction
      to `start`, in order. */
  method AddCorners(start: Vec, corners: seq<Vec>, circle: Circle, root: Sqrt) returns (total: Vec)
    ensures total == AddCornerPushes(start, corners, circle, root)
  {
    total := start;
    for i := 0 to |corners|
      invariant total == AddCornerPushes(start, corners[..i], circle, root)
    {
      assert corners[..i + 1][..i] == corners[..i];
      total := Add(total, CornerPush(corners[i], circle, root));
    }
    assert corners[..|corners|] == corners;
  }

  /** `collide_box_circle`: the two axis corrections, then the corners, then
      the final test on the total. */
  method CollideBoxCircle(box: Box, circle: Circle, root: Sqrt) returns (r: Option<Vec>)
    ensures r == BoxCircle(box, circle, root)
  {
    var total := Zero;
    total := Add(total, VerticalPush(box, circle));
    total := Add(total, HorizontalPush(box, circle));
    total := AddCorners(total, CornerList(box), circle, root);
    if LengthSquared(total) > 0.0 {
      r := Some(Scale(total, Damping));
    } else {
      r := None;
    }
  }

  // ------------------------------------------------------------ dispatch

  /** `collide_shapes`: dispatch on the two shape kinds; a circle against a
      box is the negated box-against-circle push. */
  function CollideShapes(s1: Shape, s2: Shape, root: Sqrt): (r: Option<Vec>)
    ensures s1.CircleShape? && s2.CircleShape? ==> r == CollideCircles(s1.circle, s2.circle, root)
    ensures s1.BoxShape? && s2.CircleShape? ==> r == BoxCircle(s1.box, s2.circle, root)
    ensures s1.BoxShape? && s2.BoxShape? ==> r.None?
    ensures s1.CircleShape? && s2.BoxShape? ==> r == NegateOpt(BoxCircle(s2.box, s1.circle, root))
  {
    match (s1, s2)
    case (CircleShape(c1), CircleShape(c2)) => CollideCircles(c1, c2, root)
    case (CircleShape(c), BoxShape(b)) => NegateOpt(BoxCircle(b, c, root))
    case (BoxShape(b1), BoxShape(b2)) => CollideBoxes(b1, b2)
    case (BoxShape(b), CircleShape(c)) => BoxCircle(b, c, root)
  }

  lemma {:induction false} NegateTwice(o: Option<Vec>)
    ensures NegateOpt(NegateOpt(o)) == o
  {
  }

  /** Swapping the shapes negates the push, for every pair of shape kinds. */
  lemma {:induction false} CollideShapesAntisymmetric(s1: Shape, s2: Shape, root: Sqrt)
    ensures CollideShapes(s2, s1, root) == NegateOpt(CollideShapes(s1, s2, root))
  {
    match (s1, s2)
    case (CircleShape(c1), CircleShape(c2)) =>
      CirclesAntisymmetric(c1, c2, root);
    case (CircleShape(c), BoxShape(b)) =>
      NegateTwice(BoxCircle(b, c, root));
    case (BoxShape(b1), BoxShape(b2)) =>
    case (BoxShape(b), CircleShape(c)) =>
  }

  // ------------------------------------------------------------ broad phase

  /** A grid cell `(i, j)`: the key of a region. */
  type Cell = (int, int)

  /** `math.ceil`, from Dafny's floor. */
  function Ceil(x: real): (n: int)
    ensures x <= n as real < x + 1.0
  {
    -((-x).Floor)
  }

  lemma {:induction false} DivMonotone(a: real, b: real, c: real)
    requires a <= b && 0.0 < c
    ensures a / c <= b / c
  {
    var q := (b - a) / c;
    assert Mul(q, c) == b - a;
    if q < 0.0 {
      MulSign(-q, c);
    }
    assert b / c - a / c == q;
  }

  /** The cells `push` files a box under: every `(i, j)` between the floor of
      its top-left corner and the ceiling of its bottom-right corner, both
      divided by the chunk size, inclusive. */
  predicate InRange(c: Cell, b: Box, size: real)
    requires size != 0.0
  {
    (b.tl.x / size).Floor <= c.0 <= Ceil(b.br.x / size) &&
    (b.tl.y / size).Floor <= c.1 <= Ceil(b.br.y / size)
  }

  /** The first cell `push` visits. */
  function FirstCell(b: Box, size: real): (c: Cell)
    requires size != 0.0
  {
    ((b.tl.x / size).Floor, (b.tl.y / size).Floor)
  }

  /** With a positive chunk size every box is filed under at least one cell,
      the first one visited. */
  lemma {:induction false} FirstCellInRange(b: Box, size: real)
    requires 0.0 < size
    ensures InRange(FirstCell(b, size), b, size)
  {
    DivMonotone(b.tl.x, b.br.x, size);
    DivMonotone(b.tl.y, b.br.y, size);
  }

  /** The list under `c`, empty when there is none. */
  function Lookup<X>(m: map<Cell, seq<X>>, c: Cell): seq<X> {
    if c in m then m[c] else []
  }

  /** How a grid's regions relate to the items pushed into it: `cells` lists
      the keys of `regions` once each, no region is empty, and each entry of a
      region is the pushed item its stamp names, stamps increasing along the
      region. */
  ghost predicate Filing<T>(cells: seq<Cell>, regions: map<Cell, seq<T>>, pushed: seq<T>, stamps: map<Cell, seq<int>>) {
    && (forall i, j :: 0 <= i < j < |cells| ==> cells[i] != cells[j])
    && (forall c :: c in regions <==> c in cells)
    && regions.Keys == stamps.Keys
    && (forall c :: c in regions ==> regions[c] != [] && |stamps[c]| == |regions[c]|)
    && (forall c, i :: c in regions && 0 <= i < |regions[c]| ==>
          0 <= stamps[c][i] < |pushed| && pushed[stamps[c][i]] == regions[c][i])
    && (forall c, i, j :: c in stamps && 0 <= i < j < |stamps[c]| ==> stamps[c][i] < stamps[c][j])
  }

  /** Appending stamp `n`, newer than every stamp of the cell, keeps the
      cell's stamps increasing. */
  lemma {:induction false} StampsAppend(stamps: map<Cell, seq<int>>, cell: Cell, n: int)
    requires forall c, i, j :: c in stamps && 0 <= i < j < |stamps[c]| ==> stamps[c][i] < stamps[c][j]
    requires forall k :: k in Lookup(stamps, cell) ==> k < n
    ensures var stamps' := stamps[cell := Lookup(stamps, cell) + [n]];
      forall c, i, j :: c in stamps' && 0 <= i < j < |stamps'[c]| ==> stamps'[c][i] < stamps'[c][j]
  {
    var before := Lookup(stamps, cell);
    var stamps' := stamps[cell := before + [n]];
    forall c, i, j | c in stamps' && 0 <= i < j < |stamps'[c]|
      ensures stamps'[c][i] < stamps'[c][j]
    {
      if c == cell {
        assert stamps'[cell][i] == before[i];
        assert before[i] in before;
        if j < |before| {
          assert cell in stamps && before == stamps[cell];
          assert stamps'[cell][j] == before[j];
        }
      }
    }
  }

  /** Appending pushed item `n` under a cell, stamped `n`, keeps every entry
      the pushed item its stamp names. */
  lemma {:induction false} EntriesAppend<T>(regions: map<Cell, seq<T>>, pushed: seq<T>, stamps: map<Cell, seq<int>>,
                                           cell: Cell, n: int)
    requires regions.Keys == stamps.Keys
    requires forall c :: c in regions ==> |stamps[c]| == |regions[c]|
    requires forall c, i :: c in regions && 0 <= i < |regions[c]| ==>
      0 <= stamps[c][i] < |pushed| && pushed[stamps[c][i]] == regions[c][i]
    requires 0 <= n < |pushed|
    ensures var regions', stamps' := regions[cell := Lookup(regions, cell) + [pushed[n]]], stamps[cell := Lookup(stamps, cell) + [n]];
      forall c, i :: c in regions' && 0 <= i < |regions'[c]| ==>
        0 <= stamps'[c][i] < |pushed| && pushed[stamps'[c][i]] == regions'[c][i]
  {
    var regions', stamps' := regions[cell := Lookup(regions, cell) + [pushed[n]]], stamps[cell := Lookup(stamps, cell) + [n]];
    forall c, i | c in regions' && 0 <= i < |regions'[c]|
      ensures 0 <= stamps'[c][i] < |pushed| && pushed[stamps'[c][i]] == regions'[c][i]
    {
      if c != cell || i != |Lookup(regions, cell)| {
        assert stamps'[c][i] == stamps[c][i];
        assert regions'[c][i] == regions[c][i];
      }
    }
  }

  /** Appending pushed item `n` to a cell whose stamps are all older than
      `n` keeps the filing consistent. */
  lemma {:induction false} FilingAppend<T>(cells: seq<Cell>, regions: map<Cell, seq<T>>, pushed: seq<T>,
                                          stamps: map<Cell, seq<int>>, cell: Cell, item: T, n: int,
                                          cells': seq<Cell>, regions': map<Cell, seq<T>>, stamps': map<Cell, seq<int>>)
    requires Filing(cells, regions, pushed, stamps)
    requires 0 <= n < |pushed| && item == pushed[n]
    requires forall k :: k in Lookup(stamps, cell) ==> k < n
    requires cells' == if cell in regions then cells else cells + [cell]
    requires regions' == regions[cell := Lookup(regions, cell) + [item]]
    requires stamps' == stamps[cell := Lookup(stamps, cell) + [n]]
    ensures Filing(cells', regions', pushed, stamps')
  {
    StampsAppend(stamps, cell, n);
    EntriesAppend(regions, pushed, stamps, cell, n);
    assert forall c :: c in regions' <==> c in cells';
  }

  /** `c` lies in the block of cells from `lo` to `hi`, inclusive. */
  predicate InBlock(c: Cell, lo: Cell, hi: Cell) {
    lo.0 <= c.0 <= hi.0 && lo.1 <= c.1 <= hi.1
  }

  /** `after` is `before` with `x` appended to the list of every cell of the
      block from `lo` to `hi`, and nothing else changed. */
  ghost predicate AppendedIn<X>(before: map<Cell, seq<X>>, after: map<Cell, seq<X>>, x: X, lo: Cell, hi: Cell) {
    forall c :: Lookup(after, c) == if InBlock(c, lo, hi) then Lookup(before, c) + [x] else Lookup(before, c)
  }

  lemma {:induction false} AppendedInGrows<X>(m0: map<Cell, seq<X>>, m1: map<Cell, seq<X>>, m2: map<Cell, seq<X>>,
                                             x: X, i: int, ylo: int, done: int)
    requires ylo <= done + 1
    requires AppendedIn(m0, m1, x, (i, ylo), (i, done))
    requires m2 == m1[(i, done + 1) := Lookup(m1, (i, done + 1)) + [x]]
    ensures AppendedIn(m0, m2, x, (i, ylo), (i, done + 1))
  {
    forall c
      ensures Lookup(m2, c) == if InBlock(c, (i, ylo), (i, done + 1)) then Lookup(m0, c) + [x] else Lookup(m0, c)
    {
      assert Lookup(m1, c) == if InBlock(c, (i, ylo), (i, done)) then Lookup(m0, c) + [x] else Lookup(m0, c);
      if c != (i, done + 1) {
        assert Lookup(m2, c) == Lookup(m1, c);
      }
    }
  }

  lemma {:induction false} AppendedInWidens<X>(m0: map<Cell, seq<X>>, m1: map<Cell, seq<X>>, m2: map<Cell, seq<X>>,
                                              x: X, xlo: int, ylo: int, yhi: int, i: int)
    requires xlo <= i
    requires AppendedIn(m0, m1, x, (xlo, ylo), (i - 1, yhi))
    requires AppendedIn(m1, m2, x, (i, ylo), (i, yhi))
    ensures AppendedIn(m0, m2, x, (xlo, ylo), (i, yhi))
  {
    forall c
      ensures Lookup(m2, c) == if InBlock(c, (xlo, ylo), (i, yhi)) then Lookup(m0, c) + [x] else Lookup(m0, c)
    {
      assert Lookup(m1, c) == if InBlock(c, (xlo, ylo), (i - 1, yhi)) then Lookup(m0, c) + [x] else Lookup(m0, c);
      assert Lookup(m2, c) == if InBlock(c, (i, ylo), (i, yhi)) then Lookup(m1, c) + [x] else Lookup(m1, c);
    }
  }

  /** A grid `(cs, rs, ss)` is the grid `(c0, r0, s0)` with `item`, stamped
      `n`, filed under every cell of the block from `lo` to `hi`: exactly those
      lists grew by that item, and the cells listed before are listed first. */
  ghost predicate Grown<T>(c0: seq<Cell>, r0: map<Cell, seq<T>>, s0: map<Cell, seq<int>>,
                           cs: seq<Cell>, rs: map<Cell, seq<T>>, ss: map<Cell, seq<int>>,
                           item: T, n: int, lo: Cell, hi: Cell) {
    && AppendedIn(r0, rs, item, lo, hi)
    && AppendedIn(s0, ss, n, lo, hi)
    && |c0| <= |cs| && cs[..|c0|] == c0
  }

  /** Filing under an empty block changes nothing. */
  lemma {:induction false} GrownNothing<T>(c0: seq<Cell>, r0: map<Cell, seq<T>>, s0: map<Cell, seq<int>>,
                                          item: T, n: int, lo: Cell, hi: Cell)
    requires hi.0 < lo.0 || hi.1 < lo.1
    ensures Grown(c0, r0, s0, c0, r0, s0, item, n, lo, hi)
  {
    assert c0[..|c0|] == c0;
  }

  /** One step of the inner loop of `push`: with cells `(i, ylo)` to
      `(i, done)` filed, filing the item under the next cell of column `i`. */
  lemma {:induction false} GrownStep<T>(c0: seq<Cell>, r0: map<Cell, seq<T>>, s0: map<Cell, seq<int>>,
                                       cs: seq<Cell>, rs: map<Cell, seq<T>>, ss: map<Cell, seq<int>>,
                                       item: T, n: int, i: int, ylo: int, done: int)
    requires ylo <= done + 1
    requires Grown(c0, r0, s0, cs, rs, ss, item, n, (i, ylo), (i, done))
    ensures Lookup(ss, (i, done + 1)) == Lookup(s0, (i, done + 1))
    ensures Grown(c0, r0, s0, if (i, done + 1) in rs then cs else cs + [(i, done + 1)],
                  rs[(i, done + 1) := Lookup(rs, (i, done + 1)) + [item]],
                  ss[(i, done + 1) := Lookup(ss, (i, done + 1)) + [n]],
                  item, n, (i, ylo), (i, done + 1))
  {
    var cell := (i, done + 1);
    assert !InBlock(cell, (i, ylo), (i, done));
    var cs' := if cell in rs then cs else cs + [cell];
    var rs' := rs[cell := Lookup(rs, cell) + [item]];
    var ss' := ss[cell := Lookup(ss, cell) + [n]];
    AppendedInGrows(r0, rs, rs', item, i, ylo, done);
    AppendedInGrows(s0, ss, ss', n, i, ylo, done);
    assert cs'[..|c0|] == c0 by {
      if cell !in rs {
        assert cs'[..|cs|] == cs;
      }
    }
  }

  /** After a whole column `i`, the block filed so far is one column wider. */
  lemma {:induction false} GrownWidens<T>(c0: seq<Cell>, r0: map<Cell, seq<T>>, s0: map<Cell, seq<int>>,
                                         c1: seq<Cell>, r1: map<Cell, seq<T>>, s1: map<Cell, seq<int>>,
                                         c2: seq<Cell>, r2: map<Cell, seq<T>>, s2: map<Cell, seq<int>>,
                                         item: T, n: int, xlo: int, ylo: int, yhi: int, i: int)
    requires xlo <= i
    requires Grown(c0, r0, s0, c1, r1, s1, item, n, (xlo, ylo), (i - 1, yhi))
    requires Grown(c1, r1, s1, c2, r2, s2, item, n, (i, ylo), (i, yhi))
    ensures Grown(c0, r0, s0, c2, r2, s2, item, n, (xlo, ylo), (i, yhi))
  {
    AppendedInWidens(r0, r1, r2, item, xlo, ylo, yhi, i);
    AppendedInWidens(s0, s1, s2, n, xlo, ylo, yhi, i);
    assert c2[..|c0|] == c2[..|c1|][..|c0|];
  }

  /** Before column `i` is filed, none of its cells holds a stamp as recent
      as `n`, provided the grid held none to begin with. */
  lemma {:induction false} ColumnFresh(s0: map<Cell, seq<int>>, ss: map<Cell, seq<int>>,
                                      n: int, xlo: int, ylo: int, yhi: int, i: int)
    requires AppendedIn(s0, ss, n, (xlo, ylo), (i - 1, yhi))
    requires forall c, k :: k in Lookup(s0, c) ==> k < n
    ensures forall c, k :: InBlock(c, (i, ylo), (i, yhi)) && k in Lookup(ss, c) ==> k < n
  {
    forall c, k | InBlock(c, (i, ylo), (i, yhi)) && k in Lookup(ss, c)
      ensures k < n
    {
      assert !InBlock(c, (xlo, ylo), (i - 1, yhi));
      assert Lookup(ss, c) == Lookup(s0, c);
    }
  }

  /** A filing stays consistent when another item is pushed, and all its
      stamps are older than the new one. */
  lemma {:induction false} FilingExtends<T>(cells: seq<Cell>, regions: map<Cell, seq<T>>, pushed: seq<T>,
                                           stamps: map<Cell, seq<int>>, item: T)
    requires Filing(cells, regions, pushed, stamps)
    ensures Filing(cells, regions, pushed + [item], stamps)
    ensures forall c, k :: k in Lookup(stamps, c) ==> k < |pushed|
  {
    forall c, i | c in regions && 0 <= i < |regions[c]|
      ensures 0 <= stamps[c][i] < |pushed + [item]| && (pushed + [item])[stamps[c][i]] == regions[c][i]
    {
    }
    forall c, k | k in Lookup(stamps, c)
      ensures k < |pushed|
    {
      var i :| 0 <= i < |stamps[c]| && stamps[c][i] == k;
    }
  }

  /** The block `push` walks is the box's cell range. */
  lemma {:induction false} BlockIsRange(b: Box, size: real)
    requires 0.0 < size
    ensures forall c :: InBlock(c, FirstCell(b, size), (Ceil(b.br.x / size), Ceil(b.br.y / size))) <==> InRange(c, b, size)
  {
  }

  /** After a push stamped `n` was filed under a block holding `lo`, every
      push so far, the new one included, is in the stamps of its home cell. */
  lemma {:induction false} StampsCover(s0: map<Cell, seq<int>>, ss: map<Cell, seq<int>>, n: int,
                                      lo: Cell, hi: Cell, home: seq<Cell>)
    requires AppendedIn(s0, ss, n, lo, hi) && InBlock(lo, lo, hi)
    requires |home| == n
    requires forall k :: 0 <= k < n ==> k in Lookup(s0, home[k])
    ensures forall k :: 0 <= k <= n ==> k in Lookup(ss, (home + [lo])[k])
  {
    forall k | 0 <= k <= n
      ensures k in Lookup(ss, (home + [lo])[k])
    {
      if k < n {
        var c := home[k];
        assert (home + [lo])[k] == c;
        assert k in Lookup(s0, c);
        if InBlock(c, lo, hi) {
          assert Lookup(ss, c) == Lookup(s0, c) + [n];
        } else {
          assert Lookup(ss, c) == Lookup(s0, c);
        }
      } else {
        assert Lookup(ss, lo) == Lookup(s0, lo) + [n];
      }
    }
  }

  /** In two consistent filings where the second grew from the first over a
      block, the cells listed are the old ones and those of the block. */
  lemma {:induction false} GrownCells<T>(c0: seq<Cell>, r0: map<Cell, seq<T>>, p0: seq<T>, s0: map<Cell, seq<int>>,
                                        cs: seq<Cell>, rs: map<Cell, seq<T>>, pushed: seq<T>, ss: map<Cell, seq<int>>,
                                        item: T, lo: Cell, hi: Cell)
    requires Filing(c0, r0, p0, s0) && Filing(cs, rs, pushed, ss)
    requires AppendedIn(r0, rs, item, lo, hi)
    ensures forall c :: c in cs <==> c in c0 || InBlock(c, lo, hi)
  {
    forall c
      ensures c in cs <==> c in c0 || InBlock(c, lo, hi)
    {
      assert c in cs <==> Lookup(rs, c) != [];
      assert c in c0 <==> Lookup(r0, c) != [];
    }
  }

  /** `map[k]` for each key of `ks`, in order: `dict.values()`. */
  function Values<K, V>(ks: seq<K>, m: map<K, V>): (r: seq<V>)
    requires forall k :: k in ks ==> k in m
    ensures |r| == |ks|
    ensures forall i :: 0 <= i < |ks| ==> r[i] == m[ks[i]]
  {
    if ks == [] then [] else [m[ks[0]]] + Values(ks[1..], m)
  }

  /** `self._regions.setdefault(cell, []).append(item)`: a cell seen for the
      first time goes to the end of the key order. The ghost stamp recorded
      is `n`, the number of the push. */
  method FileCell<T>(c0: seq<Cell>, r0: map<Cell, seq<T>>, ghost pushed: seq<T>, ghost s0: map<Cell, seq<int>>,
                     item: T, ghost n: int, cell: Cell)
    returns (cells: seq<Cell>, regions: map<Cell, seq<T>>, ghost stamps: map<Cell, seq<int>>)
    requires Filing(c0, r0, pushed, s0) && 0 <= n < |pushed| && item == pushed[n]
    requires forall k :: k in Lookup(s0, cell) ==> k < n
    ensures Filing(cells, regions, pushed, stamps)
    ensures cells == if cell in r0 then c0 else c0 + [cell]
    ensures regions == r0[cell := Lookup(r0, cell) + [item]]
    ensures stamps == s0[cell := Lookup(s0, cell) + [n]]
  {
    cells := c0;
    if cell !in r0 {
      cells := cells + [cell];
    }
    regions := r0[cell := Lookup(r0, cell) + [item]];
    stamps := s0[cell := Lookup(s0, cell) + [n]];
    FilingAppend(c0, r0, pushed, s0, cell, item, n, cells, regions, stamps);
  }

  /** One turn of the inner loop of `push`: with cells `(i, ylo)` to
      `(i, done)` filed, file cell `(i, done + 1)`. */
  method FileNextCell<T>(c0: seq<Cell>, r0: map<Cell, seq<T>>, ghost pushed: seq<T>, ghost s0: map<Cell, seq<int>>,
                         c1: seq<Cell>, r1: map<Cell, seq<T>>, ghost s1: map<Cell, seq<int>>,
                         item: T, ghost n: int, i: int, ylo: int, yhi: int, done: int)
    returns (cells: seq<Cell>, regions: map<Cell, seq<T>>, ghost stamps: map<Cell, seq<int>>)
    requires Filing(c1, r1, pushed, s1) && 0 <= n < |pushed| && item == pushed[n]
    requires ylo <= done + 1 <= yhi
    requires forall c, k :: InBlock(c, (i, ylo), (i, yhi)) && k in Lookup(s0, c) ==> k < n
    requires Grown(c0, r0, s0, c1, r1, s1, item, n, (i, ylo), (i, done))
    ensures Filing(cells, regions, pushed, stamps)
    ensures Grown(c0, r0, s0, cells, regions, stamps, item, n, (i, ylo), (i, done + 1))
  {
    GrownStep(c0, r0, s0, c1, r1, s1, item, n, i, ylo, done);
    assert InBlock((i, done + 1), (i, ylo), (i, yhi));
    cells, regions, stamps := FileCell(c1, r1, pushed, s1, item, n, (i, done + 1));
  }

  /** The inner loop of `push`: file `item` under the cells `(i, ylo)` to
      `(i, yhi)` of column `i`, none of which holds a stamp as recent as `n`. */
  method FileColumn<T>(c0: seq<Cell>, r0: map<Cell, seq<T>>, ghost pushed: seq<T>, ghost s0: map<Cell, seq<int>>,
                       item: T, ghost n: int, i: int, ylo: int, yhi: int)
    returns (cells: seq<Cell>, regions: map<Cell, seq<T>>, ghost stamps: map<Cell, seq<int>>)
    requires Filing(c0, r0, pushed, s0) && 0 <= n < |pushed| && item == pushed[n]
    requires ylo <= yhi + 1
    requires forall c, k :: InBlock(c, (i, ylo), (i, yhi)) && k in Lookup(s0, c) ==> k < n
    ensures Filing(cells, regions, pushed, stamps)
    ensures Grown(c0, r0, s0, cells, regions, stamps, item, n, (i, ylo), (i, yhi))
  {
    cells, regions, stamps := c0, r0, s0;
    GrownNothing(cells, regions, stamps, item, n, (i, ylo), (i, ylo - 1));
    var done := ylo - 1;
    while done < yhi
      invariant ylo - 1 <= done <= yhi
      invariant Filing(cells, regions, pushed, stamps)
      invariant Grown(c0, r0, s0, cells, regions, stamps, item, n, (i, ylo), (i, done))
    {
      cells, regions, stamps := FileNextCell(c0, r0, pushed, s0, cells, regions, stamps, item, n, i, ylo, yhi, done);
      done := done + 1;
    }
  }

  /** One turn of the outer loop of `push`: with columns `xlo` to `done`
      filed, file column `done + 1`. */
  method FileNextColumn<T>(c0: seq<Cell>, r0: map<Cell, seq<T>>, ghost pushed: seq<T>, ghost s0: map<Cell, seq<int>>,
                           c1: seq<Cell>, r1: map<Cell, seq<T>>, ghost s1: map<Cell, seq<int>>,
                           item: T, ghost n: int, xlo: int, ylo: int, yhi: int, done: int)
    returns (cells: seq<Cell>, regions: map<Cell, seq<T>>, ghost stamps: map<Cell, seq<int>>)
    requires Filing(c1, r1, pushed, s1) && 0 <= n < |pushed| && item == pushed[n]
    requires xlo <= done + 1 && ylo <= yhi + 1
    requires forall c, k :: k in Lookup(s0, c) ==> k < n
    requires Grown(c0, r0, s0, c1, r1, s1, item, n, (xlo, ylo), (done, yhi))
    ensures Filing(cells, regions, pushed, stamps)
    ensures Grown(c0, r0, s0, cells, regions, stamps, item, n, (xlo, ylo), (done + 1, yhi))
  {
    var i := done + 1;
    ColumnFresh(s0, s1, n, xlo, ylo, yhi, i);
    cells, regions, stamps := FileColumn(c1, r1, pushed, s1, item, n, i, ylo, yhi);
    GrownWidens(c0, r0, s0, c1, r1, s1, cells, regions, stamps, item, n, xlo, ylo, yhi, i);
  }

  /** The two loops of `push`: file `item`, pushed as number `n`, under
      every cell from `(xlo, ylo)` to `(xhi, yhi)`, column by column. */
  method FileBlock<T>(c0: seq<Cell>, r0: map<Cell, seq<T>>, ghost pushed: seq<T>, ghost s0: map<Cell, seq<int>>,
                      item: T, ghost n: int, xlo: int, xhi: int, ylo: int, yhi: int)
    returns (cells: seq<Cell>, regions: map<Cell, seq<T>>, ghost stamps: map<Cell, seq<int>>)
    requires Filing(c0, r0, pushed, s0) && 0 <= n < |pushed| && item == pushed[n]
    requires xlo <= xhi + 1 && ylo <= yhi + 1
    requires forall c, k :: k in Lookup(s0, c) ==> k < n
    ensures Filing(cells, regions, pushed, stamps)
    ensures Grown(c0, r0, s0, cells, regions, stamps, item, n, (xlo, ylo), (xhi, yhi))
  {
    cells, regions, stamps := c0, r0, s0;
    GrownNothing(cells, regions, stamps, item, n, (xlo, ylo), (xlo - 1, yhi));
    var done := xlo - 1;
    while done < xhi
      invariant xlo - 1 <= done <= xhi
      invariant Filing(cells, regions, pushed, stamps)
      invariant Grown(c0, r0, s0, cells, regions, stamps, item, n, (xlo, ylo), (done, yhi))
    {
      cells, regions, stamps := FileNextColumn(c0, r0, pushed, s0, cells, regions, stamps, item, n, xlo, ylo, yhi, done);
      done := done + 1;
    }
  }

  /** `BboxGrouper`: a uniform grid that files each pushed item under every
      cell its bounding box reaches. `cells` lists the keys of `regions` in
      the order the dictionary first saw them. The ghost state records every
      pushed item (`pushed`), for each entry of each region the index of the
      push that filed it (`stamps`), and for each push one cell that received
      it (`home`). */
  class BboxGrouper<T> {
    const chunkSize: real
    var cells: seq<Cell>
    var regions: map<Cell, seq<T>>
    ghost var pushed: seq<T>
    ghost var stamps: map<Cell, seq<int>>
    ghost var home: seq<Cell>

    /** The entries filed under `c` so far. */
    function Entries(c: Cell): seq<T>
      reads this
    {
      Lookup(regions, c)
    }

    ghost function Stamps(c: Cell): seq<int>
      reads this
    {
      Lookup(stamps, c)
    }

    /** Everything but the record of where each push went. */
    ghost predicate Consistent()
      reads this
    {
      0.0 < chunkSize && Filing(cells, regions, pushed, stamps)
    }

    /** The first `n` pushes each reached their `home` cell. */
    ghost predicate Covered(n: nat)
      reads this
    {
      n <= |home| && forall k :: 0 <= k < n ==> k in Stamps(home[k])
    }

    ghost predicate Valid()
      reads this
    {
      Consistent() && |home| == |pushed| && Covered(|pushed|)
    }

    /** `BboxGrouper(chunk_size=...)`: no regions yet. */
    constructor (chunkSize: real)
      requires 0.0 < chunkSize
      ensures Valid()
      ensures this.chunkSize == chunkSize
      ensures cells == [] && regions == map[] && pushed == []
    {
      this.chunkSize := chunkSize;
      cells := [];
      regions := map[];
      pushed := [];
      stamps := map[];
      home := [];
    }

    /** `push(item, bbox)`: file `item` under every cell of the box's range,
        column by column. */
    method Push(item: T, bbox: Box)
      requires Valid()
      modifies this
      ensures Valid()
      ensures pushed == old(pushed) + [item]
      ensures forall c :: Entries(c) == if InRange(c, bbox, chunkSize) then Lookup(old(regions), c) + [item] else Lookup(old(regions), c)
      ensures forall c :: c in cells <==> c in old(cells) || InRange(c, bbox, chunkSize)
      ensures |old(cells)| <= |cells| && cells[..|old(cells)|] == old(cells)
    {
      var xstart := (bbox.tl.x / chunkSize).Floor;
      var xend := Ceil(bbox.br.x / chunkSize);
      var ystart := (bbox.tl.y / chunkSize).Floor;
      var yend := Ceil(bbox.br.y / chunkSize);
      ghost var n := |pushed|;
      FilingExtends(cells, regions, pushed, stamps, item);
      pushed := pushed + [item];
      cells, regions, stamps := FileBlock(cells, regions, pushed, stamps, item, n, xstart, xend, ystart, yend);
      FirstCellInRange(bbox, chunkSize);
      StampsCover(old(stamps), stamps, n, (xstart, ystart), (xend, yend), home);
      GrownCells(old(cells), old(regions), old(pushed), old(stamps), cells, regions, pushed, stamps, item, (xstart, ystart), (xend, yend));
      home := home + [(xstart, ystart)];
      BlockIsRange(bbox, chunkSize);
    }

    /** `regions()`: the lists of the grid, one per cell, in the order the
        cells were first used; none of them is empty. */
    function Regions(): (r: seq<seq<T>>)
      requires Consistent()
      reads this
      ensures |r| == |cells|
      ensures forall k :: 0 <= k < |r| ==> r[k] == regions[cells[k]] && r[k] != []
    {
      Values(cells, regions)
    }
  }

  /** Every item ever pushed is in at least one region (the chunk size is
      positive, so every range holds a cell). */
  lemma {:induction false} EveryPushedItemFiled<T>(g: BboxGrouper<T>, k: nat)
    requires g.Valid() && k < |g.pushed|
    ensures exists m :: 0 <= m < |g.cells| && g.pushed[k] in g.Regions()[m]
  {
    var c := g.home[k];
    assert k in g.Stamps(c);
    var i :| 0 <= i < |g.stamps[c]| && g.stamps[c][i] == k;
    assert g.regions[c][i] == g.pushed[k];
    var m :| 0 <= m < |g.cells| && g.cells[m] == c;
    assert g.pushed[k] in g.Regions()[m];
  }

  /** `x` occurs at most once in `s`. */
  ghost predicate AtMostOnce<T>(s: seq<T>, x: T) {
    forall p, q :: 0 <= p < |s| && 0 <= q < |s| && s[p] == x && s[q] == x ==> p == q
  }

  /** Two items pushed once each appear in the same relative order in every
      region that holds both: the order in which they were pushed. */
  lemma {:induction false} SameRelativeOrder<T>(g: BboxGrouper<T>, c1: Cell, c2: Cell, i1: int, j1: int, i2: int, j2: int)
    requires g.Valid()
    requires c1 in g.regions && c2 in g.regions
    requires 0 <= i1 < j1 < |g.regions[c1]|
    requires 0 <= i2 < |g.regions[c2]| && 0 <= j2 < |g.regions[c2]|
    requires g.regions[c1][i1] == g.regions[c2][i2] && g.regions[c1][j1] == g.regions[c2][j2]
    requires AtMostOnce(g.pushed, g.regions[c1][i1]) && AtMostOnce(g.pushed, g.regions[c1][j1])
    ensures i2 < j2
  {
    var a1, b1 := g.stamps[c1][i1], g.stamps[c1][j1];
    var a2, b2 := g.stamps[c2][i2], g.stamps[c2][j2];
    assert a1 == a2;
    assert b1 == b2;
    assert a1 < b1;
  }
}
