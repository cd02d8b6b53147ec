/**
 * `detect_collisions_system` of game/systems.py: every collider is filed in a
 * uniform grid, every pair of items sharing a cell is tested once per
 * ordered pair of entities, and each entity that was hit gets one
 * `Collisions` component listing its contacts.
 */
module Detect {
  import opened Wrappers
  import opened Geometry
  import opened Collision
  import opened EcsStore
  import opened Ecs
  import opened Components
  import Systems
  import opened Cells

  /** What the grid holds: an entity and its shape, moved to its position. */
  type Item = (Entity, Shape)

  /** One call of `push`: the item and the box it is filed by. */
  type Filed = (Item, Box)

  // ---------------------------------------------------------------- the cells

  /** The positions, in push order, of the pushes filed under `c`. */
  function Hits(ps: seq<Filed>, c: Cell): (hs: seq<int>)
    ensures forall a :: 0 <= a < |hs| ==> 0 <= hs[a] < |ps| && InRange(c, ps[hs[a]].1, ChunkSize)
    ensures forall a, b :: 0 <= a < b < |hs| ==> hs[a] < hs[b]
    ensures forall i :: 0 <= i < |ps| && InRange(c, ps[i].1, ChunkSize) ==> i in hs
    decreases |ps|
  {
    if ps == [] then
      []
    else
      Hits(ps[..|ps| - 1], c) + if InRange(c, ps[|ps| - 1].1, ChunkSize) then [|ps| - 1] else []
  }

  /** The list the grid holds under `c` once every push in `ps` is done. */
  function InCell(ps: seq<Filed>, c: Cell): (r: seq<Item>)
    ensures |r| == |Hits(ps, c)| && forall a :: 0 <= a < |r| ==> r[a] == ps[Hits(ps, c)[a]].0
  {
    var hs := Hits(ps, c);
    seq(|hs|, a requires 0 <= a < |hs| => ps[hs[a]].0)
  }

  /** One more push appends its item to exactly the cells of its box. */
  lemma {:induction false} InCellAppend(ps: seq<Filed>, p: Filed, c: Cell)
    ensures InCell(ps + [p], c) == InCell(ps, c) + if InRange(c, p.1, ChunkSize) then [p.0] else []
  {
    assert (ps + [p])[..|ps|] == ps;
  }

  /** The grid's lists, one per cell of `cells`, in that order. */
  function RegionsOf(ps: seq<Filed>, cells: seq<Cell>): (r: seq<seq<Item>>)
    ensures |r| == |cells| && forall k :: 0 <= k < |cells| ==> r[k] == InCell(ps, cells[k])
  {
    seq(|cells|, k requires 0 <= k < |cells| => InCell(ps, cells[k]))
  }

  // ---------------------------------------------------------------- the pairs

  /** `itertools.combinations(region, 2)`: every pair of positions `a < b`,
      ordered by `a` and then by `b`. */
  function Pairs<X>(region: seq<X>): (ps: seq<(X, X)>)
    decreases |region|
  {
    if region == [] then
      []
    else
      seq(|region| - 1, k requires 0 <= k < |region| - 1 => (region[0], region[k + 1])) + Pairs(region[1..])
  }

  /** Every pair `combinations` yields comes from two positions in order. */
  lemma {:induction false} PairsIndices<X>(region: seq<X>, m: int) returns (a: int, b: int)
    requires 0 <= m < |Pairs(region)|
    ensures 0 <= a < b < |region| && Pairs(region)[m] == (region[a], region[b])
    decreases |region|
  {
    var n := |region| - 1;
    if m < n {
      a, b := 0, m + 1;
    } else {
      var a', b' := PairsIndices(region[1..], m - n);
      a, b := a' + 1, b' + 1;
    }
  }

  /** ... and every two positions in order give a pair. */
  lemma {:induction false} PairsComplete<X>(region: seq<X>, a: int, b: int)
    requires 0 <= a < b < |region|
    ensures (region[a], region[b]) in Pairs(region)
    decreases |region|
  {
    var n := |region| - 1;
    var head := seq(n, k requires 0 <= k < n => (region[0], region[k + 1]));
    if a == 0 {
      assert head[b - 1] == (region[a], region[b]);
    } else {
      PairsComplete(region[1..], a - 1, b - 1);
    }
  }

  /** The pairs the nested loop visits: region by region, in the order
      `regions()` yields them. */
  function Candidates<X>(regions: seq<seq<X>>): seq<(X, X)>
    decreases |regions|
  {
    if regions == [] then [] else Candidates(regions[..|regions| - 1]) + Pairs(regions[|regions| - 1])
  }

  lemma {:induction false} CandidatesIndices<X>(regions: seq<seq<X>>, m: int) returns (k: int, a: int, b: int)
    requires 0 <= m < |Candidates(regions)|
    ensures 0 <= k < |regions| && 0 <= a < b < |regions[k]|
    ensures Candidates(regions)[m] == (regions[k][a], regions[k][b])
    decreases |regions|
  {
    var init := regions[..|regions| - 1];
    if m < |Candidates(init)| {
      k, a, b := CandidatesIndices(init, m);
    } else {
      k := |regions| - 1;
      a, b := PairsIndices(regions[k], m - |Candidates(init)|);
    }
  }

  /** Every pair of the grid's lists is two pushed items, in push order,
      whose boxes share a cell. */
  lemma {:induction false} CandidatesForward(ps: seq<Filed>, cells: seq<Cell>, m: int) returns (i: int, j: int)
    requires 0 <= m < |Candidates(RegionsOf(ps, cells))|
    ensures 0 <= i < j < |ps|
    ensures Candidates(RegionsOf(ps, cells))[m] == (ps[i].0, ps[j].0)
    ensures exists k :: 0 <= k < |cells| && InRange(cells[k], ps[i].1, ChunkSize) && InRange(cells[k], ps[j].1, ChunkSize)
  {
    var k, a, b := CandidatesIndices(RegionsOf(ps, cells), m);
    var hs := Hits(ps, cells[k]);
    i, j := hs[a], hs[b];
  }

  lemma {:induction false} CandidatesHold<X>(regions: seq<seq<X>>, k: int, p: (X, X))
    requires 0 <= k < |regions| && p in Pairs(regions[k])
    ensures p in Candidates(regions)
    decreases |regions|
  {
    var init := regions[..|regions| - 1];
    if k < |regions| - 1 {
      assert init[k] == regions[k];
      CandidatesHold(init, k, p);
    }
  }

  /** Two pushes whose boxes share a cell the grid lists are visited as a
      pair, in push order. */
  lemma {:induction false} SharedCellCandidates(ps: seq<Filed>, cells: seq<Cell>, i: int, j: int, c: Cell)
    requires 0 <= i < j < |ps|
    requires InRange(c, ps[i].1, ChunkSize) && InRange(c, ps[j].1, ChunkSize)
    requires forall c' :: InCell(ps, c') != [] ==> c' in cells
    ensures (ps[i].0, ps[j].0) in Candidates(RegionsOf(ps, cells))
  {
    var hs := Hits(ps, c);
    var a :| 0 <= a < |hs| && hs[a] == i;
    var b :| 0 <= b < |hs| && hs[b] == j;
    assert InCell(ps, c)[a] == ps[i].0;
    var k :| 0 <= k < |cells| && cells[k] == c;
    var region := RegionsOf(ps, cells)[k];
    assert region[a] == ps[i].0 && region[b] == ps[j].0;
    PairsComplete(region, a, b);
    CandidatesHold(RegionsOf(ps, cells), k, (ps[i].0, ps[j].0));
  }

  // ---------------------------------------------------------------- the tally

  /** The state the nested loop updates: the `checked` set, the `collisions`
      dictionary with the order its keys were inserted in, and (for the
      proofs) the pairs handed to `collide_shapes`, in order. */
  datatype Tally = Tally(
    checked: set<(Entity, Entity)>,
    tested: seq<(Entity, Entity)>,
    contacts: map<Entity, seq<(Entity, Vec)>>,
    order: seq<Entity>)

  const Start: Tally := Tally({}, [], map[], [])

  /** The contacts recorded for `e` so far. */
  function ContactsOf(m: map<Entity, seq<(Entity, Vec)>>, e: Entity): seq<(Entity, Vec)> {
    if e in m then m[e] else []
  }

  /** `collisions.setdefault(e, []).append(entry)`. */
  function Record(t: Tally, e: Entity, entry: (Entity, Vec)): (r: Tally)
    ensures r.checked == t.checked && r.tested == t.tested
    ensures r.contacts == t.contacts[e := ContactsOf(t.contacts, e) + [entry]]
    ensures r.order == if e in t.contacts then t.order else t.order + [e]
  {
    t.(contacts := t.contacts[e := ContactsOf(t.contacts, e) + [entry]],
       order := if e in t.contacts then t.order else t.order + [e])
  }

  /** The contacts after a hit of `e1` against `e2` with push `v`. */
  function Meet(m: map<Entity, seq<(Entity, Vec)>>, e1: Entity, e2: Entity, v: Vec): map<Entity, seq<(Entity, Vec)>> {
    var m1 := m[e1 := ContactsOf(m, e1) + [(e2, v)]];
    m1[e2 := ContactsOf(m1, e2) + [(e1, Neg(v))]]
  }

  /** One turn of the inner loop: a pair already checked is skipped;
      otherwise it is marked checked and, on a hit, each side records the
      other with the push it receives. */
  function Examine(t: Tally, pair: (Item, Item), root: Sqrt): (r: Tally) {
    var e1, e2 := pair.0.0, pair.1.0;
    if (e1, e2) in t.checked then
      t
    else
      var t1 := t.(checked := t.checked + {(e1, e2)}, tested := t.tested + [(e1, e2)]);
      match CollideShapes(pair.0.1, pair.1.1, root)
      case None => t1
      case Some(push) => Record(Record(t1, e1, (e2, push)), e2, (e1, Neg(push)))
  }

  /** The tally after the loop has visited `pairs`. */
  function TallyAll(pairs: seq<(Item, Item)>, root: Sqrt): Tally
    decreases |pairs|
  {
    if pairs == [] then Start else Examine(TallyAll(pairs[..|pairs| - 1], root), pairs[|pairs| - 1], root)
  }

  /** `checked` is exactly the set of pairs tested, and no pair was tested
      twice. */
  ghost predicate TestedOnce(t: Tally) {
    && (forall p :: p in t.checked <==> p in t.tested)
    && (forall i, j :: 0 <= i < j < |t.tested| ==> t.tested[i] != t.tested[j])
  }

  /** `order` lists each key of `contacts` once, and no list is empty. */
  ghost predicate KeysInOrder(t: Tally) {
    && (forall i, j :: 0 <= i < j < |t.order| ==> t.order[i] != t.order[j])
    && (forall x :: x in t.contacts <==> x in t.order)
    && (forall x :: x in t.contacts ==> t.contacts[x] != [])
  }

  /** Whenever `x` records `(y, v)`, `y` records `(x, -v)`. */
  ghost predicate Symmetric(m: map<Entity, seq<(Entity, Vec)>>) {
    forall x, k :: x in m && 0 <= k < |m[x]| ==> m[x][k].0 in m && (x, Neg(m[x][k].1)) in m[m[x][k].0]
  }

  /** Every contact comes from a pair that was checked, in one order or the
      other. */
  ghost predicate Sourced(t: Tally) {
    forall x, k :: x in t.contacts && 0 <= k < |t.contacts[x]| ==>
      (x, t.contacts[x][k].0) in t.checked || (t.contacts[x][k].0, x) in t.checked
  }

  ghost predicate Good(t: Tally) {
    TestedOnce(t) && KeysInOrder(t) && Symmetric(t.contacts) && Sourced(t)
  }

  /** What `Meet` leaves in each list: the old entries, then the new ones. */
  lemma {:induction false} MeetEntries(m: map<Entity, seq<(Entity, Vec)>>, e1: Entity, e2: Entity, v: Vec,
      x: Entity, k: int)
    requires x in Meet(m, e1, e2, v) && 0 <= k < |Meet(m, e1, e2, v)[x]|
    ensures var m2 := Meet(m, e1, e2, v);
      || (x in m && k < |m[x]| && m2[x][k] == m[x][k])
      || (x == e1 && m2[x][k] == (e2, v))
      || (x == e2 && m2[x][k] == (e1, Neg(v)))
  {
  }

  /** `Meet` only appends. */
  lemma {:induction false} MeetGrows(m: map<Entity, seq<(Entity, Vec)>>, e1: Entity, e2: Entity, v: Vec,
      x: Entity, entry: (Entity, Vec))
    requires x in m && entry in m[x]
    ensures x in Meet(m, e1, e2, v) && entry in Meet(m, e1, e2, v)[x]
  {
    var m1 := m[e1 := ContactsOf(m, e1) + [(e2, v)]];
    assert entry in m1[x];
  }

  lemma {:induction false} MeetSymmetric(m: map<Entity, seq<(Entity, Vec)>>, e1: Entity, e2: Entity, v: Vec)
    requires Symmetric(m)
    ensures Symmetric(Meet(m, e1, e2, v))
  {
    var m1 := m[e1 := ContactsOf(m, e1) + [(e2, v)]];
    var m2 := Meet(m, e1, e2, v);
    assert (e1, Neg(v)) in m2[e2];
    assert (e2, v) in m2[e1] by {
      assert (e2, v) in m1[e1];
      if e1 == e2 {
        assert m2[e1] == m1[e1] + [(e1, Neg(v))];
      }
    }
    forall x, k | x in m2 && 0 <= k < |m2[x]|
      ensures m2[x][k].0 in m2 && (x, Neg(m2[x][k].1)) in m2[m2[x][k].0]
    {
      MeetEntries(m, e1, e2, v, x, k);
      if x in m && k < |m[x]| && m2[x][k] == m[x][k] {
        MeetGrows(m, e1, e2, v, m[x][k].0, (x, Neg(m[x][k].1)));
      }
    }
  }

  /** Marking a new pair as checked keeps the tally good. */
  lemma {:induction false} CheckGood(t: Tally, e1: Entity, e2: Entity)
    requires Good(t) && (e1, e2) !in t.checked
    ensures Good(t.(checked := t.checked + {(e1, e2)}, tested := t.tested + [(e1, e2)]))
  {
    var t1 := t.(checked := t.checked + {(e1, e2)}, tested := t.tested + [(e1, e2)]);
    forall i, j | 0 <= i < j < |t1.tested|
      ensures t1.tested[i] != t1.tested[j]
    {
      if j == |t.tested| {
        assert t.tested[i] in t.checked;
      }
    }
  }

  /** Recording a hit of a checked pair on both sides keeps the tally good. */
  lemma {:induction false} HitGood(t: Tally, e1: Entity, e2: Entity, push: Vec)
    requires Good(t) && (e1, e2) in t.checked
    ensures Good(Record(Record(t, e1, (e2, push)), e2, (e1, Neg(push))))
  {
    var t1 := Record(t, e1, (e2, push));
    var t2 := Record(t1, e2, (e1, Neg(push)));
    assert t2.contacts == Meet(t.contacts, e1, e2, push);
    MeetSymmetric(t.contacts, e1, e2, push);
    HitSourced(t, e1, e2, push);
    RecordKeysInOrder(t, e1, (e2, push));
    RecordKeysInOrder(t1, e2, (e1, Neg(push)));
  }

  /** Both entries of a hit of a checked pair come from that pair. */
  lemma {:induction false} HitSourced(t: Tally, e1: Entity, e2: Entity, push: Vec)
    requires Sourced(t) && (e1, e2) in t.checked
    ensures Sourced(Record(Record(t, e1, (e2, push)), e2, (e1, Neg(push))))
  {
    var t2 := Record(Record(t, e1, (e2, push)), e2, (e1, Neg(push)));
    assert t2.contacts == Meet(t.contacts, e1, e2, push);
    forall x, k | x in t2.contacts && 0 <= k < |t2.contacts[x]|
      ensures (x, t2.contacts[x][k].0) in t2.checked || (t2.contacts[x][k].0, x) in t2.checked
    {
      MeetEntries(t.contacts, e1, e2, push, x, k);
    }
  }

  /** Recording an entry keeps `order` in step with the keys of `contacts`. */
  lemma {:induction false} RecordKeysInOrder(t: Tally, e: Entity, entry: (Entity, Vec))
    requires KeysInOrder(t)
    ensures KeysInOrder(Record(t, e, entry))
  {
  }

  lemma {:induction false} ExamineGood(t: Tally, pair: (Item, Item), root: Sqrt)
    requires Good(t)
    ensures Good(Examine(t, pair, root))
  {
    var e1, e2 := pair.0.0, pair.1.0;
    if (e1, e2) !in t.checked {
      var t1 := t.(checked := t.checked + {(e1, e2)}, tested := t.tested + [(e1, e2)]);
      CheckGood(t, e1, e2);
      match CollideShapes(pair.0.1, pair.1.1, root)
      case None =>
      case Some(push) =>
        HitGood(t1, e1, e2, push);
    }
  }

  /** The invariants of the nested loop hold whatever pairs it visits. */
  lemma {:induction false} TallyGood(pairs: seq<(Item, Item)>, root: Sqrt)
    ensures Good(TallyAll(pairs, root))
    decreases |pairs|
  {
    if pairs != [] {
      TallyGood(pairs[..|pairs| - 1], root);
      ExamineGood(TallyAll(pairs[..|pairs| - 1], root), pairs[|pairs| - 1], root);
    }
  }

  /** A turn tests at most the pair it is given. */
  lemma {:induction false} ExamineTests(t: Tally, pair: (Item, Item), root: Sqrt)
    ensures var r := Examine(t, pair, root);
      r.tested == t.tested || r.tested == t.tested + [(pair.0.0, pair.1.0)]
  {
  }

  /** Every pair tested is the entities of some pair visited. */
  lemma {:induction false} TestedVisited(pairs: seq<(Item, Item)>, root: Sqrt, n: int) returns (m: int)
    requires 0 <= n < |TallyAll(pairs, root).tested|
    ensures 0 <= m < |pairs|
    ensures TallyAll(pairs, root).tested[n] == (pairs[m].0.0, pairs[m].1.0)
    decreases |pairs|
  {
    var init := pairs[..|pairs| - 1];
    var t := TallyAll(init, root);
    ExamineTests(t, pairs[|pairs| - 1], root);
    if n < |t.tested| {
      m := TestedVisited(init, root, n);
    } else {
      m := |pairs| - 1;
    }
  }

  /** No entity is pushed twice (no entity has both a box and a circle). */
  ghost predicate OnePushEach(ps: seq<Filed>) {
    forall i, j :: 0 <= i < j < |ps| ==> ps[i].0.0 != ps[j].0.0
  }

  /** When each entity is pushed once, the grid yields every pair of
      entities in push order, so an unordered pair is never tested twice,
      and no entity is tested against itself. */
  lemma {:induction false} NoReversedPair(ps: seq<Filed>, cells: seq<Cell>, root: Sqrt)
    requires OnePushEach(ps)
    ensures var t := TallyAll(Candidates(RegionsOf(ps, cells)), root);
      forall p :: p in t.checked ==> p.0 != p.1 && (p.1, p.0) !in t.checked
  {
    var pairs := Candidates(RegionsOf(ps, cells));
    var t := TallyAll(pairs, root);
    TallyGood(pairs, root);
    forall p | p in t.checked
      ensures p.0 != p.1 && (p.1, p.0) !in t.checked
    {
      var n :| 0 <= n < |t.tested| && t.tested[n] == p;
      var m := TestedVisited(pairs, root, n);
      var i, j := CandidatesForward(ps, cells, m);
      if (p.1, p.0) in t.checked {
        var n' :| 0 <= n' < |t.tested| && t.tested[n'] == (p.1, p.0);
        var m' := TestedVisited(pairs, root, n');
        var i', j' := CandidatesForward(ps, cells, m');
        assert false;
      }
    }
  }

  // ---------------------------------------------------------------- filing

  /** Rows of `Query[Position, BoxCollider]`. */
  predicate BoxRows(rows: seq<QueryRow>) {
    forall i :: 0 <= i < |rows| ==> |rows[i].1| == 2 && rows[i].1[0].Position? && rows[i].1[1].BoxCollider?
  }

  /** Rows of `Query[Position, CircleCollider]`. */
  predicate CircleRows(rows: seq<QueryRow>) {
    forall i :: 0 <= i < |rows| ==> |rows[i].1| == 2 && rows[i].1[0].Position? && rows[i].1[1].CircleCollider?
  }

  /** The first loop's pushes: each box moved to its position, filed by
      itself. */
  function BoxPushes(rows: seq<QueryRow>): (ps: seq<Filed>)
    requires BoxRows(rows)
    ensures |ps| == |rows|
    ensures forall i :: 0 <= i < |rows| ==>
      var box := Shift(rows[i].1[1].box, rows[i].1[0].pos);
      ps[i] == ((rows[i].0, BoxShape(box)), box)
  {
    seq(|rows|, i requires 0 <= i < |rows| =>
      var box := Shift(rows[i].1[1].box, rows[i].1[0].pos);
      ((rows[i].0, BoxShape(box)), box))
  }

  /** The second loop's pushes: each circle moved to its position, filed by
      `bounds` of it. The code passes `circle.bbox()`, which is `CircleBox`;
      `CircleBounds` is the box that holds the whole circle. */
  function CirclePushes(rows: seq<QueryRow>, bounds: Circle -> Box): (ps: seq<Filed>)
    requires CircleRows(rows)
    ensures |ps| == |rows|
    ensures forall i :: 0 <= i < |rows| ==>
      var circle := ShiftCircle(rows[i].1[1].circle, rows[i].1[0].pos);
      ps[i] == ((rows[i].0, CircleShape(circle)), bounds(circle))
  {
    seq(|rows|, i requires 0 <= i < |rows| =>
      var circle := ShiftCircle(rows[i].1[1].circle, rows[i].1[0].pos);
      ((rows[i].0, CircleShape(circle)), bounds(circle)))
  }

  /** A loop of `grouper.push(item, bbox)` calls, over pushes that follow
      the ones in `done`. */
  method PushAll(g: BboxGrouper<Item>, ps: seq<Filed>, ghost done: seq<Filed>)
    requires g.Valid() && g.chunkSize == ChunkSize
    requires forall c :: g.Entries(c) == InCell(done, c)
    modifies g
    ensures g.Valid()
    ensures forall c :: g.Entries(c) == InCell(done + ps, c)
  {
    assert done + ps[..0] == done;
    for i := 0 to |ps|
      invariant g.Valid()
      invariant forall c :: g.Entries(c) == InCell(done + ps[..i], c)
    {
      g.Push(ps[i].0, ps[i].1);
      assert done + ps[..i + 1] == (done + ps[..i]) + [ps[i]];
      forall c
        ensures g.Entries(c) == InCell(done + ps[..i + 1], c)
      {
        InCellAppend(done + ps[..i], ps[i], c);
      }
    }
    assert ps[..|ps|] == ps;
  }

  /** The two push loops: boxes first, then circles. */
  method FileColliders(boxes: seq<QueryRow>, circles: seq<QueryRow>, bounds: Circle -> Box) returns (g: BboxGrouper<Item>)
    requires BoxRows(boxes) && CircleRows(circles)
    ensures fresh(g) && g.Valid()
    ensures forall c :: g.Entries(c) == InCell(BoxPushes(boxes) + CirclePushes(circles, bounds), c)
  {
    g := new BboxGrouper<Item>(ChunkSize);
    forall c
      ensures g.Entries(c) == InCell([], c)
    {
    }
    PushAll(g, BoxPushes(boxes), []);
    assert [] + BoxPushes(boxes) == BoxPushes(boxes);
    PushAll(g, CirclePushes(circles, bounds), BoxPushes(boxes));
  }

  /** `grouper.regions()`, in terms of the pushes: the lists of the cells
      some push reached, each cell once. */
  lemma {:induction false} RegionsOfGrid(g: BboxGrouper<Item>, ps: seq<Filed>)
    requires g.Valid() && forall c :: g.Entries(c) == InCell(ps, c)
    ensures g.Regions() == RegionsOf(ps, g.cells)
    ensures forall i, j :: 0 <= i < j < |g.cells| ==> g.cells[i] != g.cells[j]
    ensures forall c :: c in g.cells <==> InCell(ps, c) != []
  {
    forall k | 0 <= k < |g.cells|
      ensures g.Regions()[k] == InCell(ps, g.cells[k])
    {
      assert g.Entries(g.cells[k]) == g.regions[g.cells[k]];
    }
    forall c
      ensures c in g.cells <==> InCell(ps, c) != []
    {
      assert g.Entries(c) == Lookup(g.regions, c);
    }
  }

  // ---------------------------------------------------------------- the loops

  /** One more turn of the inner loop. */
  lemma {:induction false} TallyAllNext(visited: seq<(Item, Item)>, pairs: seq<(Item, Item)>, j: int, root: Sqrt)
    requires 0 <= j < |pairs|
    ensures TallyAll(visited + pairs[..j + 1], root) == Examine(TallyAll(visited + pairs[..j], root), pairs[j], root)
  {
    var s := visited + pairs[..j + 1];
    assert s[..|s| - 1] == visited + pairs[..j];
    assert s[|s| - 1] == pairs[j];
  }

  /** The body of the inner loop, for one pair. */
  method ExaminePair(checked: set<(Entity, Entity)>, ghost tested: seq<(Entity, Entity)>,
      collisions: map<Entity, seq<(Entity, Vec)>>, order: seq<Entity>, pair: (Item, Item), root: Sqrt)
    returns (checked': set<(Entity, Entity)>, ghost tested': seq<(Entity, Entity)>,
      collisions': map<Entity, seq<(Entity, Vec)>>, order': seq<Entity>)
    ensures Tally(checked', tested', collisions', order') == Examine(Tally(checked, tested, collisions, order), pair, root)
  {
    checked', tested', collisions', order' := checked, tested, collisions, order;
    var e1, shape1 := pair.0.0, pair.0.1;
    var e2, shape2 := pair.1.0, pair.1.1;
    if (e1, e2) in checked' {
      return;
    }
    checked' := checked' + {(e1, e2)};
    tested' := tested' + [(e1, e2)];
    var push := CollideShapes(shape1, shape2, root);
    if push.Some? {
      if e1 !in collisions' {
        order' := order' + [e1];
      }
      collisions' := collisions'[e1 := ContactsOf(collisions', e1) + [(e2, push.value)]];
      if e2 !in collisions' {
        order' := order' + [e2];
      }
      collisions' := collisions'[e2 := ContactsOf(collisions', e2) + [(e1, Neg(push.value))]];
    }
  }

  /** The inner loop, over `combinations(region, 2)`, after the loop has
      visited `visited`. */
  method TallyPairs(checked: set<(Entity, Entity)>, ghost tested: seq<(Entity, Entity)>,
      collisions: map<Entity, seq<(Entity, Vec)>>, order: seq<Entity>,
      pairs: seq<(Item, Item)>, ghost visited: seq<(Item, Item)>, root: Sqrt)
    returns (checked': set<(Entity, Entity)>, ghost tested': seq<(Entity, Entity)>,
      collisions': map<Entity, seq<(Entity, Vec)>>, order': seq<Entity>)
    requires Tally(checked, tested, collisions, order) == TallyAll(visited, root)
    ensures Tally(checked', tested', collisions', order') == TallyAll(visited + pairs, root)
  {
    checked', tested', collisions', order' := checked, tested, collisions, order;
    assert visited + pairs[..0] == visited;
    for j := 0 to |pairs|
      invariant Tally(checked', tested', collisions', order') == TallyAll(visited + pairs[..j], root)
    {
      TallyAllNext(visited, pairs, j, root);
      checked', tested', collisions', order' := ExaminePair(checked', tested', collisions', order', pairs[j], root);
    }
    assert pairs[..|pairs|] == pairs;
  }

  /** The nested loop over the regions and `combinations(region, 2)`. */
  method TallyRegions(regions: seq<seq<Item>>, root: Sqrt)
    returns (collisions: map<Entity, seq<(Entity, Vec)>>, order: seq<Entity>, ghost t: Tally)
    ensures t == TallyAll(Candidates(regions), root)
    ensures collisions == t.contacts && order == t.order
  {
    var checked: set<(Entity, Entity)> := {};
    ghost var tested: seq<(Entity, Entity)> := [];
    collisions, order := map[], [];
    assert regions[..0] == [];
    for k := 0 to |regions|
      invariant Tally(checked, tested, collisions, order) == TallyAll(Candidates(regions[..k]), root)
    {
      assert regions[..k + 1][..k] == regions[..k];
      checked, tested, collisions, order :=
        TallyPairs(checked, tested, collisions, order, Pairs(regions[k]), Candidates(regions[..k]), root);
    }
    assert regions[..|regions|] == regions;
    t := Tally(checked, tested, collisions, order);
  }

  /** `w.apply(e, [Collisions(entries)])` for every key of the dictionary, in
      insertion order. */
  function Applications(contacts: map<Entity, seq<(Entity, Vec)>>, order: seq<Entity>): (q: seq<(Entity, seq<Component>)>)
    ensures |q| == |order|
    ensures forall i :: 0 <= i < |q| ==> q[i] == (order[i], [Collisions(ContactsOf(contacts, order[i]))])
  {
    seq(|order|, i requires 0 <= i < |order| => (order[i], [Collisions(ContactsOf(contacts, order[i]))]))
  }

  /** Each entity that was hit gets exactly one `Collisions` component, with
      a non-empty list; no other entity gets one. */
  lemma {:induction false} ApplicationsOnce(t: Tally)
    requires Good(t)
    ensures var q := Applications(t.contacts, t.order);
      && (forall i, j :: 0 <= i < j < |q| ==> q[i].0 != q[j].0)
      && (forall i :: 0 <= i < |q| ==> q[i].1 == [Collisions(t.contacts[q[i].0])] && t.contacts[q[i].0] != [])
      && (forall x :: x in t.contacts <==> exists i :: 0 <= i < |q| && q[i].0 == x)
  {
    var q := Applications(t.contacts, t.order);
    forall x | x in t.contacts
      ensures exists i :: 0 <= i < |q| && q[i].0 == x
    {
      var i :| 0 <= i < |t.order| && t.order[i] == x;
      assert q[i].0 == x;
    }
  }

  method ApplyCollisions(w: GameWorld, collisions: map<Entity, seq<(Entity, Vec)>>, order: seq<Entity>)
    requires forall i :: 0 <= i < |order| ==> order[i] in collisions
    modifies w
    ensures w.Model() == old(w.Model()).(toAdd := old(w.componentsToAdd) + Applications(collisions, order))
  {
    ghost var before := w.Model();
    ghost var q := Applications(collisions, order);
    for i := 0 to |order|
      invariant w.Model() == before.(toAdd := before.toAdd + q[..i])
    {
      var e := order[i];
      w.Apply(e, [Collisions(collisions[e])]);
      assert q[..i + 1] == q[..i] + [q[i]];
    }
    assert q[..|q|] == q;
  }

  /** `detect_collisions_system`, with `math.sqrt` as a parameter and the
      box each circle is filed by as `bounds`: the code as written is
      `bounds := CircleBox`, the corrected one `bounds := CircleBounds`. */
  method DetectCollisionsSystem(w: GameWorld, root: Sqrt, bounds: Circle -> Box)
    returns (ghost boxes: seq<QueryRow>, ghost circles: seq<QueryRow>, ghost cells: seq<Cell>, ghost t: Tally)
    requires w.Valid() && Typed(w.Contents())
    requires [PositionType, BoxColliderType] in w.keyToEntities
    requires [PositionType, CircleColliderType] in w.keyToEntities
    modifies w
    ensures Listing(boxes, old(w.Contents()), [PositionType, BoxColliderType]) && BoxRows(boxes)
    ensures Listing(circles, old(w.Contents()), [PositionType, CircleColliderType]) && CircleRows(circles)
    ensures forall i, j :: 0 <= i < j < |cells| ==> cells[i] != cells[j]
    ensures forall c :: c in cells <==> InCell(BoxPushes(boxes) + CirclePushes(circles, bounds), c) != []
    ensures t == TallyAll(Candidates(RegionsOf(BoxPushes(boxes) + CirclePushes(circles, bounds), cells)), root)
    ensures Good(t)
    ensures w.Model() == old(w.Model()).(toAdd := old(w.componentsToAdd) + Applications(t.contacts, t.order))
  {
    var withBox := AllRows(w, [PositionType, BoxColliderType]);
    var withCircle := AllRows(w, [PositionType, CircleColliderType]);
    ShapedRows(withBox, withCircle);
    boxes, circles := withBox, withCircle;
    var collisions, order;
    collisions, order, cells, t := CollideRows(withBox, withCircle, root, bounds);
    ApplyCollisions(w, collisions, order);
  }

  /** The part of `detect_collisions_system` between the queries and the
      world's queue: file the colliders by cell, then test each cell's
      candidate pairs. */
  method CollideRows(boxes: seq<QueryRow>, circles: seq<QueryRow>, root: Sqrt, bounds: Circle -> Box)
    returns (collisions: map<Entity, seq<(Entity, Vec)>>, order: seq<Entity>, ghost cells: seq<Cell>, ghost t: Tally)
    requires BoxRows(boxes) && CircleRows(circles)
    ensures forall i, j :: 0 <= i < j < |cells| ==> cells[i] != cells[j]
    ensures forall c :: c in cells <==> InCell(BoxPushes(boxes) + CirclePushes(circles, bounds), c) != []
    ensures t == TallyAll(Candidates(RegionsOf(BoxPushes(boxes) + CirclePushes(circles, bounds), cells)), root)
    ensures Good(t)
    ensures collisions == t.contacts && order == t.order
  {
    var grouper := FileColliders(boxes, circles, bounds);
    ghost var ps := BoxPushes(boxes) + CirclePushes(circles, bounds);
    RegionsOfGrid(grouper, ps);
    var regions := grouper.Regions();
    cells := grouper.cells;
    collisions, order, t := TallyRegions(regions, root);
    TallyGood(Candidates(regions), root);
  }

  lemma {:induction false} ShapedRows(boxes: seq<QueryRow>, circles: seq<QueryRow>)
    requires Shaped(boxes, [PositionType, BoxColliderType]) && Shaped(circles, [PositionType, CircleColliderType])
    ensures BoxRows(boxes) && CircleRows(circles)
  {
    forall i | 0 <= i < |boxes|
      ensures boxes[i].1[0].Position? && boxes[i].1[1].BoxCollider?
    {
      TypeTells(boxes[i].1[0]);
      TypeTells(boxes[i].1[1]);
    }
    forall i | 0 <= i < |circles|
      ensures circles[i].1[0].Position? && circles[i].1[1].CircleCollider?
    {
      TypeTells(circles[i].1[0]);
      TypeTells(circles[i].1[1]);
    }
  }

  // ---------------------------------------------------------------- the commit

  /** Every entity with contacts was pushed. */
  lemma {:induction false} ContactsPushed(ps: seq<Filed>, cells: seq<Cell>, root: Sqrt, x: Entity) returns (i: int)
    requires x in TallyAll(Candidates(RegionsOf(ps, cells)), root).contacts
    ensures 0 <= i < |ps| && ps[i].0.0 == x
  {
    var pairs := Candidates(RegionsOf(ps, cells));
    var t := TallyAll(pairs, root);
    TallyGood(pairs, root);
    var y := t.contacts[x][0].0;
    var p := if (x, y) in t.checked then (x, y) else (y, x);
    var n :| 0 <= n < |t.tested| && t.tested[n] == p;
    var m := TestedVisited(pairs, root, n);
    var i0, j0 := CandidatesForward(ps, cells, m);
    i := if p == (x, y) then i0 else j0;
  }

  /** The pushes name only entities of the two queries. */
  lemma {:induction false} PushedFromRows(boxes: seq<QueryRow>, circles: seq<QueryRow>, bounds: Circle -> Box, i: int) returns (e: Entity)
    requires BoxRows(boxes) && CircleRows(circles)
    requires 0 <= i < |BoxPushes(boxes) + CirclePushes(circles, bounds)|
    ensures e == (BoxPushes(boxes) + CirclePushes(circles, bounds))[i].0.0
    ensures (exists k :: 0 <= k < |boxes| && boxes[k].0 == e) || (exists k :: 0 <= k < |circles| && circles[k].0 == e)
  {
    var ps := BoxPushes(boxes) + CirclePushes(circles, bounds);
    e := ps[i].0.0;
    if i < |boxes| {
      assert boxes[i].0 == e;
    } else {
      assert circles[i - |boxes|].0 == e;
    }
  }

  /** The entities `detect_collisions_system` applies to are live. */
  lemma {:induction false} ApplicationsLive(s: Store<ComponentType, Component>, boxes: seq<QueryRow>,
      circles: seq<QueryRow>, bounds: Circle -> Box, cells: seq<Cell>, root: Sqrt, t: Tally)
    requires Listing(boxes, s, [PositionType, BoxColliderType]) && BoxRows(boxes)
    requires Listing(circles, s, [PositionType, CircleColliderType]) && CircleRows(circles)
    requires t == TallyAll(Candidates(RegionsOf(BoxPushes(boxes) + CirclePushes(circles, bounds), cells)), root)
    ensures forall n :: 0 <= n < |t.order| ==> t.order[n] in s.components
  {
    var ps := BoxPushes(boxes) + CirclePushes(circles, bounds);
    TallyGood(Candidates(RegionsOf(ps, cells)), root);
    assert forall k :: 0 <= k < |boxes| ==> Row(s, [PositionType, BoxColliderType], boxes[k].0) == Ok(boxes[k].1);
    assert forall k :: 0 <= k < |circles| ==> Row(s, [PositionType, CircleColliderType], circles[k].0) == Ok(circles[k].1);
    forall n | 0 <= n < |t.order|
      ensures t.order[n] in s.components
    {
      var i := ContactsPushed(ps, cells, root, t.order[n]);
      var e := PushedFromRows(boxes, circles, bounds, i);
    }
  }

  /** What the queued applications store on one entity. */
  lemma {:induction false} CollisionsFor(cs: map<ComponentType, Component>, t: Tally, x: Entity)
    requires Good(t)
    ensures Upsert(cs, AddedTo(Applications(t.contacts, t.order), x), TypeOf)
            == if x in t.contacts then cs[CollisionsType := Collisions(t.contacts[x])] else cs
  {
    var q := Applications(t.contacts, t.order);
    if x in t.contacts {
      var n :| 0 <= n < |t.order| && t.order[n] == x;
      AddedToOnce(q, n);
      Systems.UpsertOne(cs, Collisions(t.contacts[x]));
    } else {
      AddedToAbsent(q, x);
      assert Upsert(cs, [], TypeOf) == cs;
    }
  }

  /** Committing the applications of any consistent tally over live
      entities. */
  lemma {:induction false} AppliedThenCommit(st: State<ComponentType, Component>, t: Tally)
    requires Inv(st.store, st.next) && Settled(st) && Good(t)
    requires forall n :: 0 <= n < |t.order| ==> t.order[n] in st.store.components
    ensures var r := CommitSpec(st.(toAdd := Applications(t.contacts, t.order)), TypeOf);
      && r.failure.None?
      && r.state.store.components == map x | x in st.store.components ::
           if x in t.contacts then st.store.components[x][CollisionsType := Collisions(t.contacts[x])]
           else st.store.components[x]
  {
    var cs := st.store.components;
    var st' := st.(toAdd := Applications(t.contacts, t.order));
    CommitNoKills(st', TypeOf);
    forall x | x in cs
      ensures Upsert(cs[x] - DroppedFrom(st'.toDelete, x), AddedTo(st'.toAdd, x), TypeOf)
              == if x in t.contacts then cs[x][CollisionsType := Collisions(t.contacts[x])] else cs[x]
    {
      assert cs[x] - DroppedFrom(st'.toDelete, x) == cs[x];
      CollisionsFor(cs[x], t, x);
    }
    HitAll(cs, st'.toDelete, st'.toAdd, t);
  }

  /** Committing entity by entity what records each entity's contacts
      records them for the whole map. */
  lemma {:induction false} HitAll(cs: map<Entity, map<ComponentType, Component>>,
      deletes: seq<(Entity, seq<ComponentType>)>, adds: seq<(Entity, seq<Component>)>, t: Tally)
    requires forall x :: x in cs ==> Upsert(cs[x] - DroppedFrom(deletes, x), AddedTo(adds, x), TypeOf)
                                     == if x in t.contacts then cs[x][CollisionsType := Collisions(t.contacts[x])] else cs[x]
    ensures (map x | x in cs :: Upsert(cs[x] - DroppedFrom(deletes, x), AddedTo(adds, x), TypeOf))
            == (map x | x in cs :: if x in t.contacts then cs[x][CollisionsType := Collisions(t.contacts[x])] else cs[x])
  {
  }

  /** A world that runs only `detect_collisions_system` and commits: every
      entity that was hit holds one `Collisions` component with its
      contacts, and every other component is as it was. */
  lemma {:induction false} DetectThenCommit(st: State<ComponentType, Component>, boxes: seq<QueryRow>,
      circles: seq<QueryRow>, bounds: Circle -> Box, cells: seq<Cell>, root: Sqrt)
    requires Inv(st.store, st.next) && Settled(st)
    requires Listing(boxes, st.store, [PositionType, BoxColliderType]) && BoxRows(boxes)
    requires Listing(circles, st.store, [PositionType, CircleColliderType]) && CircleRows(circles)
    ensures var t := TallyAll(Candidates(RegionsOf(BoxPushes(boxes) + CirclePushes(circles, bounds), cells)), root);
      var r := CommitSpec(st.(toAdd := Applications(t.contacts, t.order)), TypeOf);
      && r.failure.None?
      && r.state.store.components == map x | x in st.store.components ::
           if x in t.contacts then st.store.components[x][CollisionsType := Collisions(t.contacts[x])]
           else st.store.components[x]
  {
    var pairs := Candidates(RegionsOf(BoxPushes(boxes) + CirclePushes(circles, bounds), cells));
    TallyGood(pairs, root);
    var t := TallyAll(pairs, root);
    ApplicationsLive(st.store, boxes, circles, bounds, cells, root, t);
    AppliedThenCommit(st, t);
  }

  /** Two circles that touch are visited as a pair by the nested loop. */
  lemma {:induction false} TouchingCirclesVisited(circles: seq<QueryRow>, boxes: seq<QueryRow>, cells: seq<Cell>, a: int, b: int)
    requires BoxRows(boxes) && CircleRows(circles) && 0 <= a < b < |circles|
    requires forall c :: InCell(BoxPushes(boxes) + CirclePushes(circles, CircleBounds), c) != [] ==> c in cells
    requires var c1, c2 := CirclePushes(circles, CircleBounds)[a].0.1.circle, CirclePushes(circles, CircleBounds)[b].0.1.circle;
      LengthSquared(Sub(c1.center, c2.center)) <= Mul(c1.radius + c2.radius, c1.radius + c2.radius)
    ensures var ps := BoxPushes(boxes) + CirclePushes(circles, CircleBounds);
      (ps[|boxes| + a].0, ps[|boxes| + b].0) in Candidates(RegionsOf(ps, cells))
  {
    var ps := BoxPushes(boxes) + CirclePushes(circles, CircleBounds);
    var cp := CirclePushes(circles, CircleBounds);
    var c := CircleBoundsShareCell(cp[a].0.1.circle, cp[b].0.1.circle);
    assert ps[|boxes| + a] == cp[a] && ps[|boxes| + b] == cp[b];
    SharedCellCandidates(ps, cells, |boxes| + a, |boxes| + b, c);
  }

  // ------------------------------------------------------ the circle bounds

  /** The circle of row `k`, moved to its position. */
  function Moved(circles: seq<QueryRow>, k: int): Circle
    requires CircleRows(circles) && 0 <= k < |circles|
  {
    ShiftCircle(circles[k].1[1].circle, circles[k].1[0].pos)
  }

  /** The pushes of two circle rows and no box rows, whatever box the
      circles are filed by. */
  lemma {:induction false} TwoCirclePushes(circles: seq<QueryRow>, bounds: Circle -> Box)
    requires CircleRows(circles) && |circles| == 2
    ensures var ps := BoxPushes([]) + CirclePushes(circles, bounds);
      && |ps| == 2
      && ps[0] == ((circles[0].0, CircleShape(Moved(circles, 0))), bounds(Moved(circles, 0)))
      && ps[1] == ((circles[1].0, CircleShape(Moved(circles, 1))), bounds(Moved(circles, 1)))
  {
    assert BoxPushes([]) == [];
  }

  /** With two pushes, every pair the loop visits is those two, and their
      boxes share a cell. */
  lemma {:induction false} OnlyPair(ps: seq<Filed>, cells: seq<Cell>, m: int)
    requires |ps| == 2 && 0 <= m < |Candidates(RegionsOf(ps, cells))|
    ensures Candidates(RegionsOf(ps, cells))[m] == (ps[0].0, ps[1].0)
    ensures exists k :: 0 <= k < |cells| && InRange(cells[k], ps[0].1, ChunkSize) && InRange(cells[k], ps[1].1, ChunkSize)
  {
    var i, j := CandidatesForward(ps, cells, m);
    assert i == 0 && j == 1;
    var k :| 0 <= k < |cells| && InRange(cells[k], ps[i].1, ChunkSize) && InRange(cells[k], ps[j].1, ChunkSize);
  }

  /** The handler as written (`bounds := CircleBox`), in a world with no box
      collider and two circle colliders that become `Left` and `Right`
      (centred at (32, 0) and (163, 0), radii 64 and 70, overlapping by
      3), visits no pair at all: it records no contact and queues no
      `Collisions`. */
  lemma {:induction false} AsWrittenMissesContact(circles: seq<QueryRow>, cells: seq<Cell>, root: Sqrt)
    requires CircleRows(circles) && |circles| == 2
    requires Moved(circles, 0) == Left && Moved(circles, 1) == Right
    ensures var t := TallyAll(Candidates(RegionsOf(BoxPushes([]) + CirclePushes(circles, CircleBox), cells)), root);
      t.contacts == map[] && Applications(t.contacts, t.order) == []
  {
    var ps := BoxPushes([]) + CirclePushes(circles, CircleBox);
    TwoCirclePushes(circles, CircleBox);
    if Candidates(RegionsOf(ps, cells)) != [] {
      OnlyPair(ps, cells, 0);
      var k :| 0 <= k < |cells| && InRange(cells[k], ps[0].1, ChunkSize) && InRange(cells[k], ps[1].1, ChunkSize);
      CircleBoxMissesContact(cells[k]);
      assert false;
    }
  }

  /** The handler with the corrected bounds (`bounds := CircleBounds`), in a
      world with no box collider and two circle colliders no further apart
      than the sum of their radii, records a contact for both entities.
      `Left` and `Right` are such circles (`Cells.LeftRightClose`). */
  lemma {:induction false} CorrectedFindsContact(circles: seq<QueryRow>, cells: seq<Cell>, root: Sqrt)
    requires CircleRows(circles) && |circles| == 2
    requires var c1, c2 := Moved(circles, 0), Moved(circles, 1);
      && LengthSquared(Sub(c1.center, c2.center)) <= Mul(c1.radius + c2.radius, c1.radius + c2.radius)
      && RootAt(root, LengthSquared(Sub(c1.center, c2.center)))
    requires forall c :: InCell(BoxPushes([]) + CirclePushes(circles, CircleBounds), c) != [] ==> c in cells
    ensures var t := TallyAll(Candidates(RegionsOf(BoxPushes([]) + CirclePushes(circles, CircleBounds), cells)), root);
      circles[0].0 in t.contacts && circles[1].0 in t.contacts
  {
    var ps := BoxPushes([]) + CirclePushes(circles, CircleBounds);
    TwoCirclePushes(circles, CircleBounds);
    assert ps[0].0.1 == CircleShape(Moved(circles, 0)) && ps[1].0.1 == CircleShape(Moved(circles, 1));
    TouchingShapesCollide(Moved(circles, 0), Moved(circles, 1), root);
    TwoTouchingVisited(circles, cells);
    TwoPushesMeet(ps, cells, root);
  }

  /** With the corrected bounds, two touching circles are visited as a
      pair. */
  lemma {:induction false} TwoTouchingVisited(circles: seq<QueryRow>, cells: seq<Cell>)
    requires CircleRows(circles) && |circles| == 2
    requires var c1, c2 := Moved(circles, 0), Moved(circles, 1);
      LengthSquared(Sub(c1.center, c2.center)) <= Mul(c1.radius + c2.radius, c1.radius + c2.radius)
    requires forall c :: InCell(BoxPushes([]) + CirclePushes(circles, CircleBounds), c) != [] ==> c in cells
    ensures var ps := BoxPushes([]) + CirclePushes(circles, CircleBounds);
      (ps[0].0, ps[1].0) in Candidates(RegionsOf(ps, cells))
  {
    TwoCirclePushes(circles, CircleBounds);
    TouchingCirclesVisited(circles, [], cells, 0, 1);
  }

  /** Two pushes that the loop visits as a pair, and whose shapes collide,
      both get a contact. */
  lemma {:induction false} TwoPushesMeet(ps: seq<Filed>, cells: seq<Cell>, root: Sqrt)
    requires |ps| == 2 && (ps[0].0, ps[1].0) in Candidates(RegionsOf(ps, cells))
    requires CollideShapes(ps[0].0.1, ps[1].0.1, root).Some?
    ensures var t := TallyAll(Candidates(RegionsOf(ps, cells)), root);
      ps[0].0.0 in t.contacts && ps[1].0.0 in t.contacts
  {
    var pairs := Candidates(RegionsOf(ps, cells));
    forall m | 0 <= m < |pairs|
      ensures pairs[m] == (ps[0].0, ps[1].0)
    {
      OnlyPair(ps, cells, m);
    }
    TallyRepeated(pairs, (ps[0].0, ps[1].0), root);
  }

  /** A loop that visits only copies of one pair, whose shapes collide,
      records a contact for both of its entities. */
  lemma {:induction false} TallyRepeated(pairs: seq<(Item, Item)>, p: (Item, Item), root: Sqrt)
    requires pairs != [] && forall m :: 0 <= m < |pairs| ==> pairs[m] == p
    requires CollideShapes(p.0.1, p.1.1, root).Some?
    ensures p.0.0 in TallyAll(pairs, root).contacts && p.1.0 in TallyAll(pairs, root).contacts
    decreases |pairs|
  {
    var init := pairs[..|pairs| - 1];
    if init != [] {
      TallyRepeated(init, p, root);
    }
  }
}
