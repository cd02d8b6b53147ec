/**
 * The components of game/systems.py and the facts every game system relies
 * on when it reads a query row: each component is stored under its own
 * type, so the i-th component of a row has the key's i-th type.
 */
module Components {
  import opened Wrappers
  import opened Geometry
  import opened Messages
  import opened EcsStore
  import opened Ecs

  /** The component named-tuples of game/systems.py. */
  datatype Component =
    | TimeToLive(seconds: real)
    | Fresh
    | Gone
    | BoxCollider(box: Box)
    | CircleCollider(circle: Circle)
    | Position(pos: Vec)
    | Orientation(radians: real)
    | Velocity(velocity: Vec)
    | Collisions(contacts: seq<(Entity, Vec)>)
    | Solid
    | Player(id: int, username: string, weaponCooldown: real, score: int, lastDamageSource: Option<int>)
    | Health(points: int, queue: seq<int>)
    | Score(points: int, queue: seq<int>)
    | HealthNotification(change: int, newHealth: int)
    | ScoreNotification(change: int, newScore: int)
    | Bullet(parent: int)
    | Remote(clientId: ClientId, needsSnapshot: bool, controls: set<Control>)
    | DisconnectRequest(requester: ClientId)

  /** The classes of the components: what the world files them under. */
  datatype ComponentType =
    | TimeToLiveType
    | FreshType
    | GoneType
    | BoxColliderType
    | CircleColliderType
    | PositionType
    | OrientationType
    | VelocityType
    | CollisionsType
    | SolidType
    | PlayerType
    | HealthType
    | ScoreType
    | HealthNotificationType
    | ScoreNotificationType
    | BulletType
    | RemoteType
    | DisconnectRequestType

  /** `type(c)`. */
  function TypeOf(c: Component): ComponentType {
    match c
    case TimeToLive(_) => TimeToLiveType
    case Fresh => FreshType
    case Gone => GoneType
    case BoxCollider(_) => BoxColliderType
    case CircleCollider(_) => CircleColliderType
    case Position(_) => PositionType
    case Orientation(_) => OrientationType
    case Velocity(_) => VelocityType
    case Collisions(_) => CollisionsType
    case Solid => SolidType
    case Player(_, _, _, _, _) => PlayerType
    case Health(_, _) => HealthType
    case Score(_, _) => ScoreType
    case HealthNotification(_, _) => HealthNotificationType
    case ScoreNotification(_, _) => ScoreNotificationType
    case Bullet(_) => BulletType
    case Remote(_, _, _) => RemoteType
    case DisconnectRequest(_) => DisconnectRequestType
  }

  /** A component's type tells its kind. */
  lemma {:induction false} TypeTells(c: Component)
    ensures TypeOf(c) == TimeToLiveType <==> c.TimeToLive?
    ensures TypeOf(c) == FreshType <==> c.Fresh?
    ensures TypeOf(c) == GoneType <==> c.Gone?
    ensures TypeOf(c) == BoxColliderType <==> c.BoxCollider?
    ensures TypeOf(c) == CircleColliderType <==> c.CircleCollider?
    ensures TypeOf(c) == PositionType <==> c.Position?
    ensures TypeOf(c) == OrientationType <==> c.Orientation?
    ensures TypeOf(c) == VelocityType <==> c.Velocity?
    ensures TypeOf(c) == CollisionsType <==> c.Collisions?
    ensures TypeOf(c) == SolidType <==> c.Solid?
    ensures TypeOf(c) == PlayerType <==> c.Player?
    ensures TypeOf(c) == HealthType <==> c.Health?
    ensures TypeOf(c) == ScoreType <==> c.Score?
    ensures TypeOf(c) == HealthNotificationType <==> c.HealthNotification?
    ensures TypeOf(c) == ScoreNotificationType <==> c.ScoreNotification?
    ensures TypeOf(c) == BulletType <==> c.Bullet?
    ensures TypeOf(c) == RemoteType <==> c.Remote?
    ensures TypeOf(c) == DisconnectRequestType <==> c.DisconnectRequest?
  {
  }

  /** The world the game runs on. */
  type GameWorld = World<ComponentType, Component>

  /** One row of `query.all()`: an entity and its components in key order. */
  type QueryRow = (Entity, seq<Component>)

  /** Every component of an entity is filed under its own type. */
  ghost predicate TypedMap(cs: map<ComponentType, Component>) {
    forall t :: t in cs ==> TypeOf(cs[t]) == t
  }

  ghost predicate Typed(s: Store<ComponentType, Component>) {
    forall e :: e in s.components ==> TypedMap(s.components[e])
  }

  /** A tweak callback that returns a component of the type it was given. */
  ghost predicate TypePreserving(f: Component -> Component) {
    forall c :: TypeOf(f(c)) == TypeOf(c)
  }

  /** Rows whose components have the key's types, position by position. */
  ghost predicate Shaped(rows: seq<QueryRow>, key: Key<ComponentType>) {
    forall i :: 0 <= i < |rows| ==>
      |rows[i].1| == |key| && forall k :: 0 <= k < |key| ==> TypeOf(rows[i].1[k]) == key[k]
  }

  /** No entity has two rows. */
  ghost predicate Distinct(rows: seq<QueryRow>) {
    forall i, j :: 0 <= i < j < |rows| ==> rows[i].0 != rows[j].0
  }

  /** `query.all()` of a registered key on store `s`: one row for each entity
      the index lists, holding that entity's components of the key. */
  ghost predicate Listing(rows: seq<QueryRow>, s: Store<ComponentType, Component>, key: Key<ComponentType>) {
    && key in s.index
    && Listed(rows) == s.index[key]
    && Distinct(rows)
    && forall i :: 0 <= i < |rows| ==> Row(s, key, rows[i].0) == Ok(rows[i].1)
  }

  /** The entities of some rows, in order. */
  function Entities(rows: seq<QueryRow>): (es: seq<Entity>)
    ensures |es| == |rows| && forall i :: 0 <= i < |rows| ==> es[i] == rows[i].0
  {
    seq(|rows|, i requires 0 <= i < |rows| => rows[i].0)
  }

  /** Rows read from a typed store have the key's shape. */
  lemma {:induction false} RowsShaped(s: Store<ComponentType, Component>, key: Key<ComponentType>, rows: seq<QueryRow>)
    requires Typed(s)
    requires forall i :: 0 <= i < |rows| ==> Row(s, key, rows[i].0) == Ok(rows[i].1)
    ensures Shaped(rows, key)
  {
    forall i | 0 <= i < |rows|
      ensures |rows[i].1| == |key| && forall k :: 0 <= k < |key| ==> TypeOf(rows[i].1[k]) == key[k]
    {
      var e := rows[i].0;
      assert e in s.components;
      assert TypedMap(s.components[e]);
    }
  }

  /** `query.all()` inside a running system.  The system's keys were
      registered when it was added, so the call does not raise. */
  method AllRows(w: GameWorld, key: Key<ComponentType>) returns (rows: seq<QueryRow>)
    requires w.Valid() && Typed(w.Contents()) && key in w.keyToEntities
    ensures Listing(rows, w.Contents(), key) && Shaped(rows, key)
  {
    IndexedRowsExist(w.Contents(), w.nextNumber, key);
    var r := w.QueryAll(key);
    rows := r.value;
    RowsShaped(w.Contents(), key, rows);
  }

  // ---------------------------------------------------------------- types are kept

  lemma {:induction false} UpsertTyped(cs: map<ComponentType, Component>, batch: seq<Component>)
    requires TypedMap(cs)
    ensures TypedMap(Upsert(cs, batch, TypeOf))
    decreases |batch|
  {
    if batch != [] {
      UpsertTyped(cs, batch[..|batch| - 1]);
    }
  }

  lemma {:induction false} RunDeletesTyped(s: Store<ComponentType, Component>, q: seq<(Entity, seq<ComponentType>)>)
    requires Typed(s)
    ensures Typed(RunDeletes(s, q).store)
    decreases |q|
  {
    if q != [] {
      RunDeletesTyped(s, q[..|q| - 1]);
    }
  }

  lemma {:induction false} RunAddsTyped(s: Store<ComponentType, Component>, q: seq<(Entity, seq<Component>)>)
    requires Typed(s)
    ensures Typed(RunAdds(s, q, TypeOf).store)
    decreases |q|
  {
    if q != [] {
      var before := RunAdds(s, q[..|q| - 1], TypeOf).store;
      RunAddsTyped(s, q[..|q| - 1]);
      var e := q[|q| - 1].0;
      if e in before.components {
        UpsertTyped(before.components[e], q[|q| - 1].1);
      }
    }
  }

  lemma {:induction false} RunKillsTyped(s: Store<ComponentType, Component>, q: seq<Entity>)
    requires Typed(s)
    ensures Typed(RunKills(s, q).store)
    decreases |q|
  {
    if q != [] {
      RunKillsTyped(s, q[..|q| - 1]);
    }
  }

  lemma {:induction false} RunTweaksTyped(s: Store<ComponentType, Component>, q: seq<Tweak<ComponentType, Component>>)
    requires Typed(s)
    requires forall i :: 0 <= i < |q| ==> TypePreserving(q[i].callback)
    ensures Typed(RunTweaks(s, q))
    decreases |q|
  {
    if q != [] {
      RunTweaksTyped(s, q[..|q| - 1]);
      assert TypePreserving(q[|q| - 1].callback);
    }
  }

  /** One tweak with a type-preserving callback keeps every component under
      its own type. */
  lemma {:induction false} TweakOpTyped(s: Store<ComponentType, Component>, e: Entity, t: ComponentType,
                                       f: Component -> Component)
    requires Typed(s) && TypePreserving(f)
    ensures Typed(TweakOp(s, e, t, f))
  {
    var r := TweakOp(s, e, t, f);
    if e in s.components && t in s.components[e] {
      assert TypeOf(f(s.components[e][t])) == t;
      assert TypedMap(r.components[e]);
    }
  }

  /** A commit keeps every component under its own type, as long as every
      scheduled tweak returns a component of the type it was given. */
  lemma {:induction false} CommitKeepsTyped(st: State<ComponentType, Component>)
    requires Typed(st.store)
    requires forall i :: 0 <= i < |st.tweaks| ==> TypePreserving(st.tweaks[i].callback)
    ensures Typed(CommitSpec(st, TypeOf).state.store)
  {
    var deleted := RunDeletes(st.store, st.toDelete);
    RunDeletesTyped(st.store, st.toDelete);
    var added := RunAdds(deleted.store, st.toAdd, TypeOf);
    RunAddsTyped(deleted.store, st.toAdd);
    var killed := RunKills(added.store, st.toKill);
    RunKillsTyped(added.store, st.toKill);
    RunTweaksTyped(killed.store, st.tweaks);
  }
}
