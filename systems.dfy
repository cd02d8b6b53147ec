/**
 * The bookkeeping systems of game/systems.py: time-to-live, removal of the
 * dead, clearing of one-tick components, score and health, and
 * disconnection.  Each system is a method over the world that reads its
 * queries and queues world calls, proved to queue exactly what a function
 * of its query rows says; lemmas then state what those calls do to each
 * entity once the world commits them.
 */
module Systems {
  import opened Wrappers
  import opened Messages
  import opened EcsStore
  import opened Ecs
  import opened Net
  import opened Components

  /** Python's `sum` of a list of integers. */
  function Sum(q: seq<int>): int
    decreases |q|
  {
    if q == [] then 0 else Sum(q[..|q| - 1]) + q[|q| - 1]
  }

  /** A single component stored after removing some types. */
  lemma {:induction false} UpsertOne(cs: map<ComponentType, Component>, c: Component)
    ensures Upsert(cs, [c], TypeOf) == cs[TypeOf(c) := c]
  {
    assert [c][..0] == [];
  }

  lemma {:induction false} UpsertTwo(cs: map<ComponentType, Component>, c: Component, d: Component)
    ensures Upsert(cs, [c, d], TypeOf) == cs[TypeOf(c) := c][TypeOf(d) := d]
  {
    assert [c, d][..1] == [c];
    UpsertOne(cs, c);
  }

  /** Removing `types` from an entity removes only what it holds. */
  lemma {:induction false} MinusAbsent(cs: map<ComponentType, Component>, dropped: set<ComponentType>, types: set<ComponentType>)
    requires dropped <= types
    requires forall t :: t in types && t !in dropped ==> t !in cs
    ensures cs - dropped == cs - types
  {
    assert (cs - dropped).Keys == (cs - types).Keys;
  }

  /** Under the invariant, an entity holding a type is listed under that
      type's one-type key. */
  lemma {:induction false} HoldersListed(s: Store<ComponentType, Component>, next: int, rows: seq<QueryRow>, t: ComponentType, x: Entity)
    requires Inv(s, next) && Listing(rows, s, [t]) && x in s.components
    ensures t in s.components[x] <==> x in Listed(rows)
  {
    IndexExact(s, next, [t], x);
    assert KeySet([t]) == {t};
  }

  // ---------------------------------------------------------------- ttl_system

  /** Rows of `Query[TimeToLive]`. */
  predicate TtlRows(rows: seq<QueryRow>) {
    forall i :: 0 <= i < |rows| ==> |rows[i].1| == 1 && rows[i].1[0].TimeToLive?
  }

  lemma {:induction false} TtlShape(rows: seq<QueryRow>)
    requires Shaped(rows, [TimeToLiveType])
    ensures TtlRows(rows)
  {
    forall i | 0 <= i < |rows|
      ensures |rows[i].1| == 1 && rows[i].1[0].TimeToLive?
    {
      assert TypeOf(rows[i].1[0]) == TimeToLiveType;
      TypeTells(rows[i].1[0]);
    }
  }

  /** What `ttl_system` stores on an entity with `ticks` seconds left. */
  function Countdown(ticks: real, dt: real): seq<Component> {
    if ticks <= 0.0 then [Gone] else [TimeToLive(ticks - dt)]
  }

  /** The removals `ttl_system` queues: the time-to-live of every entity
      whose time is up, in row order. */
  function TtlDeletes(rows: seq<QueryRow>): seq<(Entity, seq<ComponentType>)>
    requires TtlRows(rows)
    decreases |rows|
  {
    if rows == [] then
      []
    else
      var last := rows[|rows| - 1];
      TtlDeletes(rows[..|rows| - 1]) + if last.1[0].seconds <= 0.0 then [(last.0, [TimeToLiveType])] else []
  }

  /** The additions `ttl_system` queues: one batch per row. */
  function TtlAdds(rows: seq<QueryRow>, dt: real): (q: seq<(Entity, seq<Component>)>)
    requires TtlRows(rows)
    ensures |q| == |rows|
    ensures forall i :: 0 <= i < |rows| ==> q[i] == (rows[i].0, Countdown(rows[i].1[0].seconds, dt))
  {
    seq(|rows|, i requires 0 <= i < |rows| => (rows[i].0, Countdown(rows[i].1[0].seconds, dt)))
  }

  /** What one tick of `ttl_system` does to an entity's components. */
  function Aged(cs: map<ComponentType, Component>, dt: real): map<ComponentType, Component> {
    if TimeToLiveType in cs && cs[TimeToLiveType].TimeToLive? then
      var ticks := cs[TimeToLiveType].seconds;
      if ticks <= 0.0 then (cs - {TimeToLiveType})[GoneType := Gone]
      else cs[TimeToLiveType := TimeToLive(ticks - dt)]
    else
      cs
  }

  /** The body of the loop of `ttl_system`, for row `i`. */
  method TtlStep(w: GameWorld, items: seq<QueryRow>, i: int, dt: real,
                 ghost before: State<ComponentType, Component>)
    requires TtlRows(items) && 0 <= i < |items|
    requires w.Model() == before.(toAdd := before.toAdd + TtlAdds(items[..i], dt),
                                  toDelete := before.toDelete + TtlDeletes(items[..i]))
    modifies w
    ensures w.Model() == before.(toAdd := before.toAdd + TtlAdds(items[..i + 1], dt),
                                 toDelete := before.toDelete + TtlDeletes(items[..i + 1]))
  {
    assert items[..i + 1][..i] == items[..i];
    assert TtlAdds(items[..i + 1], dt) == TtlAdds(items[..i], dt) + [(items[i].0, Countdown(items[i].1[0].seconds, dt))];
    var e, ticks := items[i].0, items[i].1[0].seconds;
    if ticks <= 0.0 {
      w.Unapply(e, [TimeToLiveType]);
      w.Apply(e, [Gone]);
    } else {
      w.Apply(e, [TimeToLive(ticks - dt)]);
    }
  }

  /** `ttl_system`; `dt` is the world's `TIME_DELTA` resource. */
  method TtlSystem(w: GameWorld, dt: real) returns (ghost rows: seq<QueryRow>)
    requires w.Valid() && Typed(w.Contents()) && [TimeToLiveType] in w.keyToEntities
    modifies w
    ensures Listing(rows, old(w.Contents()), [TimeToLiveType]) && TtlRows(rows)
    ensures w.Model() == old(w.Model()).(toAdd := old(w.componentsToAdd) + TtlAdds(rows, dt),
                                         toDelete := old(w.componentsToDelete) + TtlDeletes(rows))
  {
    var items := AllRows(w, [TimeToLiveType]);
    TtlShape(items);
    ghost var before := w.Model();
    assert items[..0] == [];
    for i := 0 to |items|
      invariant w.Model() == before.(toAdd := before.toAdd + TtlAdds(items[..i], dt),
                                     toDelete := before.toDelete + TtlDeletes(items[..i]))
    {
      TtlStep(w, items, i, dt, before);
    }
    assert items[..|items|] == items;
    rows := items;
  }

  /** The removals name only entities that have rows. */
  lemma {:induction false} TtlDeletesLive(rows: seq<QueryRow>, live: set<Entity>)
    requires TtlRows(rows) && forall i :: 0 <= i < |rows| ==> rows[i].0 in live
    ensures forall j :: 0 <= j < |TtlDeletes(rows)| ==> TtlDeletes(rows)[j].0 in live
    decreases |rows|
  {
    if rows != [] {
      TtlDeletesLive(rows[..|rows| - 1], live);
    }
  }

  /** The removals take nothing from an entity without a row. */
  lemma {:induction false} TtlDeletesAbsent(rows: seq<QueryRow>, x: Entity)
    requires TtlRows(rows) && forall j :: 0 <= j < |rows| ==> rows[j].0 != x
    ensures DroppedFrom(TtlDeletes(rows), x) == {}
    decreases |rows|
  {
    if rows != [] {
      var init, last := rows[..|rows| - 1], rows[|rows| - 1];
      TtlDeletesAbsent(init, x);
      if last.1[0].seconds <= 0.0 {
        var tail := [(last.0, [TimeToLiveType])];
        DroppedFromConcat(TtlDeletes(init), tail, x);
        assert tail[..0] == [];
      } else {
        assert TtlDeletes(rows) == TtlDeletes(init) + [];
        assert TtlDeletes(init) + [] == TtlDeletes(init);
      }
    }
  }

  /** The removals take from the entity of row `i`, and of no other row,
      its time-to-live exactly when its time is up. */
  lemma {:induction false} TtlDeletesOnce(rows: seq<QueryRow>, i: int)
    requires TtlRows(rows) && 0 <= i < |rows|
    requires forall j :: 0 <= j < |rows| && j != i ==> rows[j].0 != rows[i].0
    ensures DroppedFrom(TtlDeletes(rows), rows[i].0)
            == if rows[i].1[0].seconds <= 0.0 then {TimeToLiveType} else {}
    decreases |rows|
  {
    var init, last, x := rows[..|rows| - 1], rows[|rows| - 1], rows[i].0;
    var tail: seq<(Entity, seq<ComponentType>)> := if last.1[0].seconds <= 0.0 then [(last.0, [TimeToLiveType])] else [];
    DroppedFromConcat(TtlDeletes(init), tail, x);
    assert tail == [] || tail[..0] == [];
    if i == |rows| - 1 {
      TtlDeletesAbsent(init, x);
      assert KeySet([TimeToLiveType]) == {TimeToLiveType};
    } else {
      TtlDeletesOnce(init, i);
    }
  }

  /** `ttl_system` on the entity of row `i`, once committed. */
  lemma {:induction false} TtlListed(rows: seq<QueryRow>, dt: real, i: int, cs: map<ComponentType, Component>)
    requires TtlRows(rows) && Distinct(rows) && 0 <= i < |rows|
    requires TimeToLiveType in cs && cs[TimeToLiveType] == rows[i].1[0]
    ensures Upsert(cs - DroppedFrom(TtlDeletes(rows), rows[i].0), AddedTo(TtlAdds(rows, dt), rows[i].0), TypeOf)
            == Aged(cs, dt)
  {
    var x, adds := rows[i].0, TtlAdds(rows, dt);
    OnlyRow(rows, i);
    TtlDeletesOnce(rows, i);
    AddedToOnce(adds, i);
    TtlBatchAged(cs, rows[i].1[0].seconds, dt);
  }

  /** The removal and the addition of one countdown age the entity. */
  lemma {:induction false} TtlBatchAged(cs: map<ComponentType, Component>, ticks: real, dt: real)
    requires TimeToLiveType in cs && cs[TimeToLiveType] == TimeToLive(ticks)
    ensures var dropped: set<ComponentType> := if ticks <= 0.0 then {TimeToLiveType} else {};
      Upsert(cs - dropped, Countdown(ticks, dt), TypeOf) == Aged(cs, dt)
  {
    if ticks <= 0.0 {
      UpsertOne(cs - {TimeToLiveType}, Gone);
    } else {
      UpsertOne(cs - {}, TimeToLive(ticks - dt));
      assert cs - {} == cs;
    }
  }

  /** `ttl_system` on an entity without a row, once committed. */
  lemma {:induction false} TtlUnlisted(rows: seq<QueryRow>, dt: real, x: Entity, cs: map<ComponentType, Component>)
    requires TtlRows(rows) && TimeToLiveType !in cs
    requires forall j :: 0 <= j < |rows| ==> rows[j].0 != x
    ensures Upsert(cs - DroppedFrom(TtlDeletes(rows), x), AddedTo(TtlAdds(rows, dt), x), TypeOf) == Aged(cs, dt)
  {
    TtlDeletesAbsent(rows, x);
    AddedToAbsent(TtlAdds(rows, dt), x);
    assert cs - {} == cs;
  }

  /** `ttl_system`, entity by entity, once committed. */
  lemma {:induction false} TtlEntity(s: Store<ComponentType, Component>, next: int, rows: seq<QueryRow>, dt: real, x: Entity)
    requires Inv(s, next) && Listing(rows, s, [TimeToLiveType]) && TtlRows(rows)
    requires x in s.components
    ensures Upsert(s.components[x] - DroppedFrom(TtlDeletes(rows), x), AddedTo(TtlAdds(rows, dt), x), TypeOf)
            == Aged(s.components[x], dt)
  {
    var cs := s.components[x];
    HoldersListed(s, next, rows, TimeToLiveType, x);
    if TimeToLiveType in cs {
      var i :| 0 <= i < |rows| && rows[i].0 == x;
      assert Row(s, [TimeToLiveType], x) == Ok(rows[i].1);
      TtlListed(rows, dt, i, cs);
    } else {
      forall j | 0 <= j < |rows|
        ensures rows[j].0 != x
      {
        assert rows[j].0 in Listed(rows);
      }
      TtlUnlisted(rows, dt, x, cs);
    }
  }

  /** A world that runs only `ttl_system` and commits: every entity whose
      time was up has lost its time-to-live and is `Gone`, every other
      entity with a time-to-live has its time less `dt`, and nothing else
      changes. */
  lemma {:induction false} TtlThenCommit(st: State<ComponentType, Component>, rows: seq<QueryRow>, dt: real)
    requires Inv(st.store, st.next) && Settled(st)
    requires Listing(rows, st.store, [TimeToLiveType]) && TtlRows(rows)
    ensures var r := CommitSpec(st.(toAdd := TtlAdds(rows, dt), toDelete := TtlDeletes(rows)), TypeOf);
      && r.failure.None?
      && r.state.store.components == map x | x in st.store.components :: Aged(st.store.components[x], dt)
  {
    var st' := st.(toAdd := TtlAdds(rows, dt), toDelete := TtlDeletes(rows));
    var cs := st.store.components;
    TtlDeletesLive(rows, cs.Keys);
    CommitNoKills(st', TypeOf);
    forall x | x in cs
      ensures Upsert(cs[x] - DroppedFrom(st'.toDelete, x), AddedTo(st'.toAdd, x), TypeOf) == Aged(cs[x], dt)
    {
      TtlEntity(st.store, st.next, rows, dt, x);
    }
    AgedAll(cs, st'.toDelete, st'.toAdd, dt);
  }

  /** Committing entity by entity what ages each entity ages the whole map. */
  lemma {:induction false} AgedAll(cs: map<Entity, map<ComponentType, Component>>,
      deletes: seq<(Entity, seq<ComponentType>)>, adds: seq<(Entity, seq<Component>)>, dt: real)
    requires forall x :: x in cs ==> Upsert(cs[x] - DroppedFrom(deletes, x), AddedTo(adds, x), TypeOf) == Aged(cs[x], dt)
    ensures (map x | x in cs :: Upsert(cs[x] - DroppedFrom(deletes, x), AddedTo(adds, x), TypeOf))
            == (map x | x in cs :: Aged(cs[x], dt))
  {
  }

  // ---------------------------------------------------------------- remove_gone_system

  /** `remove_gone_system`: a kill for every `Gone` entity. */
  method RemoveGoneSystem(w: GameWorld) returns (ghost rows: seq<QueryRow>)
    requires w.Valid() && Typed(w.Contents()) && [GoneType] in w.keyToEntities
    modifies w
    ensures Listing(rows, old(w.Contents()), [GoneType])
    ensures w.Model() == old(w.Model()).(toKill := old(w.entitiesToDelete) + Entities(rows))
  {
    var items := AllRows(w, [GoneType]);
    rows := items;
    ghost var before := w.Model();
    for i := 0 to |items|
      invariant w.Model() == before.(toKill := before.toKill + Entities(items[..i]))
    {
      KillStep(w, items, i, before);
    }
    assert items[..|items|] == items;
  }

  /** `world.kill(e)` for the entity of row `i`. */
  method KillStep(w: GameWorld, items: seq<QueryRow>, i: int, ghost before: State<ComponentType, Component>)
    requires 0 <= i < |items|
    requires w.Model() == before.(toKill := before.toKill + Entities(items[..i]))
    modifies w
    ensures w.Model() == before.(toKill := before.toKill + Entities(items[..i + 1]))
  {
    EntitiesSnoc(items, i);
    w.Kill(items[i].0);
  }

  /** One more row is one more entity. */
  lemma {:induction false} EntitiesSnoc(items: seq<QueryRow>, i: int)
    requires 0 <= i < |items|
    ensures Entities(items[..i + 1]) == Entities(items[..i]) + [items[i].0]
  {
    assert Entities(items[..i + 1])[i] == items[i].0;
  }

  /** The entities of the rows of a one-type query are exactly the entities
      holding that type. */
  lemma {:induction false} EntitiesHolding(s: Store<ComponentType, Component>, next: int, rows: seq<QueryRow>,
      t: ComponentType, x: Entity)
    requires Inv(s, next) && Listing(rows, s, [t]) && x in s.components
    ensures x in Entities(rows) <==> t in s.components[x]
  {
    HoldersListed(s, next, rows, t, x);
    if x in Listed(rows) {
      var i :| 0 <= i < |rows| && rows[i].0 == x;
      assert Entities(rows)[i] == x;
    }
    if x in Entities(rows) {
      var i :| 0 <= i < |Entities(rows)| && Entities(rows)[i] == x;
      assert rows[i].0 in Listed(rows);
    }
  }

  /** A world that runs only `remove_gone_system` and commits: exactly the
      `Gone` entities are dead, and the others keep all their components. */
  lemma {:induction false} RemoveGoneThenCommit(st: State<ComponentType, Component>, rows: seq<QueryRow>)
    requires Inv(st.store, st.next) && Settled(st) && Listing(rows, st.store, [GoneType])
    ensures var r := CommitSpec(st.(toKill := Entities(rows)), TypeOf);
      && r.failure.None?
      && r.state.store.components
         == map x | x in st.store.components && GoneType !in st.store.components[x] :: st.store.components[x]
  {
    var q, cs := Entities(rows), st.store.components;
    ListedKillable(st.store, [GoneType], rows);
    CommitOnlyKills(st.(toKill := q), TypeOf);
    forall x | x in cs
      ensures x in q <==> GoneType in cs[x]
    {
      EntitiesHolding(st.store, st.next, rows, GoneType, x);
    }
    GoneSurvivors(cs, q);
  }

  /** The entities of a listing are live and named once each. */
  lemma {:induction false} ListedKillable(s: Store<ComponentType, Component>, key: Key<ComponentType>, rows: seq<QueryRow>)
    requires Listing(rows, s, key)
    ensures var q := Entities(rows);
      && (forall i :: 0 <= i < |q| ==> q[i] in s.components)
      && (forall i, j :: 0 <= i < j < |q| ==> q[i] != q[j])
  {
    var q := Entities(rows);
    forall i | 0 <= i < |q|
      ensures q[i] in s.components
    {
      assert Row(s, key, rows[i].0) == Ok(rows[i].1);
    }
  }

  /** Leaving out the killed entities is leaving out the `Gone` ones. */
  lemma {:induction false} GoneSurvivors(cs: map<Entity, map<ComponentType, Component>>, q: seq<Entity>)
    requires forall x :: x in cs ==> (x in q <==> GoneType in cs[x])
    ensures (map x | x in cs && x !in q :: cs[x]) == (map x | x in cs && GoneType !in cs[x] :: cs[x])
  {
  }

  // ---------------------------------------------------------------- clear_notifications_system, remove_collisions_system

  /** `((e, [t]) for e, _ in rows)`. */
  function Unapplications(rows: seq<QueryRow>, t: ComponentType): (q: seq<(Entity, seq<ComponentType>)>)
    ensures |q| == |rows| && forall i :: 0 <= i < |rows| ==> q[i] == (rows[i].0, [t])
  {
    seq(|rows|, i requires 0 <= i < |rows| => (rows[i].0, [t]))
  }

  /** Such a queue drops `t` from exactly the listed entities. */
  lemma {:induction false} UnapplicationsDrop(rows: seq<QueryRow>, t: ComponentType, x: Entity)
    ensures DroppedFrom(Unapplications(rows, t), x) == if x in Listed(rows) then {t} else {}
    decreases |rows|
  {
    if rows != [] {
      var init, last := rows[..|rows| - 1], rows[|rows| - 1];
      UnapplicationsDrop(init, t, x);
      assert Unapplications(rows, t)[..|rows| - 1] == Unapplications(init, t);
      assert rows == init + [last];
      ListedAppend(init, last.0, last.1);
    }
  }

  /** `clear_notifications_system`. */
  method ClearNotificationsSystem(w: GameWorld) returns (ghost healths: seq<QueryRow>, ghost scores: seq<QueryRow>, ghost newborns: seq<QueryRow>)
    requires w.Valid() && Typed(w.Contents())
    requires [HealthNotificationType] in w.keyToEntities && [ScoreNotificationType] in w.keyToEntities
    requires [FreshType] in w.keyToEntities
    modifies w
    ensures Listing(healths, old(w.Contents()), [HealthNotificationType])
    ensures Listing(scores, old(w.Contents()), [ScoreNotificationType])
    ensures Listing(newborns, old(w.Contents()), [FreshType])
    ensures w.Model() == old(w.Model()).(toDelete := old(w.componentsToDelete)
      + Unapplications(healths, HealthNotificationType)
      + Unapplications(scores, ScoreNotificationType)
      + Unapplications(newborns, FreshType))
  {
    var hs := AllRows(w, [HealthNotificationType]);
    w.UnapplyMany(Unapplications(hs, HealthNotificationType));
    var ss := AllRows(w, [ScoreNotificationType]);
    w.UnapplyMany(Unapplications(ss, ScoreNotificationType));
    var ns := AllRows(w, [FreshType]);
    w.UnapplyMany(Unapplications(ns, FreshType));
    healths, scores, newborns := hs, ss, ns;
  }

  /** One entity after the three removal queues of
      `clear_notifications_system` are committed, given what each queue drops
      from it. */
  lemma {:induction false} ClearedEntity(cs: map<ComponentType, Component>,
      q1: seq<(Entity, seq<ComponentType>)>, q2: seq<(Entity, seq<ComponentType>)>,
      q3: seq<(Entity, seq<ComponentType>)>, x: Entity)
    requires DroppedFrom(q1, x) == if HealthNotificationType in cs then {HealthNotificationType} else {}
    requires DroppedFrom(q2, x) == if ScoreNotificationType in cs then {ScoreNotificationType} else {}
    requires DroppedFrom(q3, x) == if FreshType in cs then {FreshType} else {}
    ensures cs - DroppedFrom(q1 + q2 + q3, x) == cs - {HealthNotificationType, ScoreNotificationType, FreshType}
  {
    DroppedFromConcat(q1 + q2, q3, x);
    DroppedFromConcat(q1, q2, x);
    MinusAbsent(cs, DroppedFrom(q1, x) + DroppedFrom(q2, x) + DroppedFrom(q3, x),
                {HealthNotificationType, ScoreNotificationType, FreshType});
  }

  /** The removal queue built from the listing of type `t` drops `t` from an
      entity exactly when the entity holds it. */
  lemma {:induction false} HolderDropped(s: Store<ComponentType, Component>, next: int,
      rows: seq<QueryRow>, t: ComponentType, x: Entity)
    requires Inv(s, next) && Listing(rows, s, [t]) && x in s.components
    ensures DroppedFrom(Unapplications(rows, t), x) == if t in s.components[x] then {t} else {}
  {
    UnapplicationsDrop(rows, t, x);
    HoldersListed(s, next, rows, t, x);
  }

  /** The queue of `clear_notifications_system` names live entities only. */
  lemma {:induction false} ClearedLive(s: Store<ComponentType, Component>,
      healths: seq<QueryRow>, scores: seq<QueryRow>, newborns: seq<QueryRow>)
    requires Listing(healths, s, [HealthNotificationType])
    requires Listing(scores, s, [ScoreNotificationType])
    requires Listing(newborns, s, [FreshType])
    ensures var q := Unapplications(healths, HealthNotificationType)
                     + Unapplications(scores, ScoreNotificationType)
                     + Unapplications(newborns, FreshType);
      forall i :: 0 <= i < |q| ==> q[i].0 in s.components
  {
    var q1, q2, q3 := Unapplications(healths, HealthNotificationType),
                      Unapplications(scores, ScoreNotificationType),
                      Unapplications(newborns, FreshType);
    forall i | 0 <= i < |q1 + q2 + q3|
      ensures (q1 + q2 + q3)[i].0 in s.components
    {
      if i < |q1| {
        assert (q1 + q2 + q3)[i].0 == healths[i].0;
      } else if i < |q1| + |q2| {
        assert (q1 + q2 + q3)[i].0 == scores[i - |q1|].0;
      } else {
        assert (q1 + q2 + q3)[i].0 == newborns[i - |q1| - |q2|].0;
      }
    }
  }

  /** A world that runs only `clear_notifications_system` and commits: every
      entity has lost its health and score notifications and its `Fresh`
      mark, and nothing else. */
  lemma {:induction false} ClearNotificationsThenCommit(st: State<ComponentType, Component>,
      healths: seq<QueryRow>, scores: seq<QueryRow>, newborns: seq<QueryRow>)
    requires Inv(st.store, st.next) && Settled(st)
    requires Listing(healths, st.store, [HealthNotificationType])
    requires Listing(scores, st.store, [ScoreNotificationType])
    requires Listing(newborns, st.store, [FreshType])
    ensures var q := Unapplications(healths, HealthNotificationType)
                     + Unapplications(scores, ScoreNotificationType)
                     + Unapplications(newborns, FreshType);
      var r := CommitSpec(st.(toDelete := q), TypeOf);
      && r.failure.None?
      && r.state.store.components
         == map x | x in st.store.components
              :: st.store.components[x] - {HealthNotificationType, ScoreNotificationType, FreshType}
  {
    var q := Unapplications(healths, HealthNotificationType)
             + Unapplications(scores, ScoreNotificationType)
             + Unapplications(newborns, FreshType);
    var q1, q2, q3 := Unapplications(healths, HealthNotificationType),
                      Unapplications(scores, ScoreNotificationType),
                      Unapplications(newborns, FreshType);
    var cs := st.store.components;
    ClearedLive(st.store, healths, scores, newborns);
    CommitOnlyDeletes(st.(toDelete := q), TypeOf);
    forall x | x in cs
      ensures cs[x] - DroppedFrom(q, x) == cs[x] - {HealthNotificationType, ScoreNotificationType, FreshType}
    {
      HolderDropped(st.store, st.next, healths, HealthNotificationType, x);
      HolderDropped(st.store, st.next, scores, ScoreNotificationType, x);
      HolderDropped(st.store, st.next, newborns, FreshType, x);
      ClearedEntity(cs[x], q1, q2, q3, x);
    }
    ClearedAll(cs, q, {HealthNotificationType, ScoreNotificationType, FreshType});
  }

  /** Taking from each entity the types the queue names for it is taking the
      same set `ts` from every entity. */
  lemma {:induction false} ClearedAll(cs: map<Entity, map<ComponentType, Component>>,
                                     q: seq<(Entity, seq<ComponentType>)>, ts: set<ComponentType>)
    requires forall x :: x in cs ==> cs[x] - DroppedFrom(q, x) == cs[x] - ts
    ensures (map x | x in cs :: cs[x] - DroppedFrom(q, x)) == (map x | x in cs :: cs[x] - ts)
  {
  }

  /** `remove_collisions_system`. */
  method RemoveCollisionsSystem(w: GameWorld) returns (ghost rows: seq<QueryRow>)
    requires w.Valid() && Typed(w.Contents()) && [CollisionsType] in w.keyToEntities
    modifies w
    ensures Listing(rows, old(w.Contents()), [CollisionsType])
    ensures w.Model() == old(w.Model()).(toDelete := old(w.componentsToDelete) + Unapplications(rows, CollisionsType))
  {
    var items := AllRows(w, [CollisionsType]);
    w.UnapplyMany(Unapplications(items, CollisionsType));
    rows := items;
  }

  /** A world that runs only `remove_collisions_system` and commits: no
      entity has `Collisions` any more, and nothing else changed. */
  lemma {:induction false} RemoveCollisionsThenCommit(st: State<ComponentType, Component>, rows: seq<QueryRow>)
    requires Inv(st.store, st.next) && Settled(st) && Listing(rows, st.store, [CollisionsType])
    ensures var r := CommitSpec(st.(toDelete := Unapplications(rows, CollisionsType)), TypeOf);
      && r.failure.None?
      && r.state.store.components
         == map x | x in st.store.components :: st.store.components[x] - {CollisionsType}
  {
    var st' := st.(toDelete := Unapplications(rows, CollisionsType));
    var cs := st.store.components;
    CommitOnlyDeletes(st', TypeOf);
    forall x | x in cs
      ensures cs[x] - DroppedFrom(st'.toDelete, x) == cs[x] - {CollisionsType}
    {
      HolderDropped(st.store, st.next, rows, CollisionsType, x);
      MinusAbsent(cs[x], DroppedFrom(st'.toDelete, x), {CollisionsType});
    }
    ClearedAll(cs, st'.toDelete, {CollisionsType});
  }

  // ---------------------------------------------------------------- apply_score_system

  /** No entity other than row `i`'s has row `i`'s entity. */
  lemma {:induction false} OnlyRow(rows: seq<QueryRow>, i: int)
    requires Distinct(rows) && 0 <= i < |rows|
    ensures forall j :: 0 <= j < |rows| && j != i ==> rows[j].0 != rows[i].0
  {
    forall j | 0 <= j < |rows| && j != i
      ensures rows[j].0 != rows[i].0
    {
      if j < i {
        assert rows[j].0 != rows[i].0;
      } else {
        assert rows[i].0 != rows[j].0;
      }
    }
  }

  /** An entity the index does not list under `key` has no row. */
  lemma {:induction false} Unlisted(rows: seq<QueryRow>, s: Store<ComponentType, Component>, key: Key<ComponentType>, x: Entity)
    requires Listing(rows, s, key) && x !in s.index[key]
    ensures forall j :: 0 <= j < |rows| ==> rows[j].0 != x
  {
    forall j | 0 <= j < |rows|
      ensures rows[j].0 != x
    {
      assert rows[j].0 in Listed(rows);
    }
  }

  /** What `apply_score_system` stores on the entity of a row, if anything. */
  function ScoreBatch(row: QueryRow): Option<seq<Component>> {
    if |row.1| == 1 && row.1[0].Score? && row.1[0].queue != [] then
      var delta := Sum(row.1[0].queue);
      Some([Score(row.1[0].points + delta, []), ScoreNotification(delta, row.1[0].points + delta)])
    else
      None
  }

  /** The additions `apply_score_system` queues, in row order. */
  function ScoreAdds(rows: seq<QueryRow>): seq<(Entity, seq<Component>)>
    decreases |rows|
  {
    if rows == [] then
      []
    else
      var last := rows[|rows| - 1];
      ScoreAdds(rows[..|rows| - 1]) + if ScoreBatch(last).Some? then [(last.0, ScoreBatch(last).value)] else []
  }

  /** What one tick of `apply_score_system` does to an entity's components:
      a pending score change is summed into the points and announced. */
  function Scored(cs: map<ComponentType, Component>): map<ComponentType, Component> {
    if ScoreType in cs && cs[ScoreType].Score? && cs[ScoreType].queue != [] then
      var delta := Sum(cs[ScoreType].queue);
      var points := cs[ScoreType].points + delta;
      cs[ScoreType := Score(points, [])][ScoreNotificationType := ScoreNotification(delta, points)]
    else
      cs
  }

  /** The body of the loop of `apply_score_system`, for row `i`. */
  method ScoreStep(w: GameWorld, items: seq<QueryRow>, i: int, ghost before: State<ComponentType, Component>)
    requires 0 <= i < |items| && |items[i].1| == 1 && items[i].1[0].Score?
    requires w.Model() == before.(toAdd := before.toAdd + ScoreAdds(items[..i]))
    modifies w
    ensures w.Model() == before.(toAdd := before.toAdd + ScoreAdds(items[..i + 1]))
  {
    assert items[..i + 1][..i] == items[..i];
    var e, score := items[i].0, items[i].1[0];
    if score.queue != [] {
      var delta := Sum(score.queue);
      var points := score.points + delta;
      w.Apply(e, [Score(points, []), ScoreNotification(delta, points)]);
    } else {
      assert ScoreAdds(items[..i + 1]) == ScoreAdds(items[..i]) + [];
    }
  }

  /** `apply_score_system`. */
  method ApplyScoreSystem(w: GameWorld) returns (ghost rows: seq<QueryRow>)
    requires w.Valid() && Typed(w.Contents()) && [ScoreType] in w.keyToEntities
    modifies w
    ensures Listing(rows, old(w.Contents()), [ScoreType])
    ensures w.Model() == old(w.Model()).(toAdd := old(w.componentsToAdd) + ScoreAdds(rows))
  {
    var items := AllRows(w, [ScoreType]);
    ScoreLoop(w, items);
    rows := items;
  }

  /** The loop of `apply_score_system` over the rows of `Query[Score]`. */
  method ScoreLoop(w: GameWorld, items: seq<QueryRow>)
    requires Shaped(items, [ScoreType])
    modifies w
    ensures w.Model() == old(w.Model()).(toAdd := old(w.componentsToAdd) + ScoreAdds(items))
  {
    ghost var before := w.Model();
    assert items[..0] == [];
    for i := 0 to |items|
      invariant w.Model() == before.(toAdd := before.toAdd + ScoreAdds(items[..i]))
    {
      assert TypeOf(items[i].1[0]) == ScoreType;
      TypeTells(items[i].1[0]);
      ScoreStep(w, items, i, before);
    }
    assert items[..|items|] == items;
  }

  lemma {:induction false} ScoreAddsLive(rows: seq<QueryRow>, live: set<Entity>)
    requires forall i :: 0 <= i < |rows| ==> rows[i].0 in live
    ensures forall j :: 0 <= j < |ScoreAdds(rows)| ==> ScoreAdds(rows)[j].0 in live
    decreases |rows|
  {
    if rows != [] {
      ScoreAddsLive(rows[..|rows| - 1], live);
    }
  }

  lemma {:induction false} ScoreAddsAbsent(rows: seq<QueryRow>, x: Entity)
    requires forall j :: 0 <= j < |rows| ==> rows[j].0 != x
    ensures AddedTo(ScoreAdds(rows), x) == []
    decreases |rows|
  {
    if rows != [] {
      var init, last := rows[..|rows| - 1], rows[|rows| - 1];
      ScoreAddsAbsent(init, x);
      if ScoreBatch(last).Some? {
        var tail := [(last.0, ScoreBatch(last).value)];
        AddedToConcat(ScoreAdds(init), tail, x);
        assert tail[..0] == [];
      } else {
        assert ScoreAdds(rows) == ScoreAdds(init) + [];
        assert ScoreAdds(init) + [] == ScoreAdds(init);
      }
    }
  }

  lemma {:induction false} ScoreAddsOnce(rows: seq<QueryRow>, i: int)
    requires 0 <= i < |rows|
    requires forall j :: 0 <= j < |rows| && j != i ==> rows[j].0 != rows[i].0
    ensures AddedTo(ScoreAdds(rows), rows[i].0) == if ScoreBatch(rows[i]).Some? then ScoreBatch(rows[i]).value else []
    decreases |rows|
  {
    var init, last, x := rows[..|rows| - 1], rows[|rows| - 1], rows[i].0;
    var tail: seq<(Entity, seq<Component>)> := if ScoreBatch(last).Some? then [(last.0, ScoreBatch(last).value)] else [];
    AddedToConcat(ScoreAdds(init), tail, x);
    assert tail == [] || tail[..0] == [];
    if i == |rows| - 1 {
      ScoreAddsAbsent(init, x);
    } else {
      ScoreAddsOnce(init, i);
      assert AddedTo(ScoreAdds(init), x) + [] == AddedTo(ScoreAdds(init), x);
    }
  }

  /** `apply_score_system` on the entity of row `i`, once committed. */
  lemma {:induction false} ScoreListed(rows: seq<QueryRow>, i: int, cs: map<ComponentType, Component>)
    requires Distinct(rows) && 0 <= i < |rows|
    requires ScoreType in cs && rows[i].1 == [cs[ScoreType]]
    ensures Upsert(cs, AddedTo(ScoreAdds(rows), rows[i].0), TypeOf) == Scored(cs)
  {
    OnlyRow(rows, i);
    ScoreAddsOnce(rows, i);
    if cs[ScoreType].Score? && cs[ScoreType].queue != [] {
      var delta := Sum(cs[ScoreType].queue);
      var points := cs[ScoreType].points + delta;
      UpsertTwo(cs, Score(points, []), ScoreNotification(delta, points));
    }
  }

  /** `apply_score_system`, entity by entity, once committed. */
  lemma {:induction false} ScoreEntity(s: Store<ComponentType, Component>, next: int, rows: seq<QueryRow>, x: Entity)
    requires Inv(s, next) && Listing(rows, s, [ScoreType]) && x in s.components
    ensures Upsert(s.components[x], AddedTo(ScoreAdds(rows), x), TypeOf) == Scored(s.components[x])
  {
    var cs := s.components[x];
    HoldersListed(s, next, rows, ScoreType, x);
    if ScoreType in cs {
      var i :| 0 <= i < |rows| && rows[i].0 == x;
      assert Row(s, [ScoreType], x) == Ok(rows[i].1);
      ScoreListed(rows, i, cs);
    } else {
      Unlisted(rows, s, [ScoreType], x);
      ScoreAddsAbsent(rows, x);
    }
  }

  /** A world that runs only `apply_score_system` and commits: every entity
      with pending score changes has them summed into its points and carries
      a notification of the change; nothing else changes. */
  lemma {:induction false} ScoreThenCommit(st: State<ComponentType, Component>, rows: seq<QueryRow>)
    requires Inv(st.store, st.next) && Settled(st) && Listing(rows, st.store, [ScoreType])
    ensures var r := CommitSpec(st.(toAdd := ScoreAdds(rows)), TypeOf);
      && r.failure.None?
      && r.state.store.components == map x | x in st.store.components :: Scored(st.store.components[x])
  {
    var st' := st.(toAdd := ScoreAdds(rows));
    ScoreAddsLive(rows, st.store.components.Keys);
    CommitOnlyAdds(st', TypeOf);
    var after := CommitSpec(st', TypeOf).state.store.components;
    forall x | x in st.store.components
      ensures after[x] == Scored(st.store.components[x])
    {
      ScoreEntity(st.store, st.next, rows, x);
    }
  }

  /** `n` ones. */
  function Ones(n: nat): (q: seq<int>)
    ensures |q| == n && forall i :: 0 <= i < n ==> q[i] == 1
  {
    seq(n, _ => 1)
  }

  lemma {:induction false} SumConcat(a: seq<int>, b: seq<int>)
    ensures Sum(a + b) == Sum(a) + Sum(b)
    decreases |b|
  {
    if b == [] {
      assert a + b == a;
    } else {
      SumConcat(a, b[..|b| - 1]);
      assert (a + b)[..|a + b| - 1] == a + b[..|b| - 1];
    }
  }

  lemma {:induction false} SumOnes(n: nat)
    ensures Sum(Ones(n)) == n
    decreases n
  {
    if n > 0 {
      SumOnes(n - 1);
      assert Ones(n)[..n - 1] == Ones(n - 1);
    }
  }

  /** A score whose queue gained `n` credits gains `n` points at the next
      `apply_score_system`, on top of the changes already queued. */
  lemma {:induction false} CreditsScore(cs: map<ComponentType, Component>, points: int, queue: seq<int>, n: nat)
    requires n > 0
    ensures var r := Scored(cs[ScoreType := Score(points, queue + Ones(n))]);
      && r[ScoreType] == Score(points + Sum(queue) + n, [])
      && r[ScoreNotificationType] == ScoreNotification(Sum(queue) + n, points + Sum(queue) + n)
  {
    SumConcat(queue, Ones(n));
    SumOnes(n);
  }

  // ---------------------------------------------------------------- apply_health_system

  /** A row of `Query[Player, Health]` for the player with id `k`. */
  predicate HasId(row: QueryRow, k: int) {
    |row.1| > 0 && row.1[0].Player? && row.1[0].id == k
  }

  /** `{player.id: e for e, player, _ in players.all()}`. */
  function PlayerIds(rows: seq<QueryRow>): map<int, Entity>
    decreases |rows|
  {
    if rows == [] then
      map[]
    else
      var last := rows[|rows| - 1];
      var ids := PlayerIds(rows[..|rows| - 1]);
      if |last.1| > 0 && last.1[0].Player? then ids[last.1[0].id := last.0] else ids
  }

  /** An id maps to the entity of the last row that carries it. */
  lemma {:induction false} PlayerIdsLast(rows: seq<QueryRow>, k: int, i: int)
    requires 0 <= i < |rows| && HasId(rows[i], k)
    requires forall j :: i < j < |rows| ==> !HasId(rows[j], k)
    ensures k in PlayerIds(rows) && PlayerIds(rows)[k] == rows[i].0
    decreases |rows|
  {
    var init, n := rows[..|rows| - 1], |rows| - 1;
    if i < n {
      assert !HasId(rows[n], k);
      forall j | i < j < |init|
        ensures !HasId(init[j], k)
      {
        assert init[j] == rows[j];
      }
      PlayerIdsLast(init, k, i);
    }
  }

  /** An id no row carries is not mapped. */
  lemma {:induction false} PlayerIdsAbsent(rows: seq<QueryRow>, k: int)
    requires forall i :: 0 <= i < |rows| ==> !HasId(rows[i], k)
    ensures k !in PlayerIds(rows)
    decreases |rows|
  {
    if rows != [] {
      var init := rows[..|rows| - 1];
      assert !HasId(rows[|rows| - 1], k);
      forall j | 0 <= j < |init|
        ensures !HasId(init[j], k)
      {
        assert init[j] == rows[j];
      }
      PlayerIdsAbsent(init, k);
    }
  }

  /** What `apply_health_system` stores on the entity of a row, if anything;
      `corpses` are the entities listed under `Gone`. */
  function HealthBatch(row: QueryRow, corpses: set<Entity>): Option<seq<Component>> {
    if |row.1| == 2 && row.1[1].Health? && row.0 !in corpses then
      var delta := Sum(row.1[1].queue);
      var hp := row.1[1].points + delta;
      if hp <= 0 then Some([Health(0, []), Gone])
      else if row.1[1].queue != [] then Some([Health(hp, []), HealthNotification(delta, hp)])
      else None
    else
      None
  }

  /** The additions `apply_health_system` queues, in row order. */
  function HealthAdds(rows: seq<QueryRow>, corpses: set<Entity>): seq<(Entity, seq<Component>)>
    decreases |rows|
  {
    if rows == [] then
      []
    else
      var last := rows[|rows| - 1];
      var batch := HealthBatch(last, corpses);
      HealthAdds(rows[..|rows| - 1], corpses) + if batch.Some? then [(last.0, batch.value)] else []
  }

  /** The entity whose score a row credits: the player died this tick, its
      last damage came from a player id other than 0, that id has a row, and
      that row's entity has a score (`scorers`). */
  function Killer(row: QueryRow, corpses: set<Entity>, ids: map<int, Entity>, scorers: set<Entity>): (r: Option<Entity>)
    ensures r.Some? ==> r.value in scorers
  {
    if |row.1| == 2 && row.1[0].Player? && row.1[1].Health? && row.0 !in corpses
       && row.1[1].points + Sum(row.1[1].queue) <= 0
       && row.1[0].lastDamageSource.Some? && row.1[0].lastDamageSource.value != 0
       && row.1[0].lastDamageSource.value in ids && ids[row.1[0].lastDamageSource.value] in scorers
    then
      Some(ids[row.1[0].lastDamageSource.value])
    else
      None
  }

  /** The entities credited, one entry per kill, in row order. */
  function Killers(rows: seq<QueryRow>, corpses: set<Entity>, ids: map<int, Entity>, scorers: set<Entity>): (ks: seq<Entity>)
    ensures forall j :: 0 <= j < |ks| ==> ks[j] in scorers
    decreases |rows|
  {
    if rows == [] then
      []
    else
      var last := rows[|rows| - 1];
      var k := Killer(last, corpses, ids, scorers);
      Killers(rows[..|rows| - 1], corpses, ids, scorers) + if k.Some? then [k.value] else []
  }

  /** `score.modify_queue.append(1)` on the score component itself. */
  function Credited(c: Component): (r: Component)
    ensures TypeOf(r) == TypeOf(c)
  {
    if c.Score? then Score(c.points, c.queue + [1]) else c
  }

  /** A score with `n` more credits. */
  function Credits(c: Component, n: nat): Component {
    if c.Score? then Score(c.points, c.queue + Ones(n)) else c
  }

  /** The store after crediting each of `ks` in turn; the lists of the score
      components are updated in place, so the store changes at once. */
  function CreditAll(s: Store<ComponentType, Component>, ks: seq<Entity>): (r: Store<ComponentType, Component>)
    ensures r.index == s.index && r.entityKeys == s.entityKeys && r.components.Keys == s.components.Keys
    decreases |ks|
  {
    if ks == [] then s else TweakOp(CreditAll(s, ks[..|ks| - 1]), ks[|ks| - 1], ScoreType, Credited)
  }

  lemma {:induction false} MultisetLast(ks: seq<Entity>, x: Entity)
    requires ks != []
    ensures multiset(ks)[x] == multiset(ks[..|ks| - 1])[x] + if ks[|ks| - 1] == x then 1 else 0
  {
    assert ks == ks[..|ks| - 1] + [ks[|ks| - 1]];
  }

  /** An entity's components after `n` credits. */
  function CreditedMap(cs: map<ComponentType, Component>, n: nat): map<ComponentType, Component> {
    if ScoreType in cs then cs[ScoreType := Credits(cs[ScoreType], n)] else cs
  }

  lemma {:induction false} CreditedMapZero(cs: map<ComponentType, Component>)
    ensures CreditedMap(cs, 0) == cs
  {
    if ScoreType in cs {
      var c := cs[ScoreType];
      assert c.Score? ==> c.queue + Ones(0) == c.queue;
      assert cs[ScoreType := c] == cs;
    }
  }

  lemma {:induction false} CreditedMapNext(cs: map<ComponentType, Component>, n: nat)
    ensures var m := CreditedMap(cs, n);
      (if ScoreType in m then m[ScoreType := Credited(m[ScoreType])] else m) == CreditedMap(cs, n + 1)
  {
    if ScoreType in cs {
      var c := cs[ScoreType];
      if c.Score? {
        assert c.queue + Ones(n) + [1] == c.queue + Ones(n + 1);
      }
    }
  }

  /** One credit, seen from entity `x`. */
  lemma {:induction false} CreditAt(s: Store<ComponentType, Component>, k: Entity, x: Entity)
    requires x in s.components
    ensures var m := s.components[x];
      TweakOp(s, k, ScoreType, Credited).components[x]
      == if k == x && ScoreType in m then m[ScoreType := Credited(m[ScoreType])] else m
  {
  }

  /** Crediting touches scores only: each entity with a score has gained one
      credit per time it occurs in `ks`. */
  lemma {:induction false} CreditAllEntity(s: Store<ComponentType, Component>, ks: seq<Entity>, x: Entity)
    requires x in s.components
    ensures CreditAll(s, ks).components[x] == CreditedMap(s.components[x], multiset(ks)[x])
    decreases |ks|
  {
    var cs := s.components[x];
    if ks == [] {
      CreditedMapZero(cs);
    } else {
      var init, k := ks[..|ks| - 1], ks[|ks| - 1];
      CreditAllEntity(s, init, x);
      MultisetLast(ks, x);
      CreditAt(CreditAll(s, init), k, x);
      if k == x {
        CreditedMapNext(cs, multiset(init)[x]);
      }
    }
  }

  /** Crediting keeps the store invariant. */
  lemma {:induction false} CreditAllKeepsInv(s: Store<ComponentType, Component>, next: int, ks: seq<Entity>)
    requires Inv(s, next)
    ensures Inv(CreditAll(s, ks), next)
    decreases |ks|
  {
    if ks != [] {
      CreditAllKeepsInv(s, next, ks[..|ks| - 1]);
      TweakKeepsInv(CreditAll(s, ks[..|ks| - 1]), next, ks[|ks| - 1], ScoreType, Credited);
    }
  }

  /** Crediting keeps every component under its own type. */
  lemma {:induction false} CreditAllKeepsTyped(s: Store<ComponentType, Component>, ks: seq<Entity>)
    requires Typed(s)
    ensures Typed(CreditAll(s, ks))
    decreases |ks|
  {
    if ks != [] {
      CreditAllKeepsTyped(s, ks[..|ks| - 1]);
      assert TypePreserving(Credited);
      TweakOpTyped(CreditAll(s, ks[..|ks| - 1]), ks[|ks| - 1], ScoreType, Credited);
    }
  }

  /** Crediting leaves the rows of a query without `Score` as they were. */
  lemma {:induction false} CreditAllListing(s: Store<ComponentType, Component>, ks: seq<Entity>, rows: seq<QueryRow>, key: Key<ComponentType>)
    requires Listing(rows, s, key) && ScoreType !in key
    ensures Listing(rows, CreditAll(s, ks), key)
  {
    var r := CreditAll(s, ks);
    forall i | 0 <= i < |rows|
      ensures Row(r, key, rows[i].0) == Ok(rows[i].1)
    {
      var x := rows[i].0;
      assert Row(s, key, x) == Ok(rows[i].1);
      CreditAllEntity(s, ks, x);
      var a, b := s.components[x], r.components[x];
      assert KeySet(key) <= a.Keys;
      assert a.Keys == b.Keys;
      assert forall j :: 0 <= j < |key| ==> b[key[j]] == a[key[j]];
      assert Project(b, key).value == Project(a, key).value;
    }
  }

  /** What one tick of `apply_health_system` does to an entity's components:
      a living player whose health falls to zero or below is left with no
      health and `Gone`; one with pending changes has them summed in and
      carries a notification. */
  function Healed(cs: map<ComponentType, Component>): map<ComponentType, Component> {
    if PlayerType in cs && HealthType in cs && GoneType !in cs && cs[HealthType].Health? then
      var delta := Sum(cs[HealthType].queue);
      var hp := cs[HealthType].points + delta;
      if hp <= 0 then cs[HealthType := Health(0, [])][GoneType := Gone]
      else if cs[HealthType].queue != [] then cs[HealthType := Health(hp, [])][HealthNotificationType := HealthNotification(delta, hp)]
      else cs
    else
      cs
  }

  /** `score.modify_queue.append(1)`: the killer's score component changes
      in place, at once, without going through the world's queues. */
  method Credit(w: GameWorld, killer: Entity)
    modifies w
    ensures w.Model() == old(w.Model()).(store := TweakOp(old(w.Contents()), killer, ScoreType, Credited))
  {
    w.entityToComponents := TweakOp(w.Contents(), killer, ScoreType, Credited).components;
  }

  /** The credit branch of `apply_health_system`, for a player that died
      this tick: its killer's score is credited at once, if it has one. */
  method CreditKiller(w: GameWorld, row: QueryRow, ids: map<int, Entity>,
                      ghost corpses: set<Entity>, ghost scorers: set<Entity>)
    requires |row.1| == 2 && row.1[0].Player? && row.1[1].Health? && row.0 !in corpses
    requires row.1[1].points + Sum(row.1[1].queue) <= 0
    requires [ScoreType] in w.keyToEntities && scorers == w.keyToEntities[[ScoreType]]
    modifies w
    ensures var k := Killer(row, corpses, ids, scorers);
      w.Model() == old(w.Model()).(store := if k.Some? then TweakOp(old(w.Contents()), k.value, ScoreType, Credited)
                                            else old(w.Contents()))
  {
    var player := row.1[0];
    if player.lastDamageSource.Some? && player.lastDamageSource.value != 0 {
      var k := player.lastDamageSource.value;
      if k in ids {
        var killer := ids[k];
        if killer in w.keyToEntities[[ScoreType]] {
          Credit(w, killer);
        }
      }
    }
  }

  /** One more row extends the credits and the additions by that row's own. */
  lemma {:induction false} HealthSpecsStep(items: seq<QueryRow>, i: int, corpses: set<Entity>,
                                          ids: map<int, Entity>, scorers: set<Entity>)
    requires 0 <= i < |items|
    ensures var credit := Killer(items[i], corpses, ids, scorers);
      Killers(items[..i + 1], corpses, ids, scorers)
      == Killers(items[..i], corpses, ids, scorers) + if credit.Some? then [credit.value] else []
    ensures var batch := HealthBatch(items[i], corpses);
      HealthAdds(items[..i + 1], corpses)
      == HealthAdds(items[..i], corpses) + if batch.Some? then [(items[i].0, batch.value)] else []
  {
    assert items[..i + 1][..i] == items[..i];
  }

  /** The body of the loop of `apply_health_system`, for row `i`. */
  method HealthStep(w: GameWorld, items: seq<QueryRow>, i: int, ids: map<int, Entity>,
                    ghost before: State<ComponentType, Component>, ghost corpses: set<Entity>, ghost scorers: set<Entity>)
    requires 0 <= i < |items| && |items[i].1| == 2 && items[i].1[0].Player? && items[i].1[1].Health?
    requires [GoneType] in before.store.index && corpses == before.store.index[[GoneType]]
    requires [ScoreType] in before.store.index && scorers == before.store.index[[ScoreType]]
    requires w.Model() == before.(store := CreditAll(before.store, Killers(items[..i], corpses, ids, scorers)),
                                  toAdd := before.toAdd + HealthAdds(items[..i], corpses))
    modifies w
    ensures w.Model() == before.(store := CreditAll(before.store, Killers(items[..i + 1], corpses, ids, scorers)),
                                 toAdd := before.toAdd + HealthAdds(items[..i + 1], corpses))
  {
    HealthSpecsStep(items, i, corpses, ids, scorers);
    ghost var ks, adds := Killers(items[..i], corpses, ids, scorers), HealthAdds(items[..i], corpses);
    ghost var ks1, adds1 := Killers(items[..i + 1], corpses, ids, scorers), HealthAdds(items[..i + 1], corpses);
    ghost var credit := Killer(items[i], corpses, ids, scorers);
    var e, health := items[i].0, items[i].1[1];
    if e !in w.keyToEntities[[GoneType]] {
      var delta := Sum(health.queue);
      var hp := health.points + delta;
      if hp <= 0 {
        w.Apply(e, [Health(0, []), Gone]);
        assert w.Model() == before.(store := CreditAll(before.store, ks), toAdd := before.toAdd + adds1);
        CreditKiller(w, items[i], ids, corpses, scorers);
        if credit.Some? {
          CreditAllSnoc(before.store, ks, credit.value);
        } else {
          assert ks1 == ks;
        }
      } else if health.queue != [] {
        assert ks1 == ks;
        w.Apply(e, [Health(hp, []), HealthNotification(delta, hp)]);
      } else {
        assert ks1 == ks && adds1 == adds;
      }
    } else {
      assert ks1 == ks && adds1 == adds;
    }
  }

  /** One more credit is one more tweak of the credited store. */
  lemma {:induction false} CreditAllSnoc(s: Store<ComponentType, Component>, ks: seq<Entity>, k: Entity)
    ensures CreditAll(s, ks + [k]) == TweakOp(CreditAll(s, ks), k, ScoreType, Credited)
  {
    assert (ks + [k])[..|ks|] == ks;
  }

  /** `apply_health_system`. */
  method ApplyHealthSystem(w: GameWorld) returns (ghost rows: seq<QueryRow>)
    requires w.Valid() && Typed(w.Contents())
    requires [PlayerType, HealthType] in w.keyToEntities
    requires [GoneType] in w.keyToEntities && [ScoreType] in w.keyToEntities
    modifies w
    ensures Listing(rows, old(w.Contents()), [PlayerType, HealthType])
    ensures var corpses, scorers := old(w.keyToEntities)[[GoneType]], old(w.keyToEntities)[[ScoreType]];
      w.Model() == old(w.Model()).(store := CreditAll(old(w.Contents()), Killers(rows, corpses, PlayerIds(rows), scorers)),
                                   toAdd := old(w.componentsToAdd) + HealthAdds(rows, corpses))
  {
    var items := AllRows(w, [PlayerType, HealthType]);
    var ids := PlayerIds(items);
    ghost var before := w.Model();
    ghost var corpses, scorers := w.keyToEntities[[GoneType]], w.keyToEntities[[ScoreType]];
    assert items[..0] == [];
    for i := 0 to |items|
      invariant w.Model() == before.(store := CreditAll(before.store, Killers(items[..i], corpses, ids, scorers)),
                                     toAdd := before.toAdd + HealthAdds(items[..i], corpses))
    {
      assert TypeOf(items[i].1[0]) == PlayerType && TypeOf(items[i].1[1]) == HealthType;
      TypeTells(items[i].1[0]);
      TypeTells(items[i].1[1]);
      HealthStep(w, items, i, ids, before, corpses, scorers);
    }
    assert items[..|items|] == items;
    rows := items;
  }

  lemma {:induction false} HealthAddsLive(rows: seq<QueryRow>, corpses: set<Entity>, live: set<Entity>)
    requires forall i :: 0 <= i < |rows| ==> rows[i].0 in live
    ensures forall j :: 0 <= j < |HealthAdds(rows, corpses)| ==> HealthAdds(rows, corpses)[j].0 in live
    decreases |rows|
  {
    if rows != [] {
      HealthAddsLive(rows[..|rows| - 1], corpses, live);
    }
  }

  lemma {:induction false} HealthAddsAbsent(rows: seq<QueryRow>, corpses: set<Entity>, x: Entity)
    requires forall j :: 0 <= j < |rows| ==> rows[j].0 != x
    ensures AddedTo(HealthAdds(rows, corpses), x) == []
    decreases |rows|
  {
    if rows != [] {
      var init, last := rows[..|rows| - 1], rows[|rows| - 1];
      var batch := HealthBatch(last, corpses);
      HealthAddsAbsent(init, corpses, x);
      if batch.Some? {
        var tail := [(last.0, batch.value)];
        AddedToConcat(HealthAdds(init, corpses), tail, x);
        assert tail[..0] == [];
      } else {
        assert HealthAdds(rows, corpses) == HealthAdds(init, corpses) + [];
        assert HealthAdds(init, corpses) + [] == HealthAdds(init, corpses);
      }
    }
  }

  lemma {:induction false} HealthAddsOnce(rows: seq<QueryRow>, corpses: set<Entity>, i: int)
    requires 0 <= i < |rows|
    requires forall j :: 0 <= j < |rows| && j != i ==> rows[j].0 != rows[i].0
    ensures var batch := HealthBatch(rows[i], corpses);
      AddedTo(HealthAdds(rows, corpses), rows[i].0) == if batch.Some? then batch.value else []
    decreases |rows|
  {
    var init, last, x := rows[..|rows| - 1], rows[|rows| - 1], rows[i].0;
    var batch := HealthBatch(last, corpses);
    var tail: seq<(Entity, seq<Component>)> := if batch.Some? then [(last.0, batch.value)] else [];
    AddedToConcat(HealthAdds(init, corpses), tail, x);
    assert tail == [] || tail[..0] == [];
    if i == |rows| - 1 {
      HealthAddsAbsent(init, corpses, x);
    } else {
      HealthAddsOnce(init, corpses, i);
      assert AddedTo(HealthAdds(init, corpses), x) + [] == AddedTo(HealthAdds(init, corpses), x);
    }
  }

  /** `apply_health_system` on the entity of row `i`, once committed. */
  lemma {:induction false} HealthListed(rows: seq<QueryRow>, corpses: set<Entity>, i: int, cs: map<ComponentType, Component>)
    requires Distinct(rows) && 0 <= i < |rows|
    requires PlayerType in cs && HealthType in cs && rows[i].1 == [cs[PlayerType], cs[HealthType]]
    requires rows[i].0 in corpses <==> GoneType in cs
    ensures Upsert(cs, AddedTo(HealthAdds(rows, corpses), rows[i].0), TypeOf) == Healed(cs)
  {
    OnlyRow(rows, i);
    HealthAddsOnce(rows, corpses, i);
    if GoneType !in cs && cs[HealthType].Health? {
      var delta := Sum(cs[HealthType].queue);
      var hp := cs[HealthType].points + delta;
      if hp <= 0 {
        UpsertTwo(cs, Health(0, []), Gone);
      } else if cs[HealthType].queue != [] {
        UpsertTwo(cs, Health(hp, []), HealthNotification(delta, hp));
      }
    }
  }

  /** Where the two keys `apply_health_system` reads list an entity. */
  lemma {:induction false} HealthIndexed(s: Store<ComponentType, Component>, next: int, x: Entity)
    requires Inv(s, next) && x in s.components
    requires [GoneType] in s.index && [PlayerType, HealthType] in s.index
    ensures x in s.index[[GoneType]] <==> GoneType in s.components[x]
    ensures x in s.index[[PlayerType, HealthType]] <==> PlayerType in s.components[x] && HealthType in s.components[x]
  {
    IndexExact(s, next, [GoneType], x);
    assert KeySet([GoneType]) == {GoneType};
    IndexExact(s, next, [PlayerType, HealthType], x);
    assert KeySet([PlayerType, HealthType]) == {PlayerType, HealthType};
  }

  /** `apply_health_system`, entity by entity, once committed. */
  lemma {:induction false} HealthEntity(s: Store<ComponentType, Component>, next: int, rows: seq<QueryRow>, x: Entity)
    requires Inv(s, next) && Listing(rows, s, [PlayerType, HealthType]) && [GoneType] in s.index
    requires x in s.components
    ensures Upsert(s.components[x], AddedTo(HealthAdds(rows, s.index[[GoneType]]), x), TypeOf) == Healed(s.components[x])
  {
    var cs, corpses := s.components[x], s.index[[GoneType]];
    HealthIndexed(s, next, x);
    if PlayerType in cs && HealthType in cs {
      assert x in Listed(rows);
      var i :| 0 <= i < |rows| && rows[i].0 == x;
      assert Row(s, [PlayerType, HealthType], x) == Ok(rows[i].1);
      HealthListed(rows, corpses, i, cs);
    } else {
      Unlisted(rows, s, [PlayerType, HealthType], x);
      HealthAddsAbsent(rows, corpses, x);
    }
  }

  /** A world whose store lists `rows` and that commits the additions of
      `apply_health_system`: every entity is `Healed`. */
  lemma {:induction false} HealthThenCommit(st: State<ComponentType, Component>, rows: seq<QueryRow>)
    requires Inv(st.store, st.next) && Settled(st)
    requires Listing(rows, st.store, [PlayerType, HealthType]) && [GoneType] in st.store.index
    ensures var r := CommitSpec(st.(toAdd := HealthAdds(rows, st.store.index[[GoneType]])), TypeOf);
      && r.failure.None?
      && r.state.store.components == map x | x in st.store.components :: Healed(st.store.components[x])
  {
    var st' := st.(toAdd := HealthAdds(rows, st.store.index[[GoneType]]));
    HealthAddsLive(rows, st.store.index[[GoneType]], st.store.components.Keys);
    CommitOnlyAdds(st', TypeOf);
    var after := CommitSpec(st', TypeOf).state.store.components;
    forall x | x in st.store.components
      ensures after[x] == Healed(st.store.components[x])
    {
      HealthEntity(st.store, st.next, rows, x);
    }
  }

  /** A world that runs only `apply_health_system` and commits: the store it
      commits already holds the killers' credits, and every entity ends up
      `Healed` on top of those credits. */
  lemma {:induction false} ApplyHealthThenCommit(st: State<ComponentType, Component>, rows: seq<QueryRow>, ks: seq<Entity>)
    requires Inv(st.store, st.next) && Settled(st)
    requires Listing(rows, st.store, [PlayerType, HealthType]) && [GoneType] in st.store.index
    ensures var corpses := st.store.index[[GoneType]];
      var r := CommitSpec(st.(store := CreditAll(st.store, ks), toAdd := HealthAdds(rows, corpses)), TypeOf);
      && r.failure.None?
      && r.state.store.components
         == map x | x in st.store.components :: Healed(CreditedMap(st.store.components[x], multiset(ks)[x]))
  {
    var s1 := CreditAll(st.store, ks);
    CreditAllKeepsInv(st.store, st.next, ks);
    CreditAllListing(st.store, ks, rows, [PlayerType, HealthType]);
    HealthThenCommit(st.(store := s1), rows);
    forall x | x in st.store.components
      ensures s1.components[x] == CreditedMap(st.store.components[x], multiset(ks)[x])
    {
      CreditAllEntity(st.store, ks, x);
    }
    HealedCredited(st.store.components, s1.components, ks);
  }

  /** Healing the credited store is healing each entity's credited map. */
  lemma {:induction false} HealedCredited(cs: map<Entity, map<ComponentType, Component>>,
                                         credited: map<Entity, map<ComponentType, Component>>, ks: seq<Entity>)
    requires credited.Keys == cs.Keys
    requires forall x :: x in cs ==> credited[x] == CreditedMap(cs[x], multiset(ks)[x])
    ensures (map x | x in credited :: Healed(credited[x]))
            == (map x | x in cs :: Healed(CreditedMap(cs[x], multiset(ks)[x])))
  {
  }

  // ---------------------------------------------------------------- disconnect_players_system

  /** `to_disconnect`: the clients the disconnect requests name. */
  function Requested(rows: seq<QueryRow>): set<ClientId>
    decreases |rows|
  {
    if rows == [] then
      {}
    else
      var last := rows[|rows| - 1];
      Requested(rows[..|rows| - 1]) + if |last.1| == 1 && last.1[0].DisconnectRequest? then {last.1[0].requester} else {}
  }

  /** A row of `Query[Remote]` for one of `clients`. */
  predicate Leaves(row: QueryRow, clients: set<ClientId>) {
    |row.1| == 1 && row.1[0].Remote? && row.1[0].clientId in clients
  }

  /** The player entities `disconnect_players_system` kills, in row order. */
  function Leaving(rows: seq<QueryRow>, clients: set<ClientId>): seq<Entity>
    decreases |rows|
  {
    if rows == [] then
      []
    else
      var last := rows[|rows| - 1];
      Leaving(rows[..|rows| - 1], clients) + if Leaves(last, clients) then [last.0] else []
  }

  /** The outbox's single messages once every leaving client was sent a
      `ServerGoodbye`, in row order. */
  function Goodbyes(m: map<ClientId, seq<ServerMessage>>, rows: seq<QueryRow>, clients: set<ClientId>): map<ClientId, seq<ServerMessage>>
    decreases |rows|
  {
    if rows == [] then
      m
    else
      var last := rows[|rows| - 1];
      var sent := Goodbyes(m, rows[..|rows| - 1], clients);
      if Leaves(last, clients) then Appended(sent, last.1[0].clientId, ServerGoodbye) else sent
  }

  /** How many rows of client `c` leave. */
  function Farewells(rows: seq<QueryRow>, clients: set<ClientId>, c: ClientId): nat
    decreases |rows|
  {
    if rows == [] then
      0
    else
      var last := rows[|rows| - 1];
      Farewells(rows[..|rows| - 1], clients, c) + if Leaves(last, clients) && last.1[0].clientId == c then 1 else 0
  }

  /** `n` goodbyes. */
  function Farewell(n: nat): (q: seq<ServerMessage>)
    ensures |q| == n && forall i :: 0 <= i < n ==> q[i] == ServerGoodbye
  {
    seq(n, _ => ServerGoodbye)
  }

  /** Each client is sent one goodbye per row of it that leaves, after what it
      was already sent; a client not asked to leave is sent nothing. */
  lemma {:induction false} GoodbyesPerClient(m: map<ClientId, seq<ServerMessage>>, rows: seq<QueryRow>, clients: set<ClientId>, c: ClientId)
    ensures Queued(Goodbyes(m, rows, clients), c) == Queued(m, c) + Farewell(Farewells(rows, clients, c))
    ensures c !in clients ==> Farewells(rows, clients, c) == 0
    decreases |rows|
  {
    if rows == [] {
      assert Queued(m, c) + Farewell(0) == Queued(m, c);
    } else {
      var init, last := rows[..|rows| - 1], rows[|rows| - 1];
      GoodbyesPerClient(m, init, clients, c);
      var n := Farewells(init, clients, c);
      if Leaves(last, clients) && last.1[0].clientId == c {
        assert Queued(m, c) + Farewell(n) + [ServerGoodbye] == Queued(m, c) + Farewell(n + 1);
      }
    }
  }

  /** The body of the first loop of `disconnect_players_system`. */
  method RequestStep(w: GameWorld, items: seq<QueryRow>, i: int, clients: set<ClientId>,
                     ghost before: State<ComponentType, Component>)
      returns (clients': set<ClientId>)
    requires 0 <= i < |items| && |items[i].1| == 1 && items[i].1[0].DisconnectRequest?
    requires clients == Requested(items[..i])
    requires w.Model() == before.(toKill := before.toKill + Entities(items[..i]))
    modifies w
    ensures clients' == Requested(items[..i + 1])
    ensures w.Model() == before.(toKill := before.toKill + Entities(items[..i + 1]))
  {
    assert items[..i + 1][..i] == items[..i];
    KillStep(w, items, i, before);
    clients' := clients + {items[i].1[0].requester};
  }

  /** The body of the second loop of `disconnect_players_system`. */
  method LeaveStep(w: GameWorld, outbox: NetOutbox, items: seq<QueryRow>, i: int, clients: set<ClientId>,
                   ghost before: State<ComponentType, Component>, ghost sent: map<ClientId, seq<ServerMessage>>)
    requires 0 <= i < |items| && |items[i].1| == 1 && items[i].1[0].Remote?
    requires w.Model() == before.(toKill := before.toKill + Leaving(items[..i], clients))
    requires outbox.singles == Goodbyes(sent, items[..i], clients)
    modifies w, outbox
    ensures w.Model() == before.(toKill := before.toKill + Leaving(items[..i + 1], clients))
    ensures outbox.singles == Goodbyes(sent, items[..i + 1], clients)
    ensures outbox.broadcasts == old(outbox.broadcasts)
  {
    assert items[..i + 1][..i] == items[..i];
    var e, client := items[i].0, items[i].1[0].clientId;
    if client in clients {
      outbox.SendSingle(client, ServerGoodbye);
      w.Kill(e);
    } else {
      assert Leaving(items[..i + 1], clients) == Leaving(items[..i], clients) + [];
    }
  }

  /** The first loop of `disconnect_players_system`: kill every request and
      collect the clients it names. */
  method CollectRequests(w: GameWorld, items: seq<QueryRow>) returns (clients: set<ClientId>)
    requires Shaped(items, [DisconnectRequestType])
    modifies w
    ensures clients == Requested(items)
    ensures w.Model() == old(w.Model()).(toKill := old(w.entitiesToDelete) + Entities(items))
  {
    ghost var before := w.Model();
    clients := {};
    assert items[..0] == [];
    for i := 0 to |items|
      invariant clients == Requested(items[..i])
      invariant w.Model() == before.(toKill := before.toKill + Entities(items[..i]))
    {
      assert TypeOf(items[i].1[0]) == DisconnectRequestType;
      TypeTells(items[i].1[0]);
      clients := RequestStep(w, items, i, clients, before);
    }
    assert items[..|items|] == items;
  }

  /** The second loop of `disconnect_players_system`: say goodbye to every
      player of a leaving client and kill it. */
  method SendGoodbyes(w: GameWorld, outbox: NetOutbox, players: seq<QueryRow>, clients: set<ClientId>)
    requires Shaped(players, [RemoteType])
    modifies w, outbox
    ensures w.Model() == old(w.Model()).(toKill := old(w.entitiesToDelete) + Leaving(players, clients))
    ensures outbox.singles == Goodbyes(old(outbox.singles), players, clients)
    ensures outbox.broadcasts == old(outbox.broadcasts)
  {
    ghost var before := w.Model();
    ghost var sent := outbox.singles;
    assert players[..0] == [];
    for i := 0 to |players|
      invariant w.Model() == before.(toKill := before.toKill + Leaving(players[..i], clients))
      invariant outbox.singles == Goodbyes(sent, players[..i], clients)
      invariant outbox.broadcasts == old(outbox.broadcasts)
    {
      assert TypeOf(players[i].1[0]) == RemoteType;
      TypeTells(players[i].1[0]);
      LeaveStep(w, outbox, players, i, clients, before, sent);
    }
    assert players[..|players|] == players;
  }

  /** `disconnect_players_system`; `outbox` is the world's `NET_OUTBOX`
      resource.  The players are not read when nobody asked to leave. */
  method DisconnectPlayersSystem(w: GameWorld, outbox: NetOutbox) returns (ghost requests: seq<QueryRow>, ghost remotes: seq<QueryRow>)
    requires w.Valid() && Typed(w.Contents())
    requires [DisconnectRequestType] in w.keyToEntities && [RemoteType] in w.keyToEntities
    modifies w, outbox
    ensures Listing(requests, old(w.Contents()), [DisconnectRequestType])
    ensures Requested(requests) == {} ==> remotes == []
    ensures Requested(requests) != {} ==> Listing(remotes, old(w.Contents()), [RemoteType])
    ensures w.Model() == old(w.Model()).(toKill := old(w.entitiesToDelete) + Entities(requests)
                                                  + Leaving(remotes, Requested(requests)))
    ensures outbox.broadcasts == old(outbox.broadcasts)
    ensures outbox.singles == Goodbyes(old(outbox.singles), remotes, Requested(requests))
  {
    ghost var st0 := w.Model();
    var items := AllRows(w, [DisconnectRequestType]);
    requests, remotes := items, [];
    var clients := CollectRequests(w, items);
    if clients == {} {
      assert old(w.entitiesToDelete) + Entities(items) + [] == old(w.entitiesToDelete) + Entities(items);
      return;
    }
    QueuesKeepWorldInv(st0, w.Model());
    var players := AllRows(w, [RemoteType]);
    remotes := players;
    SendGoodbyes(w, outbox, players, clients);
  }

  lemma {:induction false} LeavingLive(rows: seq<QueryRow>, clients: set<ClientId>, live: set<Entity>)
    requires forall i :: 0 <= i < |rows| ==> rows[i].0 in live
    ensures forall j :: 0 <= j < |Leaving(rows, clients)| ==> Leaving(rows, clients)[j] in live
    decreases |rows|
  {
    if rows != [] {
      LeavingLive(rows[..|rows| - 1], clients, live);
    }
  }

  lemma {:induction false} LeavingAbsent(rows: seq<QueryRow>, clients: set<ClientId>, x: Entity)
    requires forall j :: 0 <= j < |rows| ==> rows[j].0 != x
    ensures x !in Leaving(rows, clients)
    decreases |rows|
  {
    if rows != [] {
      LeavingAbsent(rows[..|rows| - 1], clients, x);
    }
  }

  lemma {:induction false} LeavingOnce(rows: seq<QueryRow>, clients: set<ClientId>, i: int)
    requires 0 <= i < |rows|
    requires forall j :: 0 <= j < |rows| && j != i ==> rows[j].0 != rows[i].0
    ensures rows[i].0 in Leaving(rows, clients) <==> Leaves(rows[i], clients)
    decreases |rows|
  {
    var init := rows[..|rows| - 1];
    if i == |rows| - 1 {
      LeavingAbsent(init, clients, rows[i].0);
    } else {
      LeavingOnce(init, clients, i);
    }
  }

  /** No entity is killed twice by the second loop. */
  lemma {:induction false} LeavingDistinct(rows: seq<QueryRow>, clients: set<ClientId>)
    requires Distinct(rows)
    ensures forall a, b :: 0 <= a < b < |Leaving(rows, clients)| ==> Leaving(rows, clients)[a] != Leaving(rows, clients)[b]
    decreases |rows|
  {
    if rows != [] {
      var init, last := rows[..|rows| - 1], rows[|rows| - 1];
      LeavingDistinct(init, clients);
      OnlyRow(rows, |rows| - 1);
      LeavingAbsent(init, clients, last.0);
    }
  }

  /** The entities the second loop kills are exactly the holders of a
      `Remote` of a leaving client. */
  lemma {:induction false} LeavingHolders(s: Store<ComponentType, Component>, next: int, rows: seq<QueryRow>,
      clients: set<ClientId>, x: Entity)
    requires Inv(s, next) && Listing(rows, s, [RemoteType]) && x in s.components
    ensures x in Leaving(rows, clients)
            <==> RemoteType in s.components[x] && s.components[x][RemoteType].Remote?
                 && s.components[x][RemoteType].clientId in clients
  {
    var cs := s.components[x];
    HoldersListed(s, next, rows, RemoteType, x);
    if RemoteType in cs {
      var i :| 0 <= i < |rows| && rows[i].0 == x;
      assert Row(s, [RemoteType], x) == Ok(rows[i].1);
      OnlyRow(rows, i);
      LeavingOnce(rows, clients, i);
    } else {
      Unlisted(rows, s, [RemoteType], x);
      LeavingAbsent(rows, clients, x);
    }
  }

  /** An entity `disconnect_players_system` kills: a request, or the player
      of a client asked to leave. */
  predicate Departs(cs: map<ComponentType, Component>, clients: set<ClientId>) {
    || DisconnectRequestType in cs
    || (RemoteType in cs && cs[RemoteType].Remote? && cs[RemoteType].clientId in clients)
  }

  /** The kill queue of `disconnect_players_system` names live entities, each
      once, as long as no entity is both a request and a player. */
  lemma {:induction false} DisconnectKillsOnce(s: Store<ComponentType, Component>, next: int,
      requests: seq<QueryRow>, remotes: seq<QueryRow>, q: seq<Entity>)
    requires Inv(s, next) && Listing(requests, s, [DisconnectRequestType])
    requires Requested(requests) == {} ==> remotes == []
    requires Requested(requests) != {} ==> Listing(remotes, s, [RemoteType])
    requires forall x :: x in s.components ==> !(DisconnectRequestType in s.components[x] && RemoteType in s.components[x])
    requires q == Entities(requests) + Leaving(remotes, Requested(requests))
    ensures forall i :: 0 <= i < |q| ==> q[i] in s.components
    ensures forall i, j :: 0 <= i < j < |q| ==> q[i] != q[j]
  {
    var clients := Requested(requests);
    var es, ls := Entities(requests), Leaving(remotes, clients);
    ListedKillable(s, [DisconnectRequestType], requests);
    if clients == {} {
      assert es + ls == es;
      return;
    }
    LeavingLive(remotes, clients, s.components.Keys);
    LeavingDistinct(remotes, clients);
    forall x | x in es
      ensures x !in ls
    {
      var i :| 0 <= i < |es| && es[i] == x;
      EntitiesHolding(s, next, requests, DisconnectRequestType, x);
      LeavingHolders(s, next, remotes, clients, x);
    }
    DisjointConcat(es, ls);
  }

  /** Two queues, each naming an entity once, with no entity in common, make
      a queue naming each entity once. */
  lemma {:induction false} DisjointConcat(a: seq<Entity>, b: seq<Entity>)
    requires forall i, j :: 0 <= i < j < |a| ==> a[i] != a[j]
    requires forall i, j :: 0 <= i < j < |b| ==> b[i] != b[j]
    requires forall x :: x in a ==> x !in b
    ensures forall i, j :: 0 <= i < j < |a + b| ==> (a + b)[i] != (a + b)[j]
  {
    forall i, j | 0 <= i < j < |a + b|
      ensures (a + b)[i] != (a + b)[j]
    {
      if |a| <= i {
        assert (a + b)[i] == b[i - |a|] && (a + b)[j] == b[j - |a|];
      } else if |a| <= j {
        assert (a + b)[i] == a[i] && a[i] in a && (a + b)[j] == b[j - |a|];
      }
    }
  }

  /** An entity is on the kill queue of `disconnect_players_system` exactly
      when it departs. */
  lemma {:induction false} DisconnectKills(s: Store<ComponentType, Component>, next: int,
      requests: seq<QueryRow>, remotes: seq<QueryRow>, x: Entity)
    requires Inv(s, next) && Listing(requests, s, [DisconnectRequestType]) && x in s.components
    requires Requested(requests) == {} ==> remotes == []
    requires Requested(requests) != {} ==> Listing(remotes, s, [RemoteType])
    ensures x in Entities(requests) + Leaving(remotes, Requested(requests))
            <==> Departs(s.components[x], Requested(requests))
  {
    var clients := Requested(requests);
    EntitiesHolding(s, next, requests, DisconnectRequestType, x);
    if clients == {} {
      assert Leaving(remotes, clients) == [];
    } else {
      LeavingHolders(s, next, remotes, clients, x);
    }
  }

  /** A world that runs only `disconnect_players_system` and commits: the
      requests and the players of every client that asked to leave are dead,
      and every other entity is as it was. */
  lemma {:induction false} DisconnectThenCommit(st: State<ComponentType, Component>, requests: seq<QueryRow>, remotes: seq<QueryRow>)
    requires Inv(st.store, st.next) && Settled(st)
    requires Listing(requests, st.store, [DisconnectRequestType])
    requires Requested(requests) == {} ==> remotes == []
    requires Requested(requests) != {} ==> Listing(remotes, st.store, [RemoteType])
    requires forall x :: x in st.store.components ==>
      !(DisconnectRequestType in st.store.components[x] && RemoteType in st.store.components[x])
    ensures var r := CommitSpec(st.(toKill := Entities(requests) + Leaving(remotes, Requested(requests))), TypeOf);
      && r.failure.None?
      && r.state.store.components
         == map x | x in st.store.components && !Departs(st.store.components[x], Requested(requests)) :: st.store.components[x]
  {
    var clients := Requested(requests);
    var cs := st.store.components;
    var q := Entities(requests) + Leaving(remotes, clients);
    DisconnectKillsOnce(st.store, st.next, requests, remotes, q);
    CommitOnlyKills(st.(toKill := q), TypeOf);
    forall x | x in cs
      ensures x in q <==> Departs(cs[x], clients)
    {
      DisconnectKills(st.store, st.next, requests, remotes, x);
    }
    DepartedSurvivors(cs, q, clients);
  }

  /** Killing exactly the departing entities leaves the others as they were. */
  lemma {:induction false} DepartedSurvivors(cs: map<Entity, map<ComponentType, Component>>, q: seq<Entity>,
      clients: set<ClientId>)
    requires forall x :: x in cs ==> (x in q <==> Departs(cs[x], clients))
    ensures (map x | x in cs && x !in q :: cs[x]) == (map x | x in cs && !Departs(cs[x], clients) :: cs[x])
  {
  }
}
