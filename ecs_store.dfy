/**
 * The component store behind game/ecs.py's `World`: the components each
 * entity holds, one per component type, and the index from every
 * registered query key (a tuple of component types) to the entities that
 * hold all of its types.
 *
 * This module states the store's committed operations on values:
 * `do_add_components`, `do_delete_components`, `do_delete_entity`, the
 * tweak step of `commit`, and query lookups.  It also gives the invariant
 * that ties the index to the components and proves that every operation
 * keeps it.  The `World` class of module `Ecs` performs these operations
 * in place.
 */
module EcsStore {
  import opened Wrappers

  /** `Entity`: a frozen dataclass around a number. */
  datatype Entity = Entity(num: int)

  /** A query key: the tuple of component types a query asks for. */
  type Key<T> = seq<T>

  function KeySet<T(==)>(k: Key<T>): set<T> {
    set t | t in k
  }

  /** The `KeyError`s the store's lookups can raise. */
  datatype Failure<T> =
    | MissingEntity(entity: Entity)
    | MissingKey(key: Key<T>)
    | MissingType(t: T)
    | UnindexedKey

  /** `_entity_to_components`, `_entity_to_keys` and `_key_to_entities`. */
  datatype Store<T, C> = Store(
    components: map<Entity, map<T, C>>,
    entityKeys: map<Entity, set<Key<T>>>,
    index: map<Key<T>, set<Entity>>)

  /** The store of a new `World`. */
  function EmptyStore<T(==), C>(): (s: Store<T, C>)
    ensures s.components == map[] && s.entityKeys == map[] && s.index == map[]
  {
    Store(map[], map[], map[])
  }

  // ---------------------------------------------------------------- components

  /** Storing a batch of components one after the other, each under its own
      type (`cs[type(c)] = c`), so a later component replaces an earlier one
      of the same type. */
  function Upsert<T(==), C>(cs: map<T, C>, batch: seq<C>, typeOf: C -> T): map<T, C>
    decreases |batch|
  {
    if batch == [] then
      cs
    else
      var last := batch[|batch| - 1];
      Upsert(cs, batch[..|batch| - 1], typeOf)[typeOf(last) := last]
  }

  /** The types of a batch of components. */
  ghost function TypesOf<T, C>(batch: seq<C>, typeOf: C -> T): set<T> {
    set c | c in batch :: typeOf(c)
  }

  /** After an upsert, the entity holds exactly the types it held before
      and the types of the batch. */
  lemma {:induction false} UpsertKeys<T, C>(cs: map<T, C>, batch: seq<C>, typeOf: C -> T)
    ensures Upsert(cs, batch, typeOf).Keys == cs.Keys + TypesOf(batch, typeOf)
    decreases |batch|
  {
    if batch != [] {
      var init := batch[..|batch| - 1];
      var last := batch[|batch| - 1];
      UpsertKeys(cs, init, typeOf);
      assert batch == init + [last];
      assert TypesOf(batch, typeOf) == TypesOf(init, typeOf) + {typeOf(last)};
    }
  }

  /** A component of the batch that no later component of the batch
      replaces is the one stored under its type. */
  lemma {:induction false} UpsertLatest<T, C>(cs: map<T, C>, batch: seq<C>, typeOf: C -> T, i: nat)
    requires i < |batch|
    requires forall j :: i < j < |batch| ==> typeOf(batch[j]) != typeOf(batch[i])
    ensures typeOf(batch[i]) in Upsert(cs, batch, typeOf)
    ensures Upsert(cs, batch, typeOf)[typeOf(batch[i])] == batch[i]
    decreases |batch|
  {
    if i < |batch| - 1 {
      UpsertLatest(cs, batch[..|batch| - 1], typeOf, i);
    }
  }

  /** A type the batch does not mention keeps its component, or its absence. */
  lemma {:induction false} UpsertUntouched<T, C>(cs: map<T, C>, batch: seq<C>, typeOf: C -> T, t: T)
    requires forall c :: c in batch ==> typeOf(c) != t
    ensures t in Upsert(cs, batch, typeOf) <==> t in cs
    ensures t in cs ==> Upsert(cs, batch, typeOf)[t] == cs[t]
    decreases |batch|
  {
    if batch != [] {
      var init := batch[..|batch| - 1];
      assert forall c :: c in init ==> c in batch;
      UpsertUntouched(cs, init, typeOf, t);
    }
  }

  /** Two batches applied one after the other act as their concatenation. */
  lemma {:induction false} UpsertConcat<T, C>(cs: map<T, C>, b1: seq<C>, b2: seq<C>, typeOf: C -> T)
    ensures Upsert(Upsert(cs, b1, typeOf), b2, typeOf) == Upsert(cs, b1 + b2, typeOf)
    decreases |b2|
  {
    if b2 == [] {
      assert b1 + b2 == b1;
    } else {
      var init := b2[..|b2| - 1];
      UpsertConcat(cs, b1, init, typeOf);
      assert (b1 + b2)[..|b1 + b2| - 1] == b1 + init;
    }
  }

  /** `cs.pop(ct, None)` for every type of a removal batch. */
  function Without<T(==), C>(cs: map<T, C>, types: seq<T>): (r: map<T, C>)
    ensures r.Keys == cs.Keys - KeySet(types)
    ensures forall t :: t in r ==> r[t] == cs[t]
  {
    cs - KeySet(types)
  }

  // ---------------------------------------------------------------- index

  /** The keys among `ks` whose every type is in `types`. */
  function Satisfied<T(==)>(ks: set<Key<T>>, types: set<T>): set<Key<T>> {
    set k | k in ks && KeySet(k) <= types
  }

  /** The keys among `ks` that `types` no longer satisfies. */
  function Unsatisfied<T(==)>(ks: set<Key<T>>, types: set<T>): set<Key<T>> {
    set k | k in ks && !(KeySet(k) <= types)
  }

  /** `es.add(entity)` for the index entry of every key in `ks`. */
  function Insert<T(==)>(index: map<Key<T>, set<Entity>>, ks: set<Key<T>>, e: Entity): (r: map<Key<T>, set<Entity>>)
    ensures r.Keys == index.Keys
  {
    map k | k in index :: if k in ks then index[k] + {e} else index[k]
  }

  /** `discard(entity)` on the index entry of every key in `ks`. */
  function Discard<T(==)>(index: map<Key<T>, set<Entity>>, ks: set<Key<T>>, e: Entity): (r: map<Key<T>, set<Entity>>)
    ensures r.Keys == index.Keys
  {
    map k | k in index :: if k in ks then index[k] - {e} else index[k]
  }

  // ---------------------------------------------------------------- operations

  /** `do_add_components`: store the batch, then enter the entity under every
      registered key its types now satisfy.  An entity that is not alive
      raises `KeyError`. */
  function AddOp<T(==), C>(s: Store<T, C>, e: Entity, batch: seq<C>, typeOf: C -> T): (r: Result<Store<T, C>, Failure<T>>)
    ensures r.Err? <==> e !in s.components || e !in s.entityKeys
    ensures r.Err? ==> r.error == MissingEntity(e)
  {
    if e !in s.components || e !in s.entityKeys then
      Err(MissingEntity(e))
    else
      var cs := Upsert(s.components[e], batch, typeOf);
      var gained := Satisfied(s.index.Keys, cs.Keys);
      Ok(Store(s.components[e := cs],
               s.entityKeys[e := s.entityKeys[e] + gained],
               Insert(s.index, gained, e)))
  }

  /** What an addition does to the components and to the set of entities,
      leaving the index aside. */
  lemma {:induction false} AddOpComponents<T, C>(s: Store<T, C>, e: Entity, batch: seq<C>, typeOf: C -> T)
    requires e in s.components && e in s.entityKeys
    ensures AddOp(s, e, batch, typeOf).Ok?
    ensures AddOp(s, e, batch, typeOf).value.components == s.components[e := Upsert(s.components[e], batch, typeOf)]
    ensures AddOp(s, e, batch, typeOf).value.entityKeys.Keys == s.entityKeys.Keys
  {
  }

  /** `do_delete_components`: drop the listed types, then take the entity out
      of every key it was recorded under that its remaining types no longer
      satisfy.  An entity that is not alive raises `KeyError`. */
  function RemoveOp<T(==), C>(s: Store<T, C>, e: Entity, types: seq<T>): (r: Result<Store<T, C>, Failure<T>>)
    ensures e !in s.components || e !in s.entityKeys ==> r == Err(MissingEntity(e))
  {
    if e !in s.components || e !in s.entityKeys then
      Err(MissingEntity(e))
    else
      var cs := Without(s.components[e], types);
      var dropped := Unsatisfied(s.entityKeys[e], cs.Keys);
      if !(dropped <= s.index.Keys) then
        Err(UnindexedKey)
      else
        Ok(Store(s.components[e := cs],
                 s.entityKeys[e := s.entityKeys[e] - dropped],
                 Discard(s.index, dropped, e)))
  }

  /** `do_delete_entity`: take the entity out of every key it was recorded
      under, then forget it.  An entity that is not alive raises `KeyError`. */
  function KillOp<T(==), C>(s: Store<T, C>, e: Entity): (r: Result<Store<T, C>, Failure<T>>)
    ensures e !in s.entityKeys ==> r == Err(MissingEntity(e))
    ensures r.Ok? ==> e !in r.value.components && e !in r.value.entityKeys
  {
    if e !in s.entityKeys then
      Err(MissingEntity(e))
    else if !(s.entityKeys[e] <= s.index.Keys) then
      Err(UnindexedKey)
    else
      Ok(Store(s.components - {e},
               s.entityKeys - {e},
               Discard(s.index, s.entityKeys[e], e)))
  }

  /** One scheduled tweak: if the entity is alive and holds a component of
      type `t`, that component is replaced by `callback` of it. */
  function TweakOp<T(==), C>(s: Store<T, C>, e: Entity, t: T, callback: C -> C): (r: Store<T, C>)
    ensures r.entityKeys == s.entityKeys && r.index == s.index
    ensures r.components.Keys == s.components.Keys
  {
    if e in s.components && t in s.components[e] then
      s.(components := s.components[e := s.components[e][t := callback(s.components[e][t])]])
    else
      s
  }

  /** The store half of `spawn`: a new entity with no components and no keys. */
  function SpawnOp<T(==), C>(s: Store<T, C>, e: Entity): (r: Store<T, C>)
    ensures r.components.Keys == s.components.Keys + {e}
    ensures r.index == s.index
  {
    Store(s.components[e := map[]], s.entityKeys[e := {}], s.index)
  }

  /** The index half of `_register_query`: the key gets an empty entry unless
      it already has one. */
  function RegisterOp<T(==), C>(s: Store<T, C>, key: Key<T>): (r: Store<T, C>)
    ensures r.index.Keys == s.index.Keys + {key}
    ensures key in s.index ==> r == s
  {
    if key in s.index then s else s.(index := s.index[key := {}])
  }

  // ---------------------------------------------------------------- queries

  /** `[cs[ct] for ct in key]`: the first type of the key the entity lacks
      raises `KeyError`. */
  function Project<T(==), C>(cs: map<T, C>, key: Key<T>): (r: Result<seq<C>, Failure<T>>)
    ensures r.Ok? <==> KeySet(key) <= cs.Keys
    ensures r.Ok? ==> |r.value| == |key| && forall i :: 0 <= i < |key| ==> r.value[i] == cs[key[i]]
    ensures r.Err? ==> r.error.MissingType? && r.error.t in key && r.error.t !in cs
    decreases |key|
  {
    if key == [] then
      Ok([])
    else if key[0] !in cs then
      Err(MissingType(key[0]))
    else
      var rest := Project(cs, key[1..]);
      assert KeySet(key) == {key[0]} + KeySet(key[1..]);
      if rest.Err? then rest else Ok([cs[key[0]]] + rest.value)
  }

  /** `Query.__getitem__`: the components of `key` held by `e`. */
  function Row<T(==), C>(s: Store<T, C>, key: Key<T>, e: Entity): (r: Result<seq<C>, Failure<T>>)
    ensures e !in s.components ==> r == Err(MissingEntity(e))
    ensures e in s.components ==> r == Project(s.components[e], key)
  {
    if e !in s.components then Err(MissingEntity(e)) else Project(s.components[e], key)
  }

  /** `Query.get`: `None` for an entity the key's index entry does not list,
      its row otherwise; an unregistered key raises `KeyError`. */
  function QueryGet<T(==), C>(s: Store<T, C>, key: Key<T>, e: Entity): (r: Result<Option<seq<C>>, Failure<T>>)
    ensures key !in s.index ==> r == Err(MissingKey(key))
    ensures key in s.index && e !in s.index[key] ==> r == Ok(None)
  {
    if key !in s.index then
      Err(MissingKey(key))
    else if e !in s.index[key] then
      Ok(None)
    else
      var row :- Row(s, key, e);
      Ok(Some(row))
  }

  // ---------------------------------------------------------------- invariant

  /** Both per-entity maps are defined on the live entities. */
  ghost predicate Aligned<T, C>(s: Store<T, C>) {
    s.components.Keys == s.entityKeys.Keys
  }

  /** Every live entity was numbered by some earlier `spawn`. */
  ghost predicate Numbered<T, C>(s: Store<T, C>, next: int) {
    0 <= next && forall e :: e in s.components ==> 1 <= e.num <= next
  }

  /** An entity's recorded keys are registered keys. */
  ghost predicate Registered<T, C>(s: Store<T, C>) {
    forall e :: e in s.entityKeys ==> s.entityKeys[e] <= s.index.Keys
  }

  /** The index lists live entities only, and it lists an entity under a key
      exactly when the entity's recorded keys contain that key. */
  ghost predicate Mirrored<T, C>(s: Store<T, C>) {
    && (forall k, e :: k in s.index && e in s.index[k] ==> e in s.entityKeys)
    && (forall k, e :: k in s.index && e in s.entityKeys ==> (e in s.index[k] <==> k in s.entityKeys[e]))
  }

  /** An entity listed under a key holds every type of the key. */
  ghost predicate Sound<T, C>(s: Store<T, C>) {
    forall k, e :: k in s.index && e in s.index[k] && e in s.components ==> KeySet(k) <= s.components[e].Keys
  }

  /** An entity that holds some component and every type of a registered
      key is listed under it. */
  ghost predicate Complete<T, C>(s: Store<T, C>) {
    forall k, e ::
      k in s.index && e in s.components && s.components[e] != map[] && KeySet(k) <= s.components[e].Keys
      ==> e in s.index[k]
  }

  ghost predicate Inv<T, C>(s: Store<T, C>, next: int) {
    Aligned(s) && Numbered(s, next) && Registered(s) && Mirrored(s) && Sound(s) && Complete(s)
  }

  /** What the invariant buys: for a registered key with at least one type,
      the index lists exactly the live entities holding all of its types. */
  lemma {:induction false} IndexExact<T, C>(s: Store<T, C>, next: int, key: Key<T>, e: Entity)
    requires Inv(s, next)
    requires key in s.index && key != []
    ensures e in s.index[key] <==> e in s.components && KeySet(key) <= s.components[e].Keys
  {
    if e in s.components && KeySet(key) <= s.components[e].Keys {
      assert key[0] in s.components[e];
    }
  }

  /** `Query.get` on a registered key with at least one type never raises:
      it finds a row exactly for the live entities holding all of the key's
      types, and the row lists their components in the key's order. */
  lemma {:induction false} QueryGetExact<T, C>(s: Store<T, C>, next: int, key: Key<T>, e: Entity)
    requires Inv(s, next)
    requires key in s.index && key != []
    ensures QueryGet(s, key, e).Ok?
    ensures QueryGet(s, key, e).value.Some? <==> e in s.components && KeySet(key) <= s.components[e].Keys
    ensures QueryGet(s, key, e).value.Some? ==>
      var row := QueryGet(s, key, e).value.value;
      |row| == |key| && forall i :: 0 <= i < |key| ==> row[i] == s.components[e][key[i]]
  {
    IndexExact(s, next, key, e);
  }

  /** `Query.all` on a registered key never raises: every entity the index
      lists is alive and holds all of the key's types. */
  lemma {:induction false} IndexedRowsExist<T, C>(s: Store<T, C>, next: int, key: Key<T>)
    requires Inv(s, next) && key in s.index
    ensures forall e :: e in s.index[key] ==> e in s.components && Row(s, key, e).Ok?
  {
  }

  /** Under the invariant the only failure of a committed operation is an
      entity that is not alive. */
  lemma {:induction false} OpsFailOnlyOnDeadEntities<T, C>(s: Store<T, C>, next: int, e: Entity, batch: seq<C>, types: seq<T>, typeOf: C -> T)
    requires Inv(s, next)
    ensures AddOp(s, e, batch, typeOf).Ok? <==> e in s.components
    ensures RemoveOp(s, e, types).Ok? <==> e in s.components
    ensures KillOp(s, e).Ok? <==> e in s.components
  {
  }

  // ---------------------------------------------------------------- preservation

  lemma {:induction false} SpawnKeepsInv<T, C>(s: Store<T, C>, next: int)
    requires Inv(s, next)
    ensures Entity(next + 1) !in s.components
    ensures Inv(SpawnOp(s, Entity(next + 1)), next + 1)
  {
    var e := Entity(next + 1);
    var r := SpawnOp(s, e);
    assert Aligned(r);
    assert Numbered(r, next + 1);
    assert Registered(r);
    assert Sound(r);
    assert Complete(r);
    forall k, x | k in r.index && x in r.index[k]
      ensures x in r.entityKeys && x != e
    {
      assert x in s.entityKeys;
    }
  }

  lemma {:induction false} AddKeepsInv<T, C>(s: Store<T, C>, next: int, e: Entity, batch: seq<C>, typeOf: C -> T)
    requires Inv(s, next)
    requires AddOp(s, e, batch, typeOf).Ok?
    ensures Inv(AddOp(s, e, batch, typeOf).value, next)
  {
    var r := AddOp(s, e, batch, typeOf).value;
    var cs := Upsert(s.components[e], batch, typeOf);
    var gained := Satisfied(s.index.Keys, cs.Keys);
    UpsertKeys(s.components[e], batch, typeOf);
    assert r.components[e] == cs;
    forall k, x | k in r.index && x in r.index[k] && x in r.components
      ensures KeySet(k) <= r.components[x].Keys
    {
      if x == e {
        assert x in s.index[k] ==> KeySet(k) <= s.components[e].Keys;
      }
    }
  }

  lemma {:induction false} RemoveKeepsInv<T, C>(s: Store<T, C>, next: int, e: Entity, types: seq<T>)
    requires Inv(s, next)
    requires RemoveOp(s, e, types).Ok?
    ensures Inv(RemoveOp(s, e, types).value, next)
  {
    var r := RemoveOp(s, e, types).value;
    var cs := Without(s.components[e], types);
    var dropped := Unsatisfied(s.entityKeys[e], cs.Keys);
    assert r.components[e] == cs;
    assert r.entityKeys[e] == s.entityKeys[e] - dropped;
    forall k, x | k in r.index && x in r.index[k] && x in r.components
      ensures KeySet(k) <= r.components[x].Keys
    {
      if x == e {
        assert x in s.index[k] && k !in dropped;
      }
    }
    forall k, x | k in r.index && x in r.components && r.components[x] != map[] && KeySet(k) <= r.components[x].Keys
      ensures x in r.index[k]
    {
      if x == e {
        assert s.components[e] != map[] by {
          var t :| t in cs;
        }
      }
    }
  }

  lemma {:induction false} KillKeepsInv<T, C>(s: Store<T, C>, next: int, e: Entity)
    requires Inv(s, next)
    requires KillOp(s, e).Ok?
    ensures Inv(KillOp(s, e).value, next)
  {
    var r := KillOp(s, e).value;
    forall k, x | k in r.index && x in r.index[k]
      ensures x in r.entityKeys
    {
      assert x in s.index[k];
    }
  }

  lemma {:induction false} TweakKeepsInv<T, C>(s: Store<T, C>, next: int, e: Entity, t: T, callback: C -> C)
    requires Inv(s, next)
    ensures Inv(TweakOp(s, e, t, callback), next)
  {
    var r := TweakOp(s, e, t, callback);
    assert forall x :: x in s.components ==> r.components[x].Keys == s.components[x].Keys;
  }

  /** Registering a key before any entity exists keeps the invariant. */
  lemma {:induction false} RegisterKeepsInv<T, C>(s: Store<T, C>, next: int, key: Key<T>)
    requires Inv(s, next)
    requires s.components == map[]
    ensures Inv(RegisterOp(s, key), next)
  {
  }

  // ---------------------------------------------------------------- single-operation facts

  /** A committed kill leaves no trace of the entity in the index, and a
      second kill of it raises. */
  lemma {:induction false} KillPurges<T, C>(s: Store<T, C>, next: int, e: Entity)
    requires Inv(s, next)
    requires e in s.components
    ensures KillOp(s, e).Ok?
    ensures forall k :: k in KillOp(s, e).value.index ==> e !in KillOp(s, e).value.index[k]
    ensures KillOp(KillOp(s, e).value, e) == Err(MissingEntity(e))
  {
  }

  /** Removing types the entity does not hold changes nothing. */
  lemma {:induction false} RemoveAbsentIsNoOp<T, C>(s: Store<T, C>, next: int, e: Entity, types: seq<T>)
    requires Inv(s, next)
    requires e in s.components
    requires forall t :: t in types ==> t !in s.components[e]
    ensures RemoveOp(s, e, types) == Ok(s)
  {
    var cs := Without(s.components[e], types);
    assert cs == s.components[e];
    var dropped := Unsatisfied(s.entityKeys[e], cs.Keys);
    forall k | k in s.entityKeys[e]
      ensures KeySet(k) <= cs.Keys
    {
      assert e in s.index[k];
    }
    assert dropped == {};
    assert s.entityKeys[e] - dropped == s.entityKeys[e];
    var r := RemoveOp(s, e, types).value;
    assert r.components == s.components;
    assert r.entityKeys == s.entityKeys;
    assert r.index == s.index;
  }

  /** Removing the same types twice is removing them once. */
  lemma {:induction false} RemoveIdempotent<T, C>(s: Store<T, C>, next: int, e: Entity, types: seq<T>)
    requires Inv(s, next)
    requires e in s.components
    ensures RemoveOp(s, e, types).Ok?
    ensures RemoveOp(RemoveOp(s, e, types).value, e, types) == RemoveOp(s, e, types)
  {
    var r := RemoveOp(s, e, types).value;
    RemoveKeepsInv(s, next, e, types);
    RemoveAbsentIsNoOp(r, next, e, types);
  }

  /** After a committed add the entity holds every type of the batch, the
      last component of each type wins, and the types the batch does not
      mention keep their components. */
  lemma {:induction false} AddStores<T, C>(s: Store<T, C>, e: Entity, batch: seq<C>, typeOf: C -> T, t: T)
    requires AddOp(s, e, batch, typeOf).Ok?
    ensures var cs := AddOp(s, e, batch, typeOf).value.components[e];
      && cs.Keys == s.components[e].Keys + TypesOf(batch, typeOf)
      && (forall i :: 0 <= i < |batch| && (forall j :: i < j < |batch| ==> typeOf(batch[j]) != typeOf(batch[i]))
            ==> cs[typeOf(batch[i])] == batch[i])
      && ((forall c :: c in batch ==> typeOf(c) != t) && t in s.components[e] ==> cs[t] == s.components[e][t])
  {
    var cs := AddOp(s, e, batch, typeOf).value.components[e];
    UpsertKeys(s.components[e], batch, typeOf);
    forall i | 0 <= i < |batch| && (forall j :: i < j < |batch| ==> typeOf(batch[j]) != typeOf(batch[i]))
      ensures cs[typeOf(batch[i])] == batch[i]
    {
      UpsertLatest(s.components[e], batch, typeOf, i);
    }
    if (forall c :: c in batch ==> typeOf(c) != t) && t in s.components[e] {
      UpsertUntouched(s.components[e], batch, typeOf, t);
    }
  }

  /** A tweak never changes the index, and it changes at most the one
      component it names. */
  lemma {:induction false} TweakTouchesOneComponent<T, C>(s: Store<T, C>, e: Entity, t: T, callback: C -> C, x: Entity, u: T)
    requires x in s.components && u in s.components[x]
    ensures TweakOp(s, e, t, callback).index == s.index
    ensures u in TweakOp(s, e, t, callback).components[x]
    ensures TweakOp(s, e, t, callback).components[x][u]
      == if x == e && u == t then callback(s.components[x][u]) else s.components[x][u]
  {
  }

  // ---------------------------------------------------------------- in-place steps

  /** The loop `for c in components: cs[type(c)] = c`. */
  method StoreBatch<T(==), C>(cs0: map<T, C>, batch: seq<C>, typeOf: C -> T) returns (cs: map<T, C>)
    ensures cs == Upsert(cs0, batch, typeOf)
  {
    cs := cs0;
    for i := 0 to |batch|
      invariant cs == Upsert(cs0, batch[..i], typeOf)
    {
      assert batch[..i + 1][..i] == batch[..i];
      cs := cs[typeOf(batch[i]) := batch[i]];
    }
    assert batch[..|batch|] == batch;
  }

  /** The loop `for ct in component_types: cs.pop(ct, None)`. */
  method PopTypes<T(==), C>(cs0: map<T, C>, types: seq<T>) returns (cs: map<T, C>)
    ensures cs == Without(cs0, types)
  {
    cs := cs0;
    for i := 0 to |types|
      invariant cs == cs0 - KeySet(types[..i])
    {
      assert KeySet(types[..i + 1]) == KeySet(types[..i]) + {types[i]};
      cs := cs - {types[i]};
    }
    assert types[..|types|] == types;
  }

  lemma {:induction false} InsertStep<T>(index: map<Key<T>, set<Entity>>, done: set<Key<T>>, types: set<T>, e: Entity, k: Key<T>)
    requires k in index
    ensures Satisfied(done + {k}, types) == Satisfied(done, types) + (if KeySet(k) <= types then {k} else {})
    ensures var before := Insert(index, Satisfied(done, types), e);
      Insert(index, Satisfied(done + {k}, types), e)
      == if KeySet(k) <= types then before[k := before[k] + {e}] else before
  {
    var before := Insert(index, Satisfied(done, types), e);
    var after := Insert(index, Satisfied(done + {k}, types), e);
    var expected := if KeySet(k) <= types then before[k := before[k] + {e}] else before;
    assert after.Keys == expected.Keys;
    forall k2 | k2 in after
      ensures after[k2] == expected[k2]
    {
    }
  }

  /** One pass of the loop in `IndexInsert`, on the key `k`. */
  method InsertNext<T(==)>(index0: map<Key<T>, set<Entity>>, keys0: set<Key<T>>, e: Entity, types: set<T>,
                           index: map<Key<T>, set<Entity>>, keys: set<Key<T>>, todo: set<Key<T>>)
    returns (index': map<Key<T>, set<Entity>>, keys': set<Key<T>>, todo': set<Key<T>>)
    requires todo != {} && todo <= index0.Keys
    requires index == Insert(index0, Satisfied(index0.Keys - todo, types), e)
    requires keys == keys0 + Satisfied(index0.Keys - todo, types)
    ensures todo' < todo
    ensures index' == Insert(index0, Satisfied(index0.Keys - todo', types), e)
    ensures keys' == keys0 + Satisfied(index0.Keys - todo', types)
  {
    var k :| k in todo;
    InsertStep(index0, index0.Keys - todo, types, e, k);
    index', keys' := index, keys;
    if KeySet(k) <= types {
      index' := index[k := index[k] + {e}];
      keys' := keys + {k};
    }
    todo' := todo - {k};
    assert index0.Keys - todo' == (index0.Keys - todo) + {k};
  }

  /** The loop over `_key_to_entities.items()` in `do_add_components`: the
      entity joins the entry of every key its types satisfy, and those keys
      join its recorded keys. */
  method IndexInsert<T(==)>(index0: map<Key<T>, set<Entity>>, keys0: set<Key<T>>, e: Entity, types: set<T>)
    returns (index: map<Key<T>, set<Entity>>, keys: set<Key<T>>)
    ensures index == Insert(index0, Satisfied(index0.Keys, types), e)
    ensures keys == keys0 + Satisfied(index0.Keys, types)
  {
    var todo := index0.Keys;
    assert index0.Keys - todo == {};
    assert Insert(index0, Satisfied({}, types), e) == index0;
    index, keys := index0, keys0;
    while todo != {}
      invariant todo <= index0.Keys
      invariant index == Insert(index0, Satisfied(index0.Keys - todo, types), e)
      invariant keys == keys0 + Satisfied(index0.Keys - todo, types)
      decreases todo
    {
      index, keys, todo := InsertNext(index0, keys0, e, types, index, keys, todo);
    }
    assert index0.Keys - todo == index0.Keys;
  }

  lemma {:induction false} DiscardStep<T>(index: map<Key<T>, set<Entity>>, done: set<Key<T>>, e: Entity, k: Key<T>)
    requires k in index
    ensures var before := Discard(index, done, e);
      Discard(index, done + {k}, e) == before[k := before[k] - {e}]
  {
    var before := Discard(index, done, e);
    var after := Discard(index, done + {k}, e);
    var expected := before[k := before[k] - {e}];
    assert after.Keys == expected.Keys;
    forall k2 | k2 in after
      ensures after[k2] == expected[k2]
    {
    }
  }

  /** One pass of the loop in `IndexDiscard`, on the key `k`. */
  method DiscardNext<T(==)>(index0: map<Key<T>, set<Entity>>, ks: set<Key<T>>, e: Entity,
                            index: map<Key<T>, set<Entity>>, todo: set<Key<T>>)
    returns (index': map<Key<T>, set<Entity>>, todo': set<Key<T>>)
    requires ks <= index0.Keys
    requires todo != {} && todo <= ks
    requires index == Discard(index0, ks - todo, e)
    ensures todo' < todo
    ensures index' == Discard(index0, ks - todo', e)
  {
    var k :| k in todo;
    DiscardStep(index0, ks - todo, e, k);
    index' := index[k := index[k] - {e}];
    todo' := todo - {k};
    assert ks - todo' == (ks - todo) + {k};
  }

  /** The loops `for key in keys: _key_to_entities[key].discard(entity)` of
      `do_delete_components` and `do_delete_entity`. */
  method IndexDiscard<T(==)>(index0: map<Key<T>, set<Entity>>, ks: set<Key<T>>, e: Entity)
    returns (index: map<Key<T>, set<Entity>>)
    requires ks <= index0.Keys
    ensures index == Discard(index0, ks, e)
  {
    var todo := ks;
    assert ks - todo == {};
    assert Discard(index0, {}, e) == index0;
    index := index0;
    while todo != {}
      invariant todo <= ks
      invariant index == Discard(index0, ks - todo, e)
      decreases todo
    {
      index, todo := DiscardNext(index0, ks, e, index, todo);
    }
    assert ks - todo == ks;
  }
}
