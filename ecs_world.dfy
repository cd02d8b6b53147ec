/**
 * The `World` of game/ecs.py: the systems it runs, the store of module
 * `EcsStore`, and the four queues of effects that `commit` applies in a
 * fixed order.
 *
 * The first half of this module states every operation of `World` on an
 * immutable `State`, and proves what the operations promise and that they
 * keep the world consistent.  The second half is the `World` class, whose
 * methods update its fields in place and are proved to agree with that
 * specification.
 */
module Ecs {
  import opened Wrappers
  import opened EcsStore

  /** A scheduled `schedule_tweak(entity, component_type, callback)`. */
  datatype Tweak<T, !C> = Tweak(entity: Entity, t: T, callback: C -> C)

  /** The world calls a system can make while it runs.  `Caught` is the body
      of a `with world.catch():` block that raised. */
  datatype Effect<T, !C> =
    | Spawn(components: seq<C>)
    | Apply(entity: Entity, components: seq<C>)
    | Unapply(entity: Entity, types: seq<T>)
    | Kill(entity: Entity)
    | ScheduleTweak(entity: Entity, t: T, callback: C -> C)
    | Caught(error: string)

  /** What one run of a system does: its world calls in order, then the
      exception it raised, if any. */
  datatype Reaction<T, !C> = Reaction(effects: seq<Effect<T, C>>, raised: Option<string>)

  /** `_System`: the keys of the system's queries and its handler, which
      reads the store through those queries. */
  datatype System<!T, !C> = System(queries: seq<Key<T>>, handler: Store<T, C> -> Reaction<T, C>)

  /** The fields of a `World`; `errors` is everything passed to `on_error`. */
  datatype State<!T, !C> = State(
    systems: seq<System<T, C>>,
    typeToKeys: map<T, set<Key<T>>>,
    store: Store<T, C>,
    errors: seq<string>,
    next: int,
    frozen: bool,
    toAdd: seq<(Entity, seq<C>)>,
    toDelete: seq<(Entity, seq<T>)>,
    toKill: seq<Entity>,
    tweaks: seq<Tweak<T, C>>)

  /** A new `World`. */
  function Initial<T, C>(): (st: State<T, C>)
    ensures st.store.components == map[] && st.store.index == map[]
    ensures st.next == 0 && !st.frozen && st.systems == []
  {
    State([], map[], Store(map[], map[], map[]), [], 0, false, [], [], [], [])
  }

  /** The four queues are empty. */
  predicate Settled<T, C>(st: State<T, C>) {
    st.toAdd == [] && st.toDelete == [] && st.toKill == [] && st.tweaks == []
  }

  // ---------------------------------------------------------------- immediate calls

  /** `spawn`: number a new entity, give it empty maps at once, and queue its
      components, if there are any, for the next commit. */
  function SpawnSpec<T(==), C>(st: State<T, C>, components: seq<C>): (r: State<T, C>)
    ensures r.next == st.next + 1 && r.frozen
    ensures r.store == SpawnOp(st.store, Entity(r.next))
    ensures r.toAdd == if components == [] then st.toAdd else st.toAdd + [(Entity(r.next), components)]
    ensures r.systems == st.systems && r.typeToKeys == st.typeToKeys && r.errors == st.errors
    ensures r.toDelete == st.toDelete && r.toKill == st.toKill && r.tweaks == st.tweaks
  {
    var e := Entity(st.next + 1);
    st.(frozen := true, next := st.next + 1, store := SpawnOp(st.store, e),
        toAdd := if components == [] then st.toAdd else st.toAdd + [(e, components)])
  }

  /** `spawn_many`: one `spawn` per tuple, in order. */
  function SpawnAllSpec<T(==), C>(st: State<T, C>, tuples: seq<seq<C>>): (r: State<T, C>)
    decreases |tuples|
  {
    if tuples == [] then st else SpawnSpec(SpawnAllSpec(st, tuples[..|tuples| - 1]), tuples[|tuples| - 1])
  }

  /** `spawn_many` numbers its entities consecutively after the last one. */
  lemma {:induction false} SpawnAllNumbers<T, C>(st: State<T, C>, tuples: seq<seq<C>>)
    ensures SpawnAllSpec(st, tuples).next == st.next + |tuples|
    ensures |tuples| > 0 ==> SpawnAllSpec(st, tuples).frozen
    ensures SpawnAllSpec(st, tuples).systems == st.systems
    decreases |tuples|
  {
    if tuples != [] {
      SpawnAllNumbers(st, tuples[..|tuples| - 1]);
    }
  }

  /** One world call made by a running system. */
  function EffectSpec<T(==), C>(st: State<T, C>, eff: Effect<T, C>): (r: State<T, C>)
    ensures r.systems == st.systems && r.typeToKeys == st.typeToKeys
  {
    match eff
    case Spawn(cs) => SpawnSpec(st, cs)
    case Apply(e, cs) => st.(toAdd := st.toAdd + [(e, cs)])
    case Unapply(e, ts) => st.(toDelete := st.toDelete + [(e, ts)])
    case Kill(e) => st.(toKill := st.toKill + [e])
    case ScheduleTweak(e, t, f) => st.(tweaks := st.tweaks + [Tweak(e, t, f)])
    case Caught(err) => st.(errors := st.errors + [err])
  }

  function EffectsSpec<T(==), C>(st: State<T, C>, effs: seq<Effect<T, C>>): (r: State<T, C>)
    ensures r.systems == st.systems && r.typeToKeys == st.typeToKeys
    decreases |effs|
  {
    if effs == [] then st else EffectSpec(EffectsSpec(st, effs[..|effs| - 1]), effs[|effs| - 1])
  }

  /** One system run inside `step`: its calls take effect in order, then an
      exception it raised goes to `on_error`. */
  function ReactSpec<T(==), C>(st: State<T, C>, reaction: Reaction<T, C>): (r: State<T, C>)
    ensures r.systems == st.systems && r.typeToKeys == st.typeToKeys
  {
    var after := EffectsSpec(st, reaction.effects);
    if reaction.raised.Some? then after.(errors := after.errors + [reaction.raised.value]) else after
  }

  /** The systems of `step`, in registration order; each handler sees the
      store as the systems before it left it. */
  function RunSystemsSpec<T(==), C>(st: State<T, C>, systems: seq<System<T, C>>): (r: State<T, C>)
    ensures r.systems == st.systems && r.typeToKeys == st.typeToKeys
    decreases |systems|
  {
    if systems == [] then
      st
    else
      var before := RunSystemsSpec(st, systems[..|systems| - 1]);
      ReactSpec(before, systems[|systems| - 1].handler(before.store))
  }

  /** The messages a system run passes to `on_error`: one per caught block,
      then the exception that ended it. */
  function Reported<T, C>(effs: seq<Effect<T, C>>): seq<string>
    decreases |effs|
  {
    if effs == [] then
      []
    else
      var last := effs[|effs| - 1];
      Reported(effs[..|effs| - 1]) + if last.Caught? then [last.error] else []
  }

  /** A system's errors never stop the world: each caught block and the
      exception that ended the run are passed to `on_error`, in order, and
      every call made before the exception still takes effect. */
  lemma {:induction false} ReactReports<T, C>(st: State<T, C>, reaction: Reaction<T, C>)
    ensures ReactSpec(st, reaction).errors
      == st.errors + Reported(reaction.effects) + (if reaction.raised.Some? then [reaction.raised.value] else [])
  {
    EffectsReport(st, reaction.effects);
  }

  lemma {:induction false} EffectsReport<T, C>(st: State<T, C>, effs: seq<Effect<T, C>>)
    ensures EffectsSpec(st, effs).errors == st.errors + Reported(effs)
    decreases |effs|
  {
    if effs != [] {
      EffectsReport(st, effs[..|effs| - 1]);
    }
  }

  // ---------------------------------------------------------------- commit

  /** The store after a prefix of a queue, and the `KeyError` that stopped it. */
  datatype Run<T, C> = Run(store: Store<T, C>, failure: Option<Failure<T>>)

  /** One committed operation: a failing one leaves the store as it was. */
  function Attempt<T, C>(s: Store<T, C>, r: Result<Store<T, C>, Failure<T>>): (run: Run<T, C>)
    ensures run.failure.None? <==> r.Ok?
  {
    match r
    case Ok(s') => Run(s', None)
    case Err(f) => Run(s, Some(f))
  }

  /** The loop over `_components_to_delete`; the first failure stops it. */
  function RunDeletes<T(==), C>(s: Store<T, C>, q: seq<(Entity, seq<T>)>): Run<T, C>
    decreases |q|
  {
    if q == [] then
      Run(s, None)
    else
      var before := RunDeletes(s, q[..|q| - 1]);
      if before.failure.Some? then before
      else Attempt(before.store, RemoveOp(before.store, q[|q| - 1].0, q[|q| - 1].1))
  }

  /** The loop over `_components_to_add`. */
  function RunAdds<T(==), C>(s: Store<T, C>, q: seq<(Entity, seq<C>)>, typeOf: C -> T): Run<T, C>
    decreases |q|
  {
    if q == [] then
      Run(s, None)
    else
      var before := RunAdds(s, q[..|q| - 1], typeOf);
      if before.failure.Some? then before
      else Attempt(before.store, AddOp(before.store, q[|q| - 1].0, q[|q| - 1].1, typeOf))
  }

  /** The loop over `_entities_to_delete`. */
  function RunKills<T(==), C>(s: Store<T, C>, q: seq<Entity>): Run<T, C>
    decreases |q|
  {
    if q == [] then
      Run(s, None)
    else
      var before := RunKills(s, q[..|q| - 1]);
      if before.failure.Some? then before
      else Attempt(before.store, KillOp(before.store, q[|q| - 1]))
  }

  /** The loop over `_tweaks`. */
  function RunTweaks<T(==), C>(s: Store<T, C>, q: seq<Tweak<T, C>>): Store<T, C>
    decreases |q|
  {
    if q == [] then
      s
    else
      var last := q[|q| - 1];
      TweakOp(RunTweaks(s, q[..|q| - 1]), last.entity, last.t, last.callback)
  }

  /** A world after `commit` or `step`, and the `KeyError` it raised. */
  datatype Outcome<!T, !C> = Outcome(state: State<T, C>, failure: Option<Failure<T>>)

  /** `commit`: removals, then additions, then kills; only when all three
      succeed are the queues cleared and the tweaks applied.  A failure
      propagates with the queues untouched.  `do_add_components` marks the
      world as started before its lookup, so a commit that reaches a
      non-empty addition queue always does. */
  function CommitSpec<T(==), C>(st: State<T, C>, typeOf: C -> T): (r: Outcome<T, C>)
    ensures r.failure.None? ==> Settled(r.state)
    ensures r.failure.Some? ==>
      r.state.toAdd == st.toAdd && r.state.toDelete == st.toDelete
      && r.state.toKill == st.toKill && r.state.tweaks == st.tweaks
    ensures r.state.systems == st.systems && r.state.typeToKeys == st.typeToKeys
    ensures r.state.errors == st.errors && r.state.next == st.next
    ensures st.frozen ==> r.state.frozen
  {
    var deleted := RunDeletes(st.store, st.toDelete);
    if deleted.failure.Some? then
      Outcome(st.(store := deleted.store), deleted.failure)
    else
      var started := st.(frozen := st.frozen || st.toAdd != []);
      var added := RunAdds(deleted.store, st.toAdd, typeOf);
      if added.failure.Some? then
        Outcome(started.(store := added.store), added.failure)
      else
        var killed := RunKills(added.store, st.toKill);
        if killed.failure.Some? then
          Outcome(started.(store := killed.store), killed.failure)
        else
          Outcome(started.(store := RunTweaks(killed.store, st.tweaks),
                           toAdd := [], toDelete := [], toKill := [], tweaks := []), None)
  }

  /** `step`: mark the world as started, run every system, then commit. */
  function StepSpec<T(==), C>(st: State<T, C>, typeOf: C -> T): Outcome<T, C> {
    var ran := RunSystemsSpec(st.(frozen := true), st.systems);
    CommitSpec(ran, typeOf)
  }

  // ---------------------------------------------------------------- registration

  /** `_type_to_keys.setdefault(ct, set()).add(key)` for each type in `ts`. */
  function Enroll<T(==)>(m: map<T, set<Key<T>>>, ts: seq<T>, key: Key<T>): (r: map<T, set<Key<T>>>)
    decreases |ts|
  {
    if ts == [] then
      m
    else
      var before := Enroll(m, ts[..|ts| - 1], key);
      var t := ts[|ts| - 1];
      before[t := (if t in before then before[t] else {}) + {key}]
  }

  /** After `Enroll`, a type maps to a key exactly when it did before or it
      is one of the enrolled types and the key is the enrolled one. */
  lemma {:induction false} EnrollExact<T>(m: map<T, set<Key<T>>>, ts: seq<T>, key: Key<T>, t: T, k: Key<T>)
    ensures t in Enroll(m, ts, key) <==> t in m || t in ts
    ensures t in Enroll(m, ts, key) ==>
      (k in Enroll(m, ts, key)[t] <==> (t in m && k in m[t]) || (t in ts && k == key))
    decreases |ts|
  {
    if ts != [] {
      EnrollExact(m, ts[..|ts| - 1], key, t, k);
      assert ts == ts[..|ts| - 1] + [ts[|ts| - 1]];
    }
  }

  /** `_register_query`. */
  function RegisterSpec<T(==), C>(st: State<T, C>, key: Key<T>): (r: State<T, C>)
    ensures r.systems == st.systems
  {
    st.(typeToKeys := Enroll(st.typeToKeys, key, key), store := RegisterOp(st.store, key))
  }

  function RegisterAllSpec<T(==), C>(st: State<T, C>, keys: seq<Key<T>>): (r: State<T, C>)
    ensures r.systems == st.systems
    decreases |keys|
  {
    if keys == [] then st else RegisterSpec(RegisterAllSpec(st, keys[..|keys| - 1]), keys[|keys| - 1])
  }

  /** One system of `add_systems`: register its queries, then append it. */
  function AddSystemSpec<T(==), C>(st: State<T, C>, sys: System<T, C>): (r: State<T, C>)
    ensures r.systems == st.systems + [sys]
  {
    var registered := RegisterAllSpec(st, sys.queries);
    registered.(systems := registered.systems + [sys])
  }

  /** `add_systems` on a world that has not started. */
  function AddSystemsSpec<T(==), C>(st: State<T, C>, fns: seq<System<T, C>>): (r: State<T, C>)
    ensures r.systems == st.systems + fns
    decreases |fns|
  {
    if fns == [] then
      st
    else
      var before := AddSystemsSpec(st, fns[..|fns| - 1]);
      assert fns == fns[..|fns| - 1] + [fns[|fns| - 1]];
      AddSystemSpec(before, fns[|fns| - 1])
  }

  // ---------------------------------------------------------------- consistency

  /** `_type_to_keys` maps each type to the registered keys that mention it. */
  ghost predicate TypesIndexed<T, C>(st: State<T, C>) {
    && (forall t, k :: t in st.typeToKeys && k in st.typeToKeys[t] ==> k in st.store.index && t in k)
    && (forall k, t :: k in st.store.index && t in k ==> t in st.typeToKeys && k in st.typeToKeys[t])
  }

  /** A consistent world: its store keeps the store invariant, no entity
      exists before the world has started, and the type map agrees with the
      registered keys. */
  ghost predicate WorldInv<T, C>(st: State<T, C>) {
    && Inv(st.store, st.next)
    && (!st.frozen ==> st.store.components == map[])
    && TypesIndexed(st)
  }

  /** The world invariant does not look at the queues or the errors. */
  lemma {:induction false} QueuesKeepWorldInv<T, C>(st: State<T, C>, st': State<T, C>)
    requires WorldInv(st)
    requires st'.store == st.store && st'.next == st.next && st'.frozen == st.frozen
    requires st'.typeToKeys == st.typeToKeys
    ensures WorldInv(st')
  {
  }

  lemma {:induction false} InitialConsistent<T, C>()
    ensures WorldInv(Initial<T, C>())
  {
  }

  lemma {:induction false} SpawnKeepsWorldInv<T, C>(st: State<T, C>, components: seq<C>)
    requires WorldInv(st)
    ensures WorldInv(SpawnSpec(st, components))
  {
    var r := SpawnSpec(st, components);
    SpawnKeepsInv(st.store, st.next);
    IndexKeepsTypesIndexed(st, r);
  }

  /** The type map's agreement with the keys depends on the index alone. */
  lemma {:induction false} IndexKeepsTypesIndexed<T, C>(st: State<T, C>, st': State<T, C>)
    requires TypesIndexed(st)
    requires st'.store.index == st.store.index && st'.typeToKeys == st.typeToKeys
    ensures TypesIndexed(st')
  {
  }

  lemma {:induction false} EffectsKeepWorldInv<T, C>(st: State<T, C>, effs: seq<Effect<T, C>>)
    requires WorldInv(st)
    ensures WorldInv(EffectsSpec(st, effs))
    decreases |effs|
  {
    if effs != [] {
      var before := EffectsSpec(st, effs[..|effs| - 1]);
      EffectsKeepWorldInv(st, effs[..|effs| - 1]);
      if effs[|effs| - 1].Spawn? {
        SpawnKeepsWorldInv(before, effs[|effs| - 1].components);
      }
    }
  }

  /** Running the systems keeps the world consistent, whatever they do. */
  lemma {:induction false} RunSystemsKeepsWorldInv<T, C>(st: State<T, C>, systems: seq<System<T, C>>)
    requires WorldInv(st)
    ensures WorldInv(RunSystemsSpec(st, systems))
    decreases |systems|
  {
    if systems != [] {
      var before := RunSystemsSpec(st, systems[..|systems| - 1]);
      RunSystemsKeepsWorldInv(st, systems[..|systems| - 1]);
      EffectsKeepWorldInv(before, systems[|systems| - 1].handler(before.store).effects);
    }
  }

  /** A queue of removals keeps the store invariant and the set of live
      entities; the first failure stops it for good. */
  lemma {:induction false} RunDeletesKeepsInv<T, C>(s: Store<T, C>, next: int, q: seq<(Entity, seq<T>)>)
    requires Inv(s, next)
    ensures Inv(RunDeletes(s, q).store, next)
    ensures RunDeletes(s, q).store.components.Keys == s.components.Keys
    ensures RunDeletes(s, q).store.index.Keys == s.index.Keys
    decreases |q|
  {
    if q != [] {
      var before := RunDeletes(s, q[..|q| - 1]);
      RunDeletesKeepsInv(s, next, q[..|q| - 1]);
      if before.failure.None? && RemoveOp(before.store, q[|q| - 1].0, q[|q| - 1].1).Ok? {
        RemoveKeepsInv(before.store, next, q[|q| - 1].0, q[|q| - 1].1);
      }
    }
  }

  lemma {:induction false} RunAddsKeepsInv<T, C>(s: Store<T, C>, next: int, q: seq<(Entity, seq<C>)>, typeOf: C -> T)
    requires Inv(s, next)
    ensures Inv(RunAdds(s, q, typeOf).store, next)
    ensures RunAdds(s, q, typeOf).store.components.Keys == s.components.Keys
    ensures RunAdds(s, q, typeOf).store.index.Keys == s.index.Keys
    decreases |q|
  {
    if q != [] {
      var before := RunAdds(s, q[..|q| - 1], typeOf);
      RunAddsKeepsInv(s, next, q[..|q| - 1], typeOf);
      if before.failure.None? && AddOp(before.store, q[|q| - 1].0, q[|q| - 1].1, typeOf).Ok? {
        AddKeepsInv(before.store, next, q[|q| - 1].0, q[|q| - 1].1, typeOf);
      }
    }
  }

  lemma {:induction false} RunKillsKeepsInv<T, C>(s: Store<T, C>, next: int, q: seq<Entity>)
    requires Inv(s, next)
    ensures Inv(RunKills(s, q).store, next)
    ensures RunKills(s, q).store.components.Keys <= s.components.Keys
    ensures RunKills(s, q).store.index.Keys == s.index.Keys
    decreases |q|
  {
    if q != [] {
      var before := RunKills(s, q[..|q| - 1]);
      RunKillsKeepsInv(s, next, q[..|q| - 1]);
      if before.failure.None? && KillOp(before.store, q[|q| - 1]).Ok? {
        KillKeepsInv(before.store, next, q[|q| - 1]);
      }
    }
  }

  lemma {:induction false} RunTweaksKeepsInv<T, C>(s: Store<T, C>, next: int, q: seq<Tweak<T, C>>)
    requires Inv(s, next)
    ensures Inv(RunTweaks(s, q), next)
    ensures RunTweaks(s, q).components.Keys == s.components.Keys
    ensures RunTweaks(s, q).index == s.index
    decreases |q|
  {
    if q != [] {
      var last := q[|q| - 1];
      RunTweaksKeepsInv(s, next, q[..|q| - 1]);
      TweakKeepsInv(RunTweaks(s, q[..|q| - 1]), next, last.entity, last.t, last.callback);
    }
  }

  /** What `commit` does to the store: it keeps the store invariant and the
      registered keys, and it never brings an entity to life. */
  lemma {:induction false} CommitKeepsInv<T, C>(st: State<T, C>, typeOf: C -> T)
    requires Inv(st.store, st.next)
    ensures Inv(CommitSpec(st, typeOf).state.store, st.next)
    ensures CommitSpec(st, typeOf).state.store.components.Keys <= st.store.components.Keys
    ensures CommitSpec(st, typeOf).state.store.index.Keys == st.store.index.Keys
  {
    var deleted := RunDeletes(st.store, st.toDelete);
    RunDeletesKeepsInv(st.store, st.next, st.toDelete);
    if deleted.failure.None? {
      var added := RunAdds(deleted.store, st.toAdd, typeOf);
      RunAddsKeepsInv(deleted.store, st.next, st.toAdd, typeOf);
      if added.failure.None? {
        var killed := RunKills(added.store, st.toKill);
        RunKillsKeepsInv(added.store, st.next, st.toKill);
        if killed.failure.None? {
          RunTweaksKeepsInv(killed.store, st.next, st.tweaks);
        }
      }
    }
  }

  /** `commit` keeps the world consistent, whether it succeeds or raises. */
  lemma {:induction false} CommitKeepsWorldInv<T, C>(st: State<T, C>, typeOf: C -> T)
    requires WorldInv(st)
    ensures WorldInv(CommitSpec(st, typeOf).state)
  {
    CommitKeepsInv(st, typeOf);
    var r := CommitSpec(st, typeOf).state;
    assert r.typeToKeys == st.typeToKeys;
    if !r.frozen {
      assert !st.frozen;
      assert r.store.components.Keys == {};
    }
  }

  /** `step` keeps the world consistent. */
  lemma {:induction false} StepKeepsWorldInv<T, C>(st: State<T, C>, typeOf: C -> T)
    requires WorldInv(st)
    ensures WorldInv(StepSpec(st, typeOf).state)
  {
    var ran := RunSystemsSpec(st.(frozen := true), st.systems);
    RunSystemsKeepsWorldInv(st.(frozen := true), st.systems);
    CommitKeepsWorldInv(ran, typeOf);
  }

  lemma {:induction false} RegisterKeepsWorldInv<T, C>(st: State<T, C>, key: Key<T>)
    requires WorldInv(st) && !st.frozen
    ensures WorldInv(RegisterSpec(st, key)) && !RegisterSpec(st, key).frozen
  {
    var r := RegisterSpec(st, key);
    RegisterKeepsInv(st.store, st.next, key);
    forall t, k | t in r.typeToKeys && k in r.typeToKeys[t]
      ensures k in r.store.index && t in k
    {
      EnrollExact(st.typeToKeys, key, key, t, k);
    }
    forall k, t | k in r.store.index && t in k
      ensures t in r.typeToKeys && k in r.typeToKeys[t]
    {
      EnrollExact(st.typeToKeys, key, key, t, k);
    }
  }

  lemma {:induction false} RegisterAllKeepsWorldInv<T, C>(st: State<T, C>, keys: seq<Key<T>>)
    requires WorldInv(st) && !st.frozen
    ensures WorldInv(RegisterAllSpec(st, keys)) && !RegisterAllSpec(st, keys).frozen
    decreases |keys|
  {
    if keys != [] {
      RegisterAllKeepsWorldInv(st, keys[..|keys| - 1]);
      RegisterKeepsWorldInv(RegisterAllSpec(st, keys[..|keys| - 1]), keys[|keys| - 1]);
    }
  }

  /** `add_systems` on a world that has not started keeps it consistent and
      registers every query key of every system. */
  lemma {:induction false} AddSystemsKeepsWorldInv<T, C>(st: State<T, C>, fns: seq<System<T, C>>)
    requires WorldInv(st) && !st.frozen
    ensures WorldInv(AddSystemsSpec(st, fns)) && !AddSystemsSpec(st, fns).frozen
    decreases |fns|
  {
    if fns != [] {
      AddSystemsKeepsWorldInv(st, fns[..|fns| - 1]);
      RegisterAllKeepsWorldInv(AddSystemsSpec(st, fns[..|fns| - 1]), fns[|fns| - 1].queries);
    }
  }

  // ---------------------------------------------------------------- commit facts

  /** Once an operation of a queue fails, the rest of the queue is skipped. */
  lemma {:induction false} RunDeletesSticks<T, C>(s: Store<T, C>, q: seq<(Entity, seq<T>)>, i: nat)
    requires i <= |q| && RunDeletes(s, q[..i]).failure.Some?
    ensures RunDeletes(s, q) == RunDeletes(s, q[..i])
    decreases |q| - i
  {
    if i < |q| {
      assert q[..i + 1][..i] == q[..i];
      RunDeletesSticks(s, q, i + 1);
    } else {
      assert q[..i] == q;
    }
  }

  lemma {:induction false} RunAddsSticks<T, C>(s: Store<T, C>, q: seq<(Entity, seq<C>)>, typeOf: C -> T, i: nat)
    requires i <= |q| && RunAdds(s, q[..i], typeOf).failure.Some?
    ensures RunAdds(s, q, typeOf) == RunAdds(s, q[..i], typeOf)
    decreases |q| - i
  {
    if i < |q| {
      assert q[..i + 1][..i] == q[..i];
      RunAddsSticks(s, q, typeOf, i + 1);
    } else {
      assert q[..i] == q;
    }
  }

  lemma {:induction false} RunKillsSticks<T, C>(s: Store<T, C>, q: seq<Entity>, i: nat)
    requires i <= |q| && RunKills(s, q[..i]).failure.Some?
    ensures RunKills(s, q) == RunKills(s, q[..i])
    decreases |q| - i
  {
    if i < |q| {
      assert q[..i + 1][..i] == q[..i];
      RunKillsSticks(s, q, i + 1);
    } else {
      assert q[..i] == q;
    }
  }

  /** Every entity of a kill queue that ran to the end is gone from the store
      afterwards, even one an earlier addition of the same commit touched. */
  lemma {:induction false} RunKillsRemoves<T, C>(s: Store<T, C>, q: seq<Entity>)
    requires RunKills(s, q).failure.None?
    ensures forall e :: e in q ==> e !in RunKills(s, q).store.components
    ensures RunKills(s, q).store.components.Keys <= s.components.Keys
    decreases |q|
  {
    if q != [] {
      var init := q[..|q| - 1];
      RunKillsRemoves(s, init);
      assert forall e :: e in q ==> e in init || e == q[|q| - 1];
    }
  }

  /** A successful commit leaves none of its killed entities alive. */
  lemma {:induction false} CommitKillsLast<T, C>(st: State<T, C>, typeOf: C -> T, e: Entity)
    requires CommitSpec(st, typeOf).failure.None?
    requires e in st.toKill
    ensures e !in CommitSpec(st, typeOf).state.store.components
  {
    var deleted := RunDeletes(st.store, st.toDelete);
    var added := RunAdds(deleted.store, st.toAdd, typeOf);
    var killed := RunKills(added.store, st.toKill);
    RunKillsRemoves(added.store, st.toKill);
    assert e !in killed.store.components;
    assert RunTweaks(killed.store, st.tweaks).components.Keys == killed.store.components.Keys by {
      RunTweaksKeys(killed.store, st.tweaks);
    }
  }

  lemma {:induction false} RunTweaksKeys<T, C>(s: Store<T, C>, q: seq<Tweak<T, C>>)
    ensures RunTweaks(s, q).components.Keys == s.components.Keys
    ensures RunTweaks(s, q).index == s.index
    decreases |q|
  {
    if q != [] {
      RunTweaksKeys(s, q[..|q| - 1]);
    }
  }

  /** Committing again right after a successful commit changes nothing. */
  lemma {:induction false} CommitIdempotent<T, C>(st: State<T, C>, typeOf: C -> T)
    requires CommitSpec(st, typeOf).failure.None?
    ensures CommitSpec(CommitSpec(st, typeOf).state, typeOf) == CommitSpec(st, typeOf)
  {
  }

  // ---------------------------------------------------------------- commit, entity by entity

  /** The types a removal queue drops from entity `x`. */
  function DroppedFrom<T(==)>(q: seq<(Entity, seq<T>)>, x: Entity): set<T>
    decreases |q|
  {
    if q == [] then
      {}
    else
      DroppedFrom(q[..|q| - 1], x) + if q[|q| - 1].0 == x then KeySet(q[|q| - 1].1) else {}
  }

  /** The components an addition queue stores on entity `x`, in queue order. */
  function AddedTo<C>(q: seq<(Entity, seq<C>)>, x: Entity): seq<C>
    decreases |q|
  {
    if q == [] then
      []
    else
      AddedTo(q[..|q| - 1], x) + if q[|q| - 1].0 == x then q[|q| - 1].1 else []
  }

  lemma {:induction false} DroppedFromConcat<T>(a: seq<(Entity, seq<T>)>, b: seq<(Entity, seq<T>)>, x: Entity)
    ensures DroppedFrom(a + b, x) == DroppedFrom(a, x) + DroppedFrom(b, x)
    decreases |b|
  {
    if b == [] {
      assert a + b == a;
    } else {
      DroppedFromConcat(a, b[..|b| - 1], x);
      assert (a + b)[..|a + b| - 1] == a + b[..|b| - 1];
    }
  }

  lemma {:induction false} AddedToConcat<C>(a: seq<(Entity, seq<C>)>, b: seq<(Entity, seq<C>)>, x: Entity)
    ensures AddedTo(a + b, x) == AddedTo(a, x) + AddedTo(b, x)
    decreases |b|
  {
    if b == [] {
      assert a + b == a;
    } else {
      AddedToConcat(a, b[..|b| - 1], x);
      assert (a + b)[..|a + b| - 1] == a + b[..|b| - 1];
    }
  }

  /** A queue that names `x` nowhere drops nothing from it. */
  lemma {:induction false} DroppedFromAbsent<T>(q: seq<(Entity, seq<T>)>, x: Entity)
    requires forall j :: 0 <= j < |q| ==> q[j].0 != x
    ensures DroppedFrom(q, x) == {}
    decreases |q|
  {
    if q != [] {
      DroppedFromAbsent(q[..|q| - 1], x);
    }
  }

  /** A queue that names `q[i].0` only at `i` drops from it exactly `q[i].1`. */
  lemma {:induction false} DroppedFromOnce<T>(q: seq<(Entity, seq<T>)>, i: int)
    requires 0 <= i < |q|
    requires forall j :: 0 <= j < |q| && j != i ==> q[j].0 != q[i].0
    ensures DroppedFrom(q, q[i].0) == KeySet(q[i].1)
    decreases |q|
  {
    var init := q[..|q| - 1];
    if i == |q| - 1 {
      DroppedFromAbsent(init, q[i].0);
    } else {
      DroppedFromOnce(init, i);
    }
  }

  /** A queue that names `x` nowhere adds nothing to it. */
  lemma {:induction false} AddedToAbsent<C>(q: seq<(Entity, seq<C>)>, x: Entity)
    requires forall j :: 0 <= j < |q| ==> q[j].0 != x
    ensures AddedTo(q, x) == []
    decreases |q|
  {
    if q != [] {
      AddedToAbsent(q[..|q| - 1], x);
    }
  }

  /** A queue that names `q[i].0` only at `i` adds to it exactly `q[i].1`. */
  lemma {:induction false} AddedToOnce<C>(q: seq<(Entity, seq<C>)>, i: int)
    requires 0 <= i < |q|
    requires forall j :: 0 <= j < |q| && j != i ==> q[j].0 != q[i].0
    ensures AddedTo(q, q[i].0) == q[i].1
    decreases |q|
  {
    var init := q[..|q| - 1];
    if i == |q| - 1 {
      AddedToAbsent(init, q[i].0);
    } else {
      AddedToOnce(init, i);
      assert AddedTo(init, q[i].0) + [] == q[i].1;
    }
  }

  /** A removal queue over live entities runs to the end and takes from each
      entity exactly the types queued for it. */
  lemma {:induction false} RunDeletesComponents<T, C>(s: Store<T, C>, next: int, q: seq<(Entity, seq<T>)>)
    requires Inv(s, next)
    requires forall i :: 0 <= i < |q| ==> q[i].0 in s.components
    ensures RunDeletes(s, q).failure.None?
    ensures RunDeletes(s, q).store.components.Keys == s.components.Keys
    ensures forall x :: x in s.components ==>
      RunDeletes(s, q).store.components[x] == s.components[x] - DroppedFrom(q, x)
    decreases |q|
  {
    if q != [] {
      var init := q[..|q| - 1];
      var e, ts := q[|q| - 1].0, q[|q| - 1].1;
      RunDeletesComponents(s, next, init);
      RunDeletesKeepsInv(s, next, init);
      var before := RunDeletes(s, init).store;
      var cs := Without(before.components[e], ts);
      assert Unsatisfied(before.entityKeys[e], cs.Keys) <= before.index.Keys;
      var after := RemoveOp(before, e, ts).value;
      forall x | x in s.components
        ensures after.components[x] == s.components[x] - DroppedFrom(q, x)
      {
        if x == e {
          var m, a, b := s.components[x], DroppedFrom(init, x), KeySet(ts);
          assert (m - a) - b == m - (a + b);
        } else {
          assert DroppedFrom(q, x) == DroppedFrom(init, x);
        }
      }
    }
  }

  /** An addition queue over live entities runs to the end and stores on
      each entity the components queued for it, in queue order. */
  lemma {:induction false} RunAddsComponents<T, C>(s: Store<T, C>, q: seq<(Entity, seq<C>)>, typeOf: C -> T)
    requires Aligned(s)
    requires forall i :: 0 <= i < |q| ==> q[i].0 in s.components
    ensures RunAdds(s, q, typeOf).failure.None?
    ensures Aligned(RunAdds(s, q, typeOf).store)
    ensures RunAdds(s, q, typeOf).store.components.Keys == s.components.Keys
    ensures forall x :: x in s.components ==>
      RunAdds(s, q, typeOf).store.components[x] == Upsert(s.components[x], AddedTo(q, x), typeOf)
    decreases |q|
  {
    if q != [] {
      var init := q[..|q| - 1];
      var e, batch := q[|q| - 1].0, q[|q| - 1].1;
      RunAddsComponents(s, init, typeOf);
      var before := RunAdds(s, init, typeOf).store;
      assert e in before.components && e in before.entityKeys;
      AddOpComponents(before, e, batch, typeOf);
      var after := AddOp(before, e, batch, typeOf).value;
      assert RunAdds(s, q, typeOf) == Run(after, None);
      forall x | x in s.components
        ensures after.components[x] == Upsert(s.components[x], AddedTo(q, x), typeOf)
      {
        AddedStepAt(s.components[x], q, x, typeOf);
      }
    }
  }

  /** One more batch on the queue, seen from entity `x`. */
  lemma {:induction false} AddedStepAt<T, C>(cs: map<T, C>, q: seq<(Entity, seq<C>)>, x: Entity, typeOf: C -> T)
    requires q != []
    ensures var prev := Upsert(cs, AddedTo(q[..|q| - 1], x), typeOf);
      (if q[|q| - 1].0 == x then Upsert(prev, q[|q| - 1].1, typeOf) else prev) == Upsert(cs, AddedTo(q, x), typeOf)
  {
    var init, e, batch := q[..|q| - 1], q[|q| - 1].0, q[|q| - 1].1;
    if x == e {
      UpsertConcat(cs, AddedTo(init, x), batch, typeOf);
    } else {
      assert AddedTo(q, x) == AddedTo(init, x) + [];
      assert AddedTo(init, x) + [] == AddedTo(init, x);
    }
  }

  /** A kill queue naming live entities, each once, runs to the end and
      removes exactly those entities. */
  lemma {:induction false} RunKillsSucceed<T, C>(s: Store<T, C>, next: int, q: seq<Entity>)
    requires Inv(s, next)
    requires forall i :: 0 <= i < |q| ==> q[i] in s.components
    requires forall i, j :: 0 <= i < j < |q| ==> q[i] != q[j]
    ensures RunKills(s, q).failure.None?
    ensures RunKills(s, q).store.components == s.components - (set e | e in q)
    decreases |q|
  {
    if q != [] {
      var init := q[..|q| - 1];
      var e := q[|q| - 1];
      RunKillsSucceed(s, next, init);
      RunKillsKeepsInv(s, next, init);
      var before := RunKills(s, init).store;
      assert e !in init;
      assert e in before.entityKeys;
      var after := KillOp(before, e).value;
      assert (set x | x in q) == (set x | x in init) + {e};
      assert after.components == s.components - (set x | x in q);
    }
  }

  /** A commit without tweaks whose queues name live entities, and each
      entity at most once in the kill queue, succeeds.  Afterwards an entity
      that was not killed holds what it held, minus the types queued for
      removal, plus the components queued for it, the later of two
      components of a type winning; a killed entity is gone. */
  lemma {:induction false} CommitComponents<T, C>(st: State<T, C>, typeOf: C -> T)
    requires Inv(st.store, st.next) && st.tweaks == []
    requires forall i :: 0 <= i < |st.toDelete| ==> st.toDelete[i].0 in st.store.components
    requires forall i :: 0 <= i < |st.toAdd| ==> st.toAdd[i].0 in st.store.components
    requires forall i :: 0 <= i < |st.toKill| ==> st.toKill[i] in st.store.components
    requires forall i, j :: 0 <= i < j < |st.toKill| ==> st.toKill[i] != st.toKill[j]
    ensures CommitSpec(st, typeOf).failure.None?
    ensures var after := CommitSpec(st, typeOf).state.store.components;
      && (forall x :: x in st.store.components && x !in st.toKill ==>
            && x in after
            && after[x] == Upsert(st.store.components[x] - DroppedFrom(st.toDelete, x), AddedTo(st.toAdd, x), typeOf))
      && (forall x :: x in st.toKill ==> x !in after)
      && after.Keys == st.store.components.Keys - (set e | e in st.toKill)
  {
    var deleted := RunDeletes(st.store, st.toDelete);
    RunDeletesComponents(st.store, st.next, st.toDelete);
    RunDeletesKeepsInv(st.store, st.next, st.toDelete);
    var added := RunAdds(deleted.store, st.toAdd, typeOf);
    RunAddsComponents(deleted.store, st.toAdd, typeOf);
    RunAddsKeepsInv(deleted.store, st.next, st.toAdd, typeOf);
    RunKillsSucceed(added.store, st.next, st.toKill);
  }

  /** A commit of additions alone, over live entities, succeeds and stores on
      each entity the components queued for it. */
  lemma {:induction false} CommitOnlyAdds<T, C>(st: State<T, C>, typeOf: C -> T)
    requires Inv(st.store, st.next) && st.toDelete == [] && st.toKill == [] && st.tweaks == []
    requires forall i :: 0 <= i < |st.toAdd| ==> st.toAdd[i].0 in st.store.components
    ensures CommitSpec(st, typeOf).failure.None?
    ensures CommitSpec(st, typeOf).state.store.components.Keys == st.store.components.Keys
    ensures forall x :: x in st.store.components ==>
      CommitSpec(st, typeOf).state.store.components[x] == Upsert(st.store.components[x], AddedTo(st.toAdd, x), typeOf)
  {
    CommitNoKills(st, typeOf);
    forall x | x in st.store.components
      ensures st.store.components[x] - DroppedFrom(st.toDelete, x) == st.store.components[x]
    {
      assert st.store.components[x] - {} == st.store.components[x];
    }
  }

  /** A commit without kills, over live entities, succeeds and gives each
      entity its components less its deletions, then with its additions. */
  lemma {:induction false} CommitNoKills<T, C>(st: State<T, C>, typeOf: C -> T)
    requires Inv(st.store, st.next) && st.toKill == [] && st.tweaks == []
    requires forall i :: 0 <= i < |st.toDelete| ==> st.toDelete[i].0 in st.store.components
    requires forall i :: 0 <= i < |st.toAdd| ==> st.toAdd[i].0 in st.store.components
    ensures CommitSpec(st, typeOf).failure.None?
    ensures var cs := st.store.components;
      CommitSpec(st, typeOf).state.store.components
      == map x | x in cs :: Upsert(cs[x] - DroppedFrom(st.toDelete, x), AddedTo(st.toAdd, x), typeOf)
  {
    CommitComponents(st, typeOf);
    assert (set e | e in st.toKill) == {};
  }

  /** A commit of deletions alone, over live entities, succeeds and takes
      from each entity the types queued for it. */
  lemma {:induction false} CommitOnlyDeletes<T, C>(st: State<T, C>, typeOf: C -> T)
    requires Inv(st.store, st.next) && st.toAdd == [] && st.toKill == [] && st.tweaks == []
    requires forall i :: 0 <= i < |st.toDelete| ==> st.toDelete[i].0 in st.store.components
    ensures CommitSpec(st, typeOf).failure.None?
    ensures CommitSpec(st, typeOf).state.store.components
            == map x | x in st.store.components :: st.store.components[x] - DroppedFrom(st.toDelete, x)
  {
    CommitComponents(st, typeOf);
    assert (set e | e in st.toKill) == {};
  }

  /** A commit of kills alone, of live entities each named once, succeeds
      and leaves every other entity as it was. */
  lemma {:induction false} CommitOnlyKills<T, C>(st: State<T, C>, typeOf: C -> T)
    requires Inv(st.store, st.next) && st.toDelete == [] && st.toAdd == [] && st.tweaks == []
    requires forall i :: 0 <= i < |st.toKill| ==> st.toKill[i] in st.store.components
    requires forall i, j :: 0 <= i < j < |st.toKill| ==> st.toKill[i] != st.toKill[j]
    ensures CommitSpec(st, typeOf).failure.None?
    ensures CommitSpec(st, typeOf).state.store.components
            == map x | x in st.store.components && x !in st.toKill :: st.store.components[x]
  {
    CommitComponents(st, typeOf);
    forall x | x in st.store.components && x !in st.toKill
      ensures Upsert(st.store.components[x] - DroppedFrom(st.toDelete, x), AddedTo(st.toAdd, x), typeOf)
              == st.store.components[x]
    {
      assert st.store.components[x] - {} == st.store.components[x];
    }
  }

  // ---------------------------------------------------------------- the class

  /** `World`: the same state as `State`, held in fields that its methods
      update in place.  Each method is proved to agree with the function of
      the first half that specifies it. */
  class World<T(==), C> {
    /** `type(c)`: the type a component is stored under. */
    const typeOf: C -> T

    var systems: seq<System<T, C>>
    var typeToKeys: map<T, set<Key<T>>>
    var keyToEntities: map<Key<T>, set<Entity>>
    var entityToKeys: map<Entity, set<Key<T>>>
    var entityToComponents: map<Entity, map<T, C>>
    /** Everything passed to `on_error`, in order. */
    var errors: seq<string>
    var nextNumber: int
    var frozen: bool
    var componentsToAdd: seq<(Entity, seq<C>)>
    var componentsToDelete: seq<(Entity, seq<T>)>
    var entitiesToDelete: seq<Entity>
    var tweaks: seq<Tweak<T, C>>

    function Contents(): Store<T, C>
      reads this
    {
      Store(entityToComponents, entityToKeys, keyToEntities)
    }

    function Model(): State<T, C>
      reads this
    {
      State(systems, typeToKeys, Contents(), errors, nextNumber, frozen,
            componentsToAdd, componentsToDelete, entitiesToDelete, tweaks)
    }

    ghost predicate Valid()
      reads this
    {
      WorldInv(Model())
    }

    constructor(typeOf: C -> T)
      ensures this.typeOf == typeOf
      ensures Model() == Initial()
      ensures Valid()
    {
      this.typeOf := typeOf;
      systems := [];
      typeToKeys := map[];
      keyToEntities := map[];
      entityToKeys := map[];
      entityToComponents := map[];
      errors := [];
      nextNumber := 0;
      frozen := false;
      componentsToAdd := [];
      componentsToDelete := [];
      entitiesToDelete := [];
      tweaks := [];
      new;
      InitialConsistent<T, C>();
    }

    // -------------------------------------------------------------- queueing

    method Apply(e: Entity, components: seq<C>)
      modifies this
      ensures Model() == old(Model()).(toAdd := old(componentsToAdd) + [(e, components)])
    {
      componentsToAdd := componentsToAdd + [(e, components)];
    }

    method ApplyMany(values: seq<(Entity, seq<C>)>)
      modifies this
      ensures Model() == old(Model()).(toAdd := old(componentsToAdd) + values)
    {
      componentsToAdd := componentsToAdd + values;
    }

    method Unapply(e: Entity, types: seq<T>)
      modifies this
      ensures Model() == old(Model()).(toDelete := old(componentsToDelete) + [(e, types)])
    {
      componentsToDelete := componentsToDelete + [(e, types)];
    }

    method UnapplyMany(values: seq<(Entity, seq<T>)>)
      modifies this
      ensures Model() == old(Model()).(toDelete := old(componentsToDelete) + values)
    {
      componentsToDelete := componentsToDelete + values;
    }

    method Kill(e: Entity)
      modifies this
      ensures Model() == old(Model()).(toKill := old(entitiesToDelete) + [e])
    {
      entitiesToDelete := entitiesToDelete + [e];
    }

    method KillMany(es: seq<Entity>)
      modifies this
      ensures Model() == old(Model()).(toKill := old(entitiesToDelete) + es)
    {
      entitiesToDelete := entitiesToDelete + es;
    }

    method ScheduleTweak(e: Entity, t: T, callback: C -> C)
      modifies this
      ensures Model() == old(Model()).(tweaks := old(tweaks) + [Tweak(e, t, callback)])
    {
      tweaks := tweaks + [Tweak(e, t, callback)];
    }

    /** `with world.catch():` around a body that raised `raised`, or did not
        raise at all. */
    method Catch(raised: Option<string>)
      modifies this
      ensures Model() == old(Model()).(errors := old(errors) + if raised.Some? then [raised.value] else [])
    {
      if raised.Some? {
        errors := errors + [raised.value];
      }
    }

    // -------------------------------------------------------------- spawning

    method Spawn(components: seq<C>) returns (e: Entity)
      modifies this
      ensures e == Entity(old(nextNumber) + 1)
      ensures Model() == SpawnSpec(old(Model()), components)
    {
      frozen := true;
      nextNumber := nextNumber + 1;
      e := Entity(nextNumber);
      entityToComponents := entityToComponents[e := map[]];
      entityToKeys := entityToKeys[e := {}];
      if components != [] {
        Apply(e, components);
      }
    }

    method SpawnMany(tuples: seq<seq<C>>) returns (es: seq<Entity>)
      modifies this
      ensures |es| == |tuples|
      ensures forall i :: 0 <= i < |tuples| ==> es[i] == Entity(old(nextNumber) + i + 1)
      ensures Model() == SpawnAllSpec(old(Model()), tuples)
    {
      es := [];
      for i := 0 to |tuples|
        invariant |es| == i
        invariant forall j :: 0 <= j < i ==> es[j] == Entity(old(nextNumber) + j + 1)
        invariant Model() == SpawnAllSpec(old(Model()), tuples[..i])
      {
        assert tuples[..i + 1][..i] == tuples[..i];
        SpawnAllNumbers(old(Model()), tuples[..i]);
        var e := Spawn(tuples[i]);
        es := es + [e];
      }
      assert tuples[..|tuples|] == tuples;
    }

    // -------------------------------------------------------------- committed operations

    method DoAddComponents(e: Entity, components: seq<C>) returns (failure: Option<Failure<T>>)
      modifies this
      ensures Run(Contents(), failure) == Attempt(old(Contents()), AddOp(old(Contents()), e, components, typeOf))
      ensures Model() == old(Model()).(store := Contents(), frozen := true)
    {
      frozen := true;
      if e !in entityToComponents || e !in entityToKeys {
        return Some(MissingEntity(e));
      }
      var cs := StoreBatch(entityToComponents[e], components, typeOf);
      var index, keys := IndexInsert(keyToEntities, entityToKeys[e], e, cs.Keys);
      entityToComponents := entityToComponents[e := cs];
      entityToKeys := entityToKeys[e := keys];
      keyToEntities := index;
      failure := None;
    }

    method DoDeleteComponents(e: Entity, types: seq<T>) returns (failure: Option<Failure<T>>)
      modifies this
      ensures Run(Contents(), failure) == Attempt(old(Contents()), RemoveOp(old(Contents()), e, types))
      ensures Model() == old(Model()).(store := Contents())
    {
      if e !in entityToComponents || e !in entityToKeys {
        return Some(MissingEntity(e));
      }
      var cs := PopTypes(entityToComponents[e], types);
      var keys := entityToKeys[e];
      var dropped := Unsatisfied(keys, cs.Keys);
      if !(dropped <= keyToEntities.Keys) {
        return Some(UnindexedKey);
      }
      var index := IndexDiscard(keyToEntities, dropped, e);
      entityToComponents := entityToComponents[e := cs];
      entityToKeys := entityToKeys[e := keys - dropped];
      keyToEntities := index;
      failure := None;
    }

    method DoDeleteEntity(e: Entity) returns (failure: Option<Failure<T>>)
      modifies this
      ensures Run(Contents(), failure) == Attempt(old(Contents()), KillOp(old(Contents()), e))
      ensures Model() == old(Model()).(store := Contents())
    {
      if e !in entityToKeys {
        return Some(MissingEntity(e));
      }
      if !(entityToKeys[e] <= keyToEntities.Keys) {
        return Some(UnindexedKey);
      }
      keyToEntities := IndexDiscard(keyToEntities, entityToKeys[e], e);
      entityToKeys := entityToKeys - {e};
      entityToComponents := entityToComponents - {e};
      failure := None;
    }

    // -------------------------------------------------------------- commit

    /** The loop over `_components_to_delete`. */
    method CommitDeletes() returns (failure: Option<Failure<T>>)
      modifies this
      ensures Run(Contents(), failure) == RunDeletes(old(Contents()), old(componentsToDelete))
      ensures Model() == old(Model()).(store := Contents())
    {
      ghost var s0 := Contents();
      var q := componentsToDelete;
      failure := None;
      var i := 0;
      while i < |q| && failure.None?
        invariant 0 <= i <= |q|
        invariant Run(Contents(), failure) == RunDeletes(s0, q[..i])
        invariant Model() == old(Model()).(store := Contents())
      {
        assert q[..i + 1][..i] == q[..i];
        failure := DoDeleteComponents(q[i].0, q[i].1);
        i := i + 1;
      }
      if failure.Some? {
        RunDeletesSticks(s0, q, i);
      } else {
        assert q[..i] == q;
      }
    }

    /** The loop over `_components_to_add`. */
    method CommitAdds() returns (failure: Option<Failure<T>>)
      modifies this
      ensures Run(Contents(), failure) == RunAdds(old(Contents()), old(componentsToAdd), typeOf)
      ensures Model() == old(Model()).(store := Contents(), frozen := old(frozen) || old(componentsToAdd) != [])
    {
      ghost var s0 := Contents();
      var q := componentsToAdd;
      failure := None;
      var i := 0;
      while i < |q| && failure.None?
        invariant 0 <= i <= |q|
        invariant Run(Contents(), failure) == RunAdds(s0, q[..i], typeOf)
        invariant Model() == old(Model()).(store := Contents(), frozen := old(frozen) || i > 0)
      {
        assert q[..i + 1][..i] == q[..i];
        failure := DoAddComponents(q[i].0, q[i].1);
        i := i + 1;
      }
      if failure.Some? {
        RunAddsSticks(s0, q, typeOf, i);
      } else {
        assert q[..i] == q;
      }
    }

    /** The loop over `_entities_to_delete`. */
    method CommitKills() returns (failure: Option<Failure<T>>)
      modifies this
      ensures Run(Contents(), failure) == RunKills(old(Contents()), old(entitiesToDelete))
      ensures Model() == old(Model()).(store := Contents())
    {
      ghost var s0 := Contents();
      var q := entitiesToDelete;
      failure := None;
      var i := 0;
      while i < |q| && failure.None?
        invariant 0 <= i <= |q|
        invariant Run(Contents(), failure) == RunKills(s0, q[..i])
        invariant Model() == old(Model()).(store := Contents())
      {
        assert q[..i + 1][..i] == q[..i];
        failure := DoDeleteEntity(q[i]);
        i := i + 1;
      }
      if failure.Some? {
        RunKillsSticks(s0, q, i);
      } else {
        assert q[..i] == q;
      }
    }

    /** The loop over `_tweaks`. */
    method CommitTweaks()
      modifies this
      ensures Model() == old(Model()).(store := RunTweaks(old(Contents()), old(tweaks)))
    {
      var q := tweaks;
      for i := 0 to |q|
        invariant Model() == old(Model()).(store := RunTweaks(old(Contents()), q[..i]))
      {
        assert q[..i + 1][..i] == q[..i];
        var tweak := q[i];
        if tweak.entity in entityToComponents && tweak.t in entityToComponents[tweak.entity] {
          var cs := entityToComponents[tweak.entity];
          entityToComponents := entityToComponents[tweak.entity := cs[tweak.t := tweak.callback(cs[tweak.t])]];
        }
      }
      assert q[..|q|] == q;
    }

    method Commit() returns (failure: Option<Failure<T>>)
      modifies this
      ensures Outcome(Model(), failure) == CommitSpec(old(Model()), typeOf)
    {
      failure := CommitDeletes();
      if failure.Some? {
        return;
      }
      failure := CommitAdds();
      if failure.Some? {
        return;
      }
      failure := CommitKills();
      if failure.Some? {
        return;
      }
      componentsToAdd := [];
      componentsToDelete := [];
      entitiesToDelete := [];
      CommitTweaks();
      tweaks := [];
    }

    // -------------------------------------------------------------- step

    /** One world call of a running system. */
    method Perform(eff: Effect<T, C>)
      modifies this
      ensures Model() == EffectSpec(old(Model()), eff)
    {
      match eff
      case Spawn(cs) =>
        var _ := Spawn(cs);
      case Apply(e, cs) =>
        Apply(e, cs);
      case Unapply(e, ts) =>
        Unapply(e, ts);
      case Kill(e) =>
        Kill(e);
      case ScheduleTweak(e, t, f) =>
        ScheduleTweak(e, t, f);
      case Caught(err) =>
        Catch(Some(err));
    }

    /** One system run: its calls in order, then `on_error` for the
        exception that ended it. */
    method React(reaction: Reaction<T, C>)
      modifies this
      ensures Model() == ReactSpec(old(Model()), reaction)
    {
      var effs := reaction.effects;
      for i := 0 to |effs|
        invariant Model() == EffectsSpec(old(Model()), effs[..i])
      {
        assert effs[..i + 1][..i] == effs[..i];
        Perform(effs[i]);
      }
      assert effs[..|effs|] == effs;
      Catch(reaction.raised);
    }

    method Step() returns (failure: Option<Failure<T>>)
      modifies this
      ensures Outcome(Model(), failure) == StepSpec(old(Model()), typeOf)
    {
      frozen := true;
      var i := 0;
      while i < |systems|
        invariant 0 <= i <= |systems| && systems == old(systems)
        invariant Model() == RunSystemsSpec(old(Model()).(frozen := true), systems[..i])
      {
        assert systems[..i + 1][..i] == systems[..i];
        var reaction := systems[i].handler(Contents());
        React(reaction);
        i := i + 1;
      }
      assert systems[..i] == systems;
      failure := Commit();
    }

    // -------------------------------------------------------------- systems and queries

    method RegisterQuery(key: Key<T>)
      modifies this
      ensures Model() == RegisterSpec(old(Model()), key)
    {
      for i := 0 to |key|
        invariant Model() == old(Model()).(typeToKeys := Enroll(old(typeToKeys), key[..i], key))
      {
        assert key[..i + 1][..i] == key[..i];
        var t := key[i];
        typeToKeys := typeToKeys[t := (if t in typeToKeys then typeToKeys[t] else {}) + {key}];
      }
      assert key[..|key|] == key;
      if key !in keyToEntities {
        keyToEntities := keyToEntities[key := {}];
      }
    }

    method AddSystem(sys: System<T, C>)
      modifies this
      ensures Model() == AddSystemSpec(old(Model()), sys)
    {
      var queries := sys.queries;
      for i := 0 to |queries|
        invariant Model() == RegisterAllSpec(old(Model()), queries[..i])
      {
        assert queries[..i + 1][..i] == queries[..i];
        RegisterQuery(queries[i]);
      }
      assert queries[..|queries|] == queries;
      systems := systems + [sys];
    }

    /** `add_systems`: raises `RuntimeError` once the world has started. */
    method AddSystems(fns: seq<System<T, C>>) returns (raised: bool)
      modifies this
      ensures raised <==> old(frozen)
      ensures raised ==> Model() == old(Model())
      ensures !raised ==> Model() == AddSystemsSpec(old(Model()), fns)
    {
      if frozen {
        return true;
      }
      for i := 0 to |fns|
        invariant Model() == AddSystemsSpec(old(Model()), fns[..i])
      {
        assert fns[..i + 1][..i] == fns[..i];
        AddSystem(fns[i]);
      }
      assert fns[..|fns|] == fns;
      raised := false;
    }

    /** `_query_all`: one row per entity listed under the key, in some order;
        an unregistered key, or a listed entity missing one of the key's
        components, raises `KeyError`. */
    method QueryAll(key: Key<T>) returns (r: Result<seq<(Entity, seq<C>)>, Failure<T>>)
      ensures key !in keyToEntities ==> r == Err(MissingKey(key))
      ensures r.Ok? ==> key in keyToEntities && Listed(r.value) == keyToEntities[key]
      ensures r.Ok? ==> forall i, j :: 0 <= i < j < |r.value| ==> r.value[i].0 != r.value[j].0
      ensures r.Ok? ==> forall i :: 0 <= i < |r.value| ==> Row(Contents(), key, r.value[i].0) == Ok(r.value[i].1)
      ensures key in keyToEntities && (forall e :: e in keyToEntities[key] ==> Row(Contents(), key, e).Ok?) ==> r.Ok?
    {
      if key !in keyToEntities {
        return Err(MissingKey(key));
      }
      r := CollectRows(Contents(), key, keyToEntities[key]);
    }
  }

  /** The loop of `_query_all`: the row of each entity in `todo`, in some
      order, or the first failure met. */
  method CollectRows<T(==), C>(s: Store<T, C>, key: Key<T>, todo: set<Entity>)
    returns (r: Result<seq<(Entity, seq<C>)>, Failure<T>>)
    ensures r.Ok? ==> Listed(r.value) == todo
    ensures r.Ok? ==> forall i, j :: 0 <= i < j < |r.value| ==> r.value[i].0 != r.value[j].0
    ensures r.Ok? ==> forall i :: 0 <= i < |r.value| ==> Row(s, key, r.value[i].0) == Ok(r.value[i].1)
    ensures (forall e :: e in todo ==> Row(s, key, e).Ok?) ==> r.Ok?
  {
    var left := todo;
    var rows: seq<(Entity, seq<C>)> := [];
    while left != {}
      invariant left <= todo
      invariant RowsOf(s, key, rows, todo - left)
      decreases |left|
    {
      var e :| e in left;
      var row := Row(s, key, e);
      if row.Err? {
        return Err(row.error);
      }
      RowsStep(s, key, rows, todo - left, e, row.value);
      assert todo - left + {e} == todo - (left - {e});
      rows := rows + [(e, row.value)];
      left := left - {e};
    }
    assert todo - left == todo;
    return Ok(rows);
  }

  /** `rows` holds, once each, the row of every entity in `done`. */
  ghost predicate RowsOf<T, C>(s: Store<T, C>, key: Key<T>, rows: seq<(Entity, seq<C>)>, done: set<Entity>) {
    && Listed(rows) == done
    && (forall i, j :: 0 <= i < j < |rows| ==> rows[i].0 != rows[j].0)
    && (forall i :: 0 <= i < |rows| ==> Row(s, key, rows[i].0) == Ok(rows[i].1))
  }

  /** One more entity's row extends the collected rows. */
  lemma {:induction false} RowsStep<T, C>(s: Store<T, C>, key: Key<T>, rows: seq<(Entity, seq<C>)>,
                                             done: set<Entity>, e: Entity, v: seq<C>)
    requires RowsOf(s, key, rows, done) && e !in done && Row(s, key, e) == Ok(v)
    ensures RowsOf(s, key, rows + [(e, v)], done + {e})
  {
    RowsAppend(rows, e, v);
    var rows' := rows + [(e, v)];
    forall i | 0 <= i < |rows'|
      ensures Row(s, key, rows'[i].0) == Ok(rows'[i].1)
    {
      if i < |rows| {
        assert rows'[i] == rows[i];
      }
    }
  }

  /** The entities of a list of query rows. */
  function Listed<C>(rows: seq<(Entity, seq<C>)>): set<Entity> {
    set i | 0 <= i < |rows| :: rows[i].0
  }

  lemma {:induction false} ListedAppend<C>(rows: seq<(Entity, seq<C>)>, e: Entity, v: seq<C>)
    ensures Listed(rows + [(e, v)]) == Listed(rows) + {e}
  {
    var rows' := rows + [(e, v)];
    assert rows'[|rows|].0 == e;
    forall x | x in Listed(rows)
      ensures x in Listed(rows')
    {
      var i :| 0 <= i < |rows| && rows[i].0 == x;
      assert rows'[i].0 == x;
    }
  }

  /** Appending a row for an entity not yet listed keeps the rows' entities
      distinct. */
  lemma {:induction false} RowsAppend<C>(rows: seq<(Entity, seq<C>)>, e: Entity, v: seq<C>)
    requires forall i, j :: 0 <= i < j < |rows| ==> rows[i].0 != rows[j].0
    requires e !in Listed(rows)
    ensures Listed(rows + [(e, v)]) == Listed(rows) + {e}
    ensures var rows' := rows + [(e, v)];
      forall i, j :: 0 <= i < j < |rows'| ==> rows'[i].0 != rows'[j].0
  {
    ListedAppend(rows, e, v);
    var rows' := rows + [(e, v)];
    forall i, j | 0 <= i < j < |rows'|
      ensures rows'[i].0 != rows'[j].0
    {
      if j == |rows| {
        assert rows'[i].0 == rows[i].0 && rows[i].0 in Listed(rows);
      }
    }
  }

  /** `Resource`: one value per world. */
  class Resource<T(==), C, V> {
    var values: map<World<T, C>, V>

    constructor()
      ensures values == map[]
    {
      values := map[];
    }

    /** `store`: `get` then yields the value for this world, and nothing
        changes for any other world. */
    method Put(world: World<T, C>, value: V)
      modifies this
      ensures values == old(values)[world := value]
      ensures Get(world) == Some(value)
      ensures forall other :: old(allocated(other)) && other != world ==> Get(other) == old(Get(other))
    {
      values := values[world := value];
    }

    /** `get`: `None` for a world that stored nothing; `__getitem__` raises
        `KeyError` exactly where this is `None`. */
    function Get(world: World<T, C>): (r: Option<V>)
      reads this
      ensures r.Some? <==> world in values
      ensures r.Some? ==> r.value == values[world]
    {
      if world in values then Some(values[world]) else None
    }
  }
}
