# py-ecs-tds core, modelled and proved in Dafny

This project models the core of a small top-down shooter server written in
Python, built around an entity-component store with a deferred command
buffer. It proves the properties that the code and its tests promise.

- **The store** (`game/ecs.py`, modules `EcsStore` and `Ecs`):
  - `World` holds three structures:
    - an entity → (type → component) map;
    - a registered-query-key → entity-set index;
    - the inverse entity → keys map.
  - Systems fill four queues: adds, removes, kills and tweaks.
  - `commit` drains the queues in a fixed order. `step` runs every system and then commits.
  - Each operation is stated on an immutable `State`: `SpawnSpec`, `CommitSpec`, `StepSpec` and so on.
  - The `World` class updates its fields in place. Each of its methods is proved to agree with that specification.
  - The central invariant `EcsStore.Inv` is proved to hold across every operation. For every non-empty registered key, it says the index lists exactly the live entities holding every type of that key. It also says the inverse map mirrors the index.
- **Geometry** (`game/geometry.py`, module `Geometry`):
  - `Vec`, `Box` (corner normalisation, shift, inclusive containment) and `Circle`, over `real`.
  - The square root is a parameter `root: Sqrt`.
- **Collision** (`game/collision.py`, modules `Collision` and `Cells`):
  - the shape dispatch `collide_shapes`;
  - the None-versus-push contracts of `collide_circles` and `collide_box_circle`;
  - the `collide_boxes` stub;
  - the broad-phase grid `BboxGrouper`, as a class whose `Push` files an item under every cell of its box's floor/ceil range.
- **Systems** (`game/systems.py`, modules `Components`, `Systems` and `Detect`):
  - the handlers `ttl`, `remove_gone`, `clear_notifications`, `detect_collisions`, `remove_collisions`, `apply_health`, `apply_score` and `disconnect_players`.
  - Each is a method on a `World` of concrete components.
  - Each comes with a lemma. It states what the world holds after that handler's queue is committed, as a function of the world before.
- **Message buffers** (`game/ws_app.py`, modules `Messages` and `Net`):
  - `NetOutbox`, `NetInbox` and `PlayerQueue`;
  - the client-id counter, and the bookkeeping of `connect_new_player` on entry (`Connect`) and on exit (`Disconnect`).

Outside effects are parameters of the model:
- The square root is `root: Sqrt`.
- The time delta resource of `ttl_system` is `dt`.
- The outbox resource of `disconnect_players_system` is an explicit `NetOutbox`.
- A system handler is a function from the store to the calls it makes plus the exception it raised, if any.
- `on_error` is an `errors` list that each reported error is appended to.

A second kill of the same entity in one commit raises `KeyError` (game/ecs.py:219), and it is modelled as a failure. `commit` stops at that failure and leaves its queues uncleared.

## Model

| member | source | states |
|---|---|---|
| EcsStore.EmptyStore | game/ecs.py:83-86 | a new world's three maps are empty |
| EcsStore.UpsertKeys | game/ecs.py:195-197 | after adding a batch, the entity holds exactly its old types plus the batch's types |
| EcsStore.UpsertLatest | game/ecs.py:196-197 | adding overwrites by type: the last component of a type in the batch is the one stored |
| EcsStore.UpsertUntouched | game/ecs.py:196-197 | a type the batch does not mention keeps its old component, and stays absent if it was absent |
| EcsStore.UpsertConcat | game/ecs.py:118-119 | two add batches for one entity accumulate like one concatenated batch, so the later value wins |
| EcsStore.Without | game/ecs.py:207-209 | `cs.pop(ct, None)` over the types: exactly those types leave the map, other values unchanged, absent types ignored |
| EcsStore.AddOp | game/ecs.py:193-204 | `do_add_components` fails with `KeyError` exactly when the entity is not live |
| EcsStore.RemoveOp | game/ecs.py:206-216 | `do_delete_components` on an entity that is not live fails with `KeyError` |
| EcsStore.KillOp | game/ecs.py:218-222 | `do_delete_entity` of an unknown entity fails with `KeyError`; on success both per-entity maps forget it |
| EcsStore.TweakOp | game/ecs.py:128-131 | a tweak never changes the index, the inverse map or the set of live entities |
| EcsStore.SpawnOp | game/ecs.py:160-162 | spawn adds the entity to the per-entity maps and leaves the index untouched |
| EcsStore.RegisterOp | game/ecs.py:138 | registering adds the key to the index, and a key already registered leaves the store unchanged |
| EcsStore.Project | game/ecs.py:41-43 | `tuple(cs[ct] for ct in key)`: succeeds exactly when every type is present, yields them in key order, else `KeyError` on a missing type |
| EcsStore.Row | game/ecs.py:41-43 | `Query.__getitem__`: `KeyError` on a dead entity, otherwise the projection of its components |
| EcsStore.QueryGet | game/ecs.py:45-48 | `Query.get`: `KeyError` for an unregistered key, `None` for an entity not in the key's index |
| EcsStore.IndexExact | game/ecs.py:193-216 | under the invariant, an entity is in a key's index exactly when it is live and holds every type of the key |
| EcsStore.QueryGetExact | game/ecs.py:45-48 | under the invariant, `get(e)` does not fail, is non-None exactly when `e` holds every type of the key, and returns those components in key order |
| EcsStore.IndexedRowsExist | game/ecs.py:140-145 | every indexed entity is live and its row can be read |
| EcsStore.OpsFailOnlyOnDeadEntities | game/ecs.py:195 | under the invariant, add, remove and kill succeed exactly on live entities |
| EcsStore.SpawnKeepsInv | game/ecs.py:157-162 | spawning the next number keeps the invariant, and that number was not in use |
| EcsStore.AddKeepsInv | game/ecs.py:193-204 | a successful add keeps the index exact and the inverse map mirrored |
| EcsStore.RemoveKeepsInv | game/ecs.py:206-216 | a successful removal drops the entity only from keys it no longer satisfies and keeps the invariant |
| EcsStore.KillKeepsInv | game/ecs.py:218-222 | a successful kill keeps the invariant |
| EcsStore.TweakKeepsInv | game/ecs.py:128-131 | a tweak keeps the invariant |
| EcsStore.RegisterKeepsInv | game/ecs.py:134-138 | registering a key before any entity exists keeps the invariant |
| EcsStore.KillPurges | game/ecs.py:218-222 | a kill of a live entity succeeds, removes it from every index set, and killing it again fails |
| EcsStore.RemoveAbsentIsNoOp | game/ecs.py:208-209 | unapplying types the entity does not hold changes nothing |
| EcsStore.RemoveIdempotent | game/ecs.py:206-216 | removing the same types twice is the same as once |
| EcsStore.AddStores | game/ecs.py:195-197 | after an add: the types are old plus batch, the last of each type wins, and untouched types keep their values |
| EcsStore.TweakTouchesOneComponent | game/ecs.py:128-131 | a tweak replaces exactly one stored value with `callback(old)` and leaves the index alone |
| EcsStore.StoreBatch | game/ecs.py:196-197 | the loop `cs[type(c)] = c` computes the batch upsert |
| EcsStore.PopTypes | game/ecs.py:208-209 | the loop of `cs.pop(ct, None)` computes `Without` |
| EcsStore.IndexInsert | game/ecs.py:201-204 | the loop over the index adds the entity to every key its types satisfy and records those keys |
| EcsStore.IndexDiscard | game/ecs.py:215-216 | the loop discards the entity from exactly the dropped keys |
| Ecs.Initial | game/ecs.py:75-95 | a new world is empty, unfrozen, has no systems, and numbering starts at 0 |
| Ecs.SpawnSpec | game/ecs.py:157-165 | spawn freezes the world and takes the next number; it queues an add only when components were given; the index and other queues are unchanged |
| Ecs.SpawnAllNumbers | game/ecs.py:167-168 | `spawn_many` advances numbering by the number of tuples and freezes the world when it spawned anything |
| Ecs.ReactReports | game/ecs.py:106-110 | a system's errors never stop the world: each caught error and the raised exception reach `on_error` in order, after its calls took effect |
| Ecs.EffectsReport | game/ecs.py:225-229 | a run of calls reports exactly its caught errors |
| Ecs.Attempt | game/ecs.py:114-122 | a commit step reports failure exactly when the operation failed |
| Ecs.CommitSpec | game/ecs.py:114-132 | a successful commit leaves all four queues empty; a failing one leaves them as they were; systems, numbering and errors are unchanged |
| Ecs.EnrollExact | game/ecs.py:135-136 | `_type_to_keys` maps a type to a key exactly when it did before or the key was just registered with that type |
| Ecs.AddSystemSpec | game/ecs.py:155 | a system is appended after those already registered |
| Ecs.AddSystemsSpec | game/ecs.py:151-155 | `add_systems` appends the systems in argument order |
| Ecs.InitialConsistent | game/ecs.py:75-95 | a new world satisfies the world invariant |
| Ecs.SpawnKeepsWorldInv | game/ecs.py:157-165 | spawn keeps the world invariant |
| Ecs.EffectsKeepWorldInv | game/ecs.py:170-191 | queuing calls keeps the world invariant |
| Ecs.RunSystemsKeepsWorldInv | game/ecs.py:106-110 | running the systems keeps the world invariant |
| Ecs.RunDeletesKeepsInv | game/ecs.py:115-116 | the removal phase keeps the invariant and the set of live entities |
| Ecs.RunAddsKeepsInv | game/ecs.py:118-119 | the add phase keeps the invariant and the set of live entities |
| Ecs.RunKillsKeepsInv | game/ecs.py:121-122 | the kill phase keeps the invariant and only shrinks the set of live entities |
| Ecs.RunTweaksKeepsInv | game/ecs.py:128-131 | the tweak phase keeps the invariant, the live entities and the index |
| Ecs.CommitKeepsInv | game/ecs.py:114-132 | after every commit, successful or not, the index is exact; no entity is born |
| Ecs.CommitKeepsWorldInv | game/ecs.py:114-132 | commit keeps the world invariant |
| Ecs.StepKeepsWorldInv | game/ecs.py:103-112 | step keeps the world invariant |
| Ecs.RegisterKeepsWorldInv | game/ecs.py:134-138 | registering a query before the world starts keeps the world invariant |
| Ecs.RegisterAllKeepsWorldInv | game/ecs.py:153-154 | registering several queries keeps the world invariant |
| Ecs.AddSystemsKeepsWorldInv | game/ecs.py:147-155 | `add_systems` on an unfrozen world keeps it consistent and unfrozen |
| Ecs.RunDeletesSticks | game/ecs.py:115-116 | the first failing removal ends the phase |
| Ecs.RunAddsSticks | game/ecs.py:118-119 | the first failing add ends the phase |
| Ecs.RunKillsSticks | game/ecs.py:121-122 | the first failing kill ends the phase |
| Ecs.RunKillsRemoves | game/ecs.py:121-122 | a successful kill phase removes every queued entity |
| Ecs.CommitKillsLast | game/ecs.py:114-122 | a kill wins over adds queued for the same entity in the same commit |
| Ecs.RunTweaksKeys | game/ecs.py:128-132 | tweaks never change live entities or index sets |
| Ecs.CommitIdempotent | game/ecs.py:124-132 | committing again after a successful commit changes nothing |
| Ecs.DroppedFromAbsent | game/ecs.py:115-116 | an entity with no queued removal loses no types |
| Ecs.DroppedFromOnce | game/ecs.py:115-116 | an entity with one queued removal loses exactly its types |
| Ecs.AddedToAbsent | game/ecs.py:118-119 | an entity with no queued add gains nothing |
| Ecs.AddedToOnce | game/ecs.py:118-119 | an entity with one queued add gains exactly that batch |
| Ecs.RunDeletesComponents | game/ecs.py:115-116 | removals on live entities succeed and drop exactly the queued types |
| Ecs.RunAddsComponents | game/ecs.py:118-119 | adds on live entities succeed and upsert each entity's queued batches in order |
| Ecs.RunKillsSucceed | game/ecs.py:121-122 | distinct kills of live entities succeed and remove exactly those entities |
| Ecs.CommitComponents | game/ecs.py:114-122 | commit as removals, then adds, then kills: each survivor holds (old − removed) upserted with its adds, and killed entities are gone |
| Ecs.CommitOnlyAdds | game/ecs.py:118-119 | a commit of adds alone succeeds and upserts each entity's batches |
| Ecs.CommitOnlyKills | game/ecs.py:121-122 | a commit of distinct live kills alone succeeds and removes exactly those entities |
| Ecs.World.constructor | game/ecs.py:75-95 | the class starts as `Initial` and valid |
| Ecs.World.Apply | game/ecs.py:170-171 | appends one add to the add queue |
| Ecs.World.ApplyMany | game/ecs.py:178-179 | extends the add queue |
| Ecs.World.Unapply | game/ecs.py:181-182 | appends one removal |
| Ecs.World.UnapplyMany | game/ecs.py:184-185 | extends the removal queue |
| Ecs.World.Kill | game/ecs.py:187-188 | appends one kill |
| Ecs.World.KillMany | game/ecs.py:190-191 | extends the kill queue |
| Ecs.World.ScheduleTweak | game/ecs.py:173-176 | appends one tweak |
| Ecs.World.Catch | game/ecs.py:224-229 | an error raised in the block is passed to `on_error`, and nothing else changes |
| Ecs.World.Spawn | game/ecs.py:157-165 | returns the next number and updates the fields as `SpawnSpec` |
| Ecs.World.SpawnMany | game/ecs.py:167-168 | returns consecutive entities, one per tuple |
| Ecs.World.DoAddComponents | game/ecs.py:193-204 | in place, does what `AddOp` says, and freezes the world first |
| Ecs.World.DoDeleteComponents | game/ecs.py:206-216 | in place, does what `RemoveOp` says |
| Ecs.World.DoDeleteEntity | game/ecs.py:218-222 | in place, does what `KillOp` says |
| Ecs.World.Commit | game/ecs.py:114-132 | the in-place commit agrees with `CommitSpec` |
| Ecs.World.Step | game/ecs.py:103-112 | the in-place step agrees with `StepSpec` |
| Ecs.World.RegisterQuery | game/ecs.py:134-138 | agrees with registration on states |
| Ecs.World.AddSystems | game/ecs.py:147-155 | raises exactly when the world is frozen and then changes nothing; otherwise registers and appends |
| Ecs.World.QueryAll | game/ecs.py:140-145 | `_query_all`: `KeyError` for an unregistered key; otherwise each indexed entity once with its row, and succeeds whenever every indexed row can be read |
| Ecs.ListedAppend | game/ecs.py:143-145 | listing one more row adds its entity |
| Ecs.Resource.Put | game/ecs.py:59-63 | after `store`, `get` for that world returns the stored value, and `get` for every other world is unchanged |
| Components.TypeTells | game/systems.py:78-168 | `type(c)` identifies each component class |
| Components.RowsShaped | game/ecs.py:140-145 | rows read through a query of a well-typed store have the key's component classes in order |
| Components.AllRows | game/ecs.py:50-51 | `Query.all()` lists exactly the key's index, once each, with well-shaped rows |
| Components.CommitKeepsTyped | game/ecs.py:114-132 | commit keeps each stored component under its own type |
| Geometry.LengthSquaredPositive | game/geometry.py:24-25 | `length_squared` is non-negative and zero only for the zero vector |
| Geometry.LengthPositive | game/geometry.py:27-28 | a non-zero vector has positive length |
| Geometry.CompareBySquares | game/geometry.py:27-28 | for non-negative reals, comparing values agrees with comparing squares |
| Geometry.Normal | game/geometry.py:30-33 | `normal` returns the zero vector unchanged |
| Geometry.NormalKeepsDirection | game/geometry.py:30-33 | the normal of a non-zero vector points the same way |
| Geometry.NormalHasUnitLength | game/geometry.py:30-33 | with an exact square root, the normal has unit length |
| Geometry.AddNegCancels | game/geometry.py:12-22 | adding `v` then `-v` gives back the vector |
| Geometry.MakeBox | game/geometry.py:43-45 | the constructor normalises: `tl` is the componentwise min and `br` the componentwise max of the two points |
| Geometry.MakeBoxSymmetric | game/geometry.py:43-45 | the argument order does not matter |
| Geometry.MakeBoxOfCorners | game/geometry.py:43-45 | rebuilding a box from its corners gives the same box |
| Geometry.CornerList | game/geometry.py:67-68 | `corners()` yields top-left, bottom-right, top-right and bottom-left, in that order |
| Geometry.Width | game/geometry.py:76-77 | width is non-negative |
| Geometry.Height | game/geometry.py:79-80 | height is non-negative |
| Geometry.Size | game/geometry.py:73-74 | `size()` is (width, height), both non-negative |
| Geometry.Shift | game/geometry.py:82-83 | `shift(v)` moves both corners by `v` and preserves width and height |
| Geometry.ShiftBack | game/geometry.py:82-83 | shifting by `v` then by `-v` gives back the same box |
| Geometry.ContainsCornersAndCenter | game/geometry.py:67-71 | `contains` is inclusive: every corner and the centre are contained |
| Geometry.MakeCircle | game/geometry.py:107-108 | a circle exists exactly when its radius is non-negative |
| Geometry.ShiftCircle | game/geometry.py:104-105 | `Circle.shift` moves the centre and preserves the radius |
| Geometry.CircleBoxShape | game/geometry.py:100-102 | `Circle.bbox` as written is centred on the circle with side `radius`, i.e. half-extent `radius/2` |
| Geometry.CircleBoundsShape | game/geometry.py:100-102 | the corrected bounds are centred on the circle with side `2·radius` |
| Geometry.CircleBoundsHoldDisc | game/geometry.py:100-102 | every point of the disc lies in the corrected bounds |
| Collision.NegateOpt | game/collision.py:27-30 | `None` stays `None`; a push is negated |
| Collision.CollideCircles | game/collision.py:58-64 | `None` exactly when the centres are farther apart than the radii's sum; otherwise the damped push along the centre line |
| Collision.CirclesApartBySquares | game/collision.py:58-63 | with an exact root, "apart" is squared distance > squared radius sum |
| Collision.CirclesAntisymmetric | game/collision.py:58-64 | swapping the circles negates the push and keeps `None` |
| Collision.CollideBoxes | game/collision.py:100-101 | the box/box stub always returns `None` |
| Collision.Damped | game/collision.py:94-97 | `None` exactly when the total is zero, otherwise `0.75 * total` |
| Collision.BoxCircle | game/collision.py:67-97 | `None` exactly when the accumulated total is zero, otherwise the damped total |
| Collision.AddCorners | game/collision.py:89-92 | the loop over the corners accumulates the corner pushes |
| Collision.CollideBoxCircle | game/collision.py:67-97 | the imperative accumulation computes `BoxCircle` |
| Collision.CollideShapes | game/collision.py:21-35 | circle/circle dispatches to `collide_circles`; box/circle dispatches to `collide_box_circle`; box/box gives `None`; circle/box gives the negated box/circle push, with `None` kept |
| Collision.NegateTwice | game/collision.py:27-30 | negating twice gives back the result |
| Collision.CollideShapesAntisymmetric | game/collision.py:21-35 | swapping the shapes negates the result, for every pair of shape kinds |
| Collision.Ceil | game/collision.py:45 | `ceil(x)` is the least integer not below `x` |
| Collision.FirstCellInRange | game/collision.py:44-52 | the range of a normalised box is never empty: its first cell is in it |
| Collision.BlockIsRange | game/collision.py:44-51 | the cells visited by the two loops are exactly those of the floor/ceil range |
| Collision.FileBlock | game/collision.py:50-52 | the nested loops append the item to every cell of the block, in push order |
| Collision.Values | game/collision.py:54-55 | the region lists in first-filed order |
| Collision.BboxGrouper.constructor | game/collision.py:39-41 | a new grouper is empty |
| Collision.BboxGrouper.Push | game/collision.py:43-52 | the item is appended to exactly the cells with `floor(tl/cs) ≤ i ≤ ceil(br/cs)` on both axes; other cells are unchanged |
| Collision.BboxGrouper.Regions | game/collision.py:54-55 | `regions()` yields one list per cell, and none is empty |
| Collision.EveryPushedItemFiled | game/collision.py:43-55 | every pushed item appears in at least one region |
| Collision.SameRelativeOrder | game/collision.py:50-52 | two items pushed once each appear in the same relative order in every region holding both |
| Cells.PointCell | game/collision.py:44-48 | a box is filed under the cell of each of its points |
| Cells.CircleBoundsShareCell | game/collision.py:43-52 | two touching circles' corrected bounds share a filed cell |
| Cells.TouchingCollide | game/collision.py:58-63 | circles no farther apart than their radii's sum collide |
| Cells.LeftRightTouch | game/collision.py:58-63 | the circles of the finding below touch, so `collide_circles` returns a push |
| Cells.CircleBoxMissesContact | game/geometry.py:100-102 | with `bbox` as written, those touching circles are filed in no common cell |
| Systems.HoldersListed | game/ecs.py:50-51 | an entity is listed by a one-type query exactly when it holds that type |
| Systems.TtlAdds | game/systems.py:177-182 | one add per row: `Gone` when the TTL is non-positive, else the TTL less `dt` |
| Systems.TtlSystem | game/systems.py:176-182 | the handler queues exactly those adds and the TTL removals |
| Systems.TtlDeletesOnce | game/systems.py:178-179 | the TTL type is removed exactly when the TTL is non-positive |
| Systems.TtlEntity | game/systems.py:176-182 | each entity's queued removals and adds yield `Aged` |
| Systems.TtlThenCommit | game/systems.py:176-182 | after commit: a non-positive TTL becomes `Gone`, a positive one is decremented by `dt`, every other entity is unchanged |
| Systems.RemoveGoneSystem | game/systems.py:185-187 | queues a kill for every `Gone` entity |
| Systems.EntitiesHolding | game/systems.py:186-187 | an entity is queued for a kill exactly when it holds `Gone` |
| Systems.RemoveGoneThenCommit | game/systems.py:185-187 | after commit, exactly the `Gone` entities are removed and the rest are unchanged |
| Systems.Unapplications | game/systems.py:196-198 | one removal of the given type per row |
| Systems.UnapplicationsDrop | game/systems.py:196-198 | an entity loses the type exactly when it is listed |
| Systems.ClearNotificationsSystem | game/systems.py:190-198 | queues removals of every health note, score note and `Fresh` |
| Systems.ClearedEntity | game/systems.py:190-198 | when each of the three queues drops its type from an entity exactly when the entity holds it, the entity loses exactly those three types |
| Systems.ClearNotificationsThenCommit | game/systems.py:190-198 | after commit, every entity holds its components minus the three notification types |
| Systems.RemoveCollisionsSystem | game/systems.py:237-241 | queues removal of every `Collisions` |
| Systems.RemoveCollisionsThenCommit | game/systems.py:237-241 | after commit, no entity holds `Collisions` and nothing else changed |
| Systems.ApplyScoreSystem | game/systems.py:366-380 | queues one add per score with a non-empty queue |
| Systems.ScoreAddsOnce | game/systems.py:370-380 | an entity's queued add is its score batch, or nothing for an empty queue |
| Systems.ScoreEntity | game/systems.py:366-380 | each entity's queued adds yield `Scored` |
| Systems.ScoreThenCommit | game/systems.py:366-380 | after commit: score = points + sum(queue), the queue is reset, `ScoreNotification(delta, new)` is attached; empty queues are untouched |
| Systems.SumOnes | game/systems.py:359 | `n` credits of `+1` sum to `n` |
| Systems.CreditsScore | game/systems.py:359-380 | a killer credited `n` times gets `n` more points at the next score pass |
| Systems.PlayerIdsLast | game/systems.py:340 | the id → entity map keeps the last player row with that id |
| Systems.PlayerIdsAbsent | game/systems.py:340 | an id no player has is not mapped |
| Systems.Killer | game/systems.py:355-359 | a credited killer always holds a score |
| Systems.Killers | game/systems.py:342-359 | every credited killer holds a score |
| Systems.Credited | game/systems.py:358-359 | appending to a score queue keeps the component's type |
| Systems.CreditAll | game/systems.py:359 | the in-place credits change neither the index nor the live entities |
| Systems.CreditAllEntity | game/systems.py:359 | each entity's score is credited once per time it is named killer |
| Systems.CreditAllKeepsInv | game/systems.py:359 | in-place credits keep the store invariant |
| Systems.ApplyHealthSystem | game/systems.py:334-363 | queues the health adds and credits killers in place, in row order |
| Systems.HealthAddsOnce | game/systems.py:342-363 | each player's queued add is its own health batch, or nothing |
| Systems.HealthEntity | game/systems.py:342-363 | each entity's queued adds yield `Healed` |
| Systems.HealthThenCommit | game/systems.py:334-363 | after commit: a non-`Gone` player at ≤ 0 gets `Health(0, [])` and `Gone`; otherwise a non-empty queue yields new health plus a note; else nothing |
| Systems.ApplyHealthThenCommit | game/systems.py:334-363 | the whole handler then commit: credited scores and healed players, together |
| Systems.Farewell | game/systems.py:469 | `n` goodbyes |
| Systems.GoodbyesPerClient | game/systems.py:467-469 | each client receives one `ServerGoodbye` per departing remote of theirs, appended to its list; unrequested clients receive none |
| Systems.CollectRequests | game/systems.py:458-461 | kills every request entity and collects the requested client ids |
| Systems.SendGoodbyes | game/systems.py:466-470 | kills each remote whose client was requested and sends it a goodbye |
| Systems.DisconnectPlayersSystem | game/systems.py:453-470 | queues kills of requests and of requested remotes; with no requests, nothing is sent or killed beyond the requests |
| Systems.LeavingHolders | game/systems.py:467-470 | a remote is killed exactly when its client id was requested |
| Systems.DisconnectKills | game/systems.py:453-470 | an entity is queued for a kill exactly when it is a request or a requested remote |
| Systems.DisconnectKillsOnce | game/systems.py:453-470 | the kill queue names live entities, once each |
| Systems.DisconnectThenCommit | game/systems.py:453-470 | after commit, exactly the departing entities are gone and the rest are unchanged |
| Detect.Hits | game/collision.py:50-52 | the indices of the pushes filed under a cell, in push order, all of them |
| Detect.InCell | game/collision.py:50-52 | a cell's list is its items in push order |
| Detect.InCellAppend | game/collision.py:52 | one more push extends each of its cells' lists by the item at the end |
| Detect.RegionsOf | game/collision.py:54-55 | the regions are the cells' lists |
| Detect.PairsIndices | game/systems.py:224 | `combinations(region, 2)` yields pairs `(region[a], region[b])` with `a < b` |
| Detect.PairsComplete | game/systems.py:224 | every such pair is yielded |
| Detect.CandidatesIndices | game/systems.py:223-224 | each candidate pair comes from one region, in region order |
| Detect.CandidatesForward | game/systems.py:209-224 | a candidate pair is two pushes in push order that share a cell |
| Detect.CandidatesHold | game/systems.py:223-224 | every region's pairs are candidates |
| Detect.SharedCellCandidates | game/systems.py:209-224 | two pushes sharing a filed cell are a candidate pair |
| Detect.Record | game/systems.py:230-231 | `setdefault(e, []).append(entry)`: one entry at the end of `e`'s list; first-seen order kept |
| Detect.MeetSymmetric | game/systems.py:229-231 | a hit records `(e2, push)` for `e1` and `(e1, -push)` for `e2`, keeping contacts symmetric |
| Detect.ExamineGood | game/systems.py:225-231 | one pair step keeps each ordered pair tested once and the contacts symmetric and sourced |
| Detect.TallyGood | game/systems.py:219-231 | the whole loop keeps those invariants |
| Detect.TestedVisited | game/systems.py:225-229 | every tested pair is one the loop visited |
| Detect.NoReversedPair | game/systems.py:209-228 | with one push per entity, no entity is tested against itself and no pair is tested in both orders |
| Detect.BoxPushes | game/systems.py:211-213 | each box is shifted by the position and filed by itself |
| Detect.CirclePushes | game/systems.py:215-217 | each circle is shifted by the position and filed by `bounds` of the shifted circle (`CircleBox` as written, `CircleBounds` corrected) |
| Detect.PushAll | game/systems.py:211-217 | the push loop files every item |
| Detect.FileColliders | game/systems.py:209-217 | the grid holds the boxes then the circles, in push order, with circles filed by `bounds` |
| Detect.RegionsOfGrid | game/collision.py:54-55 | the grid's regions are the cells' lists, the cells distinct, exactly the non-empty ones |
| Detect.ExaminePair | game/systems.py:225-231 | the imperative pair step agrees with `Examine` |
| Detect.TallyPairs | game/systems.py:224-231 | the inner loop agrees with the tally of its pairs |
| Detect.TallyRegions | game/systems.py:219-231 | the nested loops compute the tally of all candidates |
| Detect.Applications | game/systems.py:233-234 | one `Collisions(entries)` add per entity with contacts, in first-seen order |
| Detect.ApplicationsOnce | game/systems.py:233-234 | each entity with contacts is applied once, with non-empty entries, and no other entity is applied |
| Detect.ApplyCollisions | game/systems.py:233-234 | the apply loop queues exactly those adds |
| Detect.DetectCollisionsSystem | game/systems.py:204-234 | for either circle bounds, the handler queues the applications of the tally over the grid's regions; the tally is symmetric and tests each ordered pair once |
| Detect.ContactsPushed | game/systems.py:229-231 | only pushed entities receive contacts |
| Detect.ApplicationsLive | game/systems.py:233-234 | every applied entity is live |
| Detect.CollisionsFor | game/systems.py:233-234 | an entity gains `Collisions(entries)` exactly when it has contacts |
| Detect.DetectThenCommit | game/systems.py:204-234 | after commit, exactly the entities with contacts hold their `Collisions`; the rest are unchanged |
| Detect.TouchingCirclesVisited | game/systems.py:215-229 | with the corrected bounds, every two touching circles are a candidate pair |
| Detect.AsWrittenMissesContact | game/systems.py:215-234 | filing by `circle.bbox()` as written, the two touching circles of the finding get no contacts and nothing is applied |
| Detect.CorrectedFindsContact | game/systems.py:215-231 | filing by the corrected bounds, two touching circles both receive contacts |
| Detect.TwoPushesMeet | game/systems.py:224-231 | when two pushes form a candidate pair and their shapes collide, both entities receive contacts |
| Net.Appended | game/ws_app.py:58 | `setdefault(c, []).append(x)`: only `c`'s list grows, by `x` at its end |
| Net.NetOutbox.constructor | game/ws_app.py:50-52 | a new outbox is empty |
| Net.NetOutbox.SendBroadcast | game/ws_app.py:54-55 | appends the broadcast in order; singles unchanged |
| Net.NetOutbox.SendSingle | game/ws_app.py:57-58 | appends only to that client's list; other clients and broadcasts unchanged |
| Net.NetOutbox.Bundle | game/ws_app.py:60-61 | the bundle exposes the current contents |
| Net.NetOutbox.Reset | game/ws_app.py:63-65 | empties broadcasts and singles |
| Net.NetInbox.constructor | game/ws_app.py:69-70 | a new inbox is empty |
| Net.NetInbox.Append | game/ws_app.py:72-73 | appends to that client's list |
| Net.NetInbox.Pop | game/ws_app.py:75-76 | returns the client's messages in append order and removes them, so a second pop returns empty; other clients unaffected |
| Net.PlayerQueue.constructor | game/ws_app.py:80-81 | a new queue is empty |
| Net.PlayerQueue.Add | game/ws_app.py:83-84 | appends the id |
| Net.PlayerQueue.Pop | game/ws_app.py:86-89 | returns every added id in order and empties the queue |
| Net.PlayerHandle.constructor | game/ws_app.py:93-94 | the handle carries its client id |
| Net.GameState.constructor | game/ws_app.py:99-106 | a new game state: fresh empty buffers, counter 0, no handles |
| Net.GameState.NextClientId | game/ws_app.py:108-110 | ids increase by one from 1, each larger than every id already handed out |
| Net.GameState.Connect | game/ws_app.py:131-138 | registers the handle and username under a new id, enqueues a join, broadcasts `PlayerJoined` |
| Net.GameState.Disconnect | game/ws_app.py:141-145 | removes the handle, enqueues a leave, broadcasts `PlayerLeft` |

## Findings

| source | as written | input that shows it | evidently intended | confidence | as-written member | corrected member |
|---|---|---|---|---|---|---|
| game/geometry.py:100-102 | `Circle.bbox` uses half-extent `radius/2`, so the box covers only half the circle, and `detect_collisions_system` files circles by it (game/systems.py:217) | circles centred at (32, 0) radius 64 and (163, 0) radius 70, chunk size 64: they overlap (distance 131 ≤ 134), but their boxes fall in cell columns ≤ 1 and ≥ 2, so they never share a region and the contact is never found | half-extent `radius`, a box that holds the whole disc | not executed | Detect.AsWrittenMissesContact | Detect.CorrectedFindsContact |

`Detect.CirclePushes`, `Detect.FileColliders` and `Detect.DetectCollisionsSystem` take the circle bounds as a parameter. The code as written is `bounds := Geometry.CircleBox`; the corrected one is `bounds := Geometry.CircleBounds`.
- `Cells.LeftRightTouch` shows the two circles collide.
- `Cells.CircleBoxMissesContact` shows their as-written boxes share no cell.
- `Detect.AsWrittenMissesContact` concludes that detection as written records no contact for them.
- `Geometry.CircleBoundsHoldDisc` proves the corrected box holds the disc.
- `Cells.CircleBoundsShareCell` proves touching circles' corrected bounds share a cell.
- `Detect.TouchingCirclesVisited` proves the grid then offers every touching pair for testing.
- `Detect.CorrectedFindsContact` concludes that two touching circles both receive contacts.

## Left out

- `_parse_system` (game/ecs.py:231-256): it reads signatures by reflection. A system is modelled as its list of query keys plus a handler.
- Python exceptions: a handler's exception is a value passed to `on_error`. Exceptions raised by a tweak callback are not modelled; callbacks are total functions.
- `Resource.__getitem__` raising `KeyError`: the model uses `Resource.Get`. Resources are a plain map from world to value; weak-reference lifetime cannot be expressed.
- Iteration order: Python's set and dict order is not specified. Query rows, the grid's cell order and the outbox's singles map are taken in any order consistent with their contents, and the proofs hold for every such order.
- Floating point: positions and pushes are exact `real`s. `sqrt` is a parameter. Only the None/zero, sign and dispatch contracts are proved, not push magnitudes.
- `Collision.BboxGrouper.Push`: the nested loops run on local values and are assigned to the fields once at the end. Updating the dictionary in place cell by cell is not modelled; no caller can observe the difference.
- `Detect.NoReversedPair`: stated only when each entity is pushed once, i.e. no entity has both a box and a circle collider.
- `Systems.DisconnectThenCommit`: stated only when no entity is both a `DisconnectRequest` and a `Remote`. Otherwise the code queues the same entity twice, and the second kill fails with `KeyError` (game/ecs.py:219).
- The systems' `*ThenCommit` lemmas: each is stated for one handler's queues committed on their own, from a world with empty queues, not for the whole `step`. `Ecs.StepKeepsWorldInv` covers the whole step.
- The outbox and the inbox as `World` resources: `disconnect_players_system` takes the outbox as a parameter.
- The other systems in game/systems.py are not part of this model: movement, inputs, player and bullet collisions, networking, snapshots, spawning helpers. The same goes for the async transport of game/ws_app.py (`client_ws_handler`, `Ticker`, the game loop) and the parsing in game/messages.py.
- `PlayerHandle`'s memory stream is not modelled; only its client id is.
- `Net.GameState.Connect` and `Net.GameState.Disconnect` leave out the console `print` calls (game/ws_app.py:137 and game/ws_app.py:142). They are output only.
- `EcsStore.Inv` for an empty query key: only `do_add_components` (game/ecs.py:193-204) inserts entities into the index. A live entity with no components satisfies an empty key but is not listed until something is added to it. `EcsStore.IndexExact` is therefore stated for non-empty keys only. For the empty key, `EcsStore.Complete` guarantees only the live entities holding some component, which is every entity that has received a non-empty add.
- `Ecs.World.Step`: the systems' handlers are pure functions of the store. A handler that mutates components in place is modelled separately, as `Systems.ApplyHealthSystem`'s `CreditAll`.
