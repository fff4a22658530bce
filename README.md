# PullSpawner in Dafny

PullSpawner is a Unity spawner. It keeps a pool of spawned GameObjects (`_spawnedObjects`).
To spawn a prefab, it first looks for a pooled object of the same name that is inactive and
reactivates it. Only when there is none does it instantiate a new clone. That is the
reuse-or-create rule. A prefab is chosen in one of two ways:

- uniformly from a list (`GetRandomPrefab`);
- by rarity weights (`GetChancePrefab`).

A prefab is placed in one of two ways:

- at a fixed position (a spawn point's centre, or a given position);
- at a sampled position inside a spawn point's box (`GetRandomSpawnPosition`). The sampler
  draws x and z inside the box, fixes y, and draws again while the result equals the last
  sampled position (`_oldSpawnPosition`).

The `Spawn` overloads validate their arguments and then loop over the spawn points and/or a
count.

The repository holds several near-copies of this logic. Each is modelled against its own
file.

| source file | Dafny module | form |
|---|---|---|
| Assets/Scripts/Spawners/DontDelete/Exceptor.cs | `Exceptor` (exceptor.dfy) | pure functions returning `Outcome`/`Result` |
| Assets/Scripts/Spawners/DontDelete/SpawnerBase.cs | `Base` (spawner_base.dfy) | class `SpawnerBase` with the pool, the last position and the protected helpers |
| Assets/Scripts/Spawners/RandomSpawner.cs | `RandomSpawning` (random_spawner.dfy) | class `RandomSpawner`; the inherited state is its `base` object |
| Assets/Scripts/Spawners/RaritySpawner.cs | `Rarity` (rarity_spawner.dfy) | class `RaritySpawner` |
| Assets/Scripts/Spawners/Spawner.cs | `PoolSpawner` (pool_spawner.dfy) | class `Spawner` |
| Assets/Scripts/Spawner.cs | `LegacySpawner` (legacy_spawner.dfy) | class `Spawner` |

The classes' methods are loops and field updates, as in the C# code. Each method is proved
equal to a specification function in one of these modules:

- `Pools`: the pool as a value, with the two scans, the two updates and reuse-or-create.
- `Sampling`: the position sampler.
- `Selection`: the weighted and uniform choice.
- `Steps`: one single spawn per variant, and `Run`, the coordinator loop. `Run` performs one
  single spawn per visited spawn point and stops at the first exception.

The properties are proved as contracts and lemmas about those functions.

Modelling conventions:

- **GameObjects.** A pool entry is a value `Entry(name, components, active, pos)`. A null or
  destroyed GameObject is `None`. `Instantiate` copies the prefab's name, components and
  active flag. Pool entries are identified by name, as `obj.name == findingObject.name`
  does.
- **Exceptions.** A thrown exception is a `Fail`/`Err` value carrying its .NET kind.
- **Randomness.** Each random value is a parameter:
  - A float `Random.Range(lo, hi)` is `lo + (hi - lo) * t` for a supplied `t` in [0, 1], so
    both ends are inclusive.
  - An int `Random.Range(0, n)` is a supplied index `pick`.
  - A spawn point visit consumes one `Roll(pick, chance, attempts)`. The `attempts` are the
    sampler's draws.
- **Finite sampler.** The sampler's retry recursion runs over a finite list of attempts. An
  exhausted list, or an exhausted list of rolls, is the model-only error `DrawsExhausted`.

Behaviours of the code the model keeps:

- **Null checks.** `Exceptor.ThrowIfNull(null, e)` never raises `e`. `IsNull` first calls
  `IsNumericType`, and that calls `obj.GetType()` on the null value. So every null check made
  through `ThrowIfNull` raises NullReferenceException.
- **Weighted draw range.** The weighted draw is `Random.Range(0f, total)`, which is inclusive
  at both ends. A first item of weight 0 is therefore picked when the draw is 0, and all-zero
  weights pick index 0. An empty list yields null, and RaritySpawner then throws
  NullReferenceException from `TryActivateObject`.
- **Empty list in uniform choice.** Reading index 0 of an empty list throws
  ArgumentOutOfRangeException, and that is the error an empty list gives.
- **Non-positive counts.**
  - RaritySpawner only logs them, so the loops run zero times and nothing changes.
  - RandomSpawner and Spawners/Spawner throw ArgumentOutOfRangeException before any change.
  - Scripts/Spawner's `_count` loop runs zero times when `_count` is configured as 0 or less.
- **No transactions.**
  - A loop that throws part-way keeps the spawns it already made.
  - Spawners/Spawner's `Spawn(prefab, spawnPoint)` records the sampled position before it
    checks the prefab. A null prefab therefore throws after `_oldSpawnPosition` has moved.
- **Y convention.** The sampler's y is the spawn point's own y in SpawnerBase and
  Spawners/Spawner, and 0 in RaritySpawner and Scripts/Spawner.

## Model

| member | source | states |
|---|---|---|
| Exceptor.IsNumericType | Assets/Scripts/Spawners/DontDelete/Exceptor.cs:57-79 | null throws NullReferenceException (GetType on null); otherwise true exactly for the eleven numeric type codes |
| Exceptor.IsNull | Assets/Scripts/Spawners/DontDelete/Exceptor.cs:44-50 | never answers true; null throws NullReferenceException, a numeric value throws ArgumentException, any other value answers false |
| Exceptor.ThrowException | Assets/Scripts/Spawners/DontDelete/Exceptor.cs:87-92 | always throws: the given exception, or ArgumentNullException when it is null |
| Exceptor.ThrowExceptionIfExceptionNull | Assets/Scripts/Spawners/DontDelete/Exceptor.cs:81-85 | passes iff the exception object is non-null, otherwise throws ArgumentNullException |
| Exceptor.ThrowIfNull | Assets/Scripts/Spawners/DontDelete/Exceptor.cs:10-14 | passes exactly for a non-null, non-numeric value; null raises NullReferenceException and a number ArgumentException, never the supplied exception |
| Exceptor.ThrowIfFalse | Assets/Scripts/Spawners/DontDelete/Exceptor.cs:21-25 | raises the supplied exception (ArgumentNullException if null) iff the condition is false |
| Exceptor.ThrowIfTrue | Assets/Scripts/Spawners/DontDelete/Exceptor.cs:32-36 | raises the supplied exception (ArgumentNullException if null) iff the condition is true |
| Base.NullCheck | Assets/Scripts/Spawners/DontDelete/SpawnerBase.cs:152 | a `ThrowIfNull` check on a reference passes iff it is non-null and otherwise raises NullReferenceException |
| Pools.FirstInactive | Assets/Scripts/Spawners/DontDelete/SpawnerBase.cs:179-199 | the index of the first entry in insertion order that is non-null, inactive and named as the prefab; none iff no entry is |
| Pools.FirstInactiveStrict | Assets/Scripts/Spawners/RaritySpawner.cs:173-196 | throws NullReferenceException iff a null entry comes before the first match (or the end); otherwise finds what the skipping scan finds |
| Pools.TryReuse | Assets/Scripts/Spawners/DontDelete/SpawnerBase.cs:150-167 | null prefab throws with the pool unchanged; true iff a reusable entry exists, then only the first one is moved to the position and made active; false leaves the pool unchanged |
| Pools.Create | Assets/Scripts/Spawners/DontDelete/SpawnerBase.cs:169-177 | null prefab throws; otherwise exactly one clone named as the prefab is appended at the position and the old entries are kept |
| Pools.SpawnAt | Assets/Scripts/Spawners/Spawner.cs:29-37 | throws iff the prefab is null; the pool grows by exactly one (the new clone) iff no reusable entry of that name exists, otherwise its length is unchanged and the first reusable entry is reactivated at the position |
| Pools.ReuseAfterDeactivate | Assets/Scripts/Spawners/Spawner.cs:122-172 | spawn, deactivate the spawned entry, spawn again: the second spawn reactivates that very entry and the pool does not grow |
| Pools.WithComponent | Assets/Scripts/Spawners/DontDelete/SpawnerBase.cs:98-112 | an entry is in the result iff it is a non-null pool entry carrying the component; no longer than the pool |
| Pools.WithComponentKeepsOrder | Assets/Scripts/Spawners/DontDelete/SpawnerBase.cs:100-109 | the filter keeps pool order: filtering a concatenation concatenates the filtered parts |
| Pools.SpawnAtConsumes | Assets/Scripts/Spawners/Spawner.cs:29-37 | for a prefab whose clones start active, a spawn uses up one reusable entry when there is one and appends a non-reusable clone otherwise |
| Sampling.Range | Assets/Scripts/Spawners/DontDelete/SpawnerBase.cs:208-209 | a float draw lies within [lo, hi] (both ends inclusive) |
| Sampling.Sample | Assets/Scripts/Spawners/DontDelete/SpawnerBase.cs:208-217 | the first candidate that differs from the last position: inside the box on x and z, at the fixed height, different from the last one; none iff every attempt repeated the last position |
| Sampling.SampleFrom | Assets/Scripts/Spawners/DontDelete/SpawnerBase.cs:201-218 | a null spawn point throws NullReferenceException; an accepted position has the rule's height, differs from the last one and lies in the box |
| Sampling.FlatBoxNeverResolves | Assets/Scripts/Spawners/DontDelete/SpawnerBase.cs:213-214 | a box flat in x and z whose only candidate is the last position never yields a new one: the retry would not end |
| Selection.ChanceFrom | Assets/Scripts/Spawners/DontDelete/SpawnerBase.cs:245-257 | the second loop stops at the first index whose cumulative rarity reaches the draw and falls through iff none does |
| Selection.ChancePrefab | Assets/Scripts/Spawners/DontDelete/SpawnerBase.cs:225-258 | null list throws NullReferenceException, empty list yields null, otherwise the prefab of some listed drop or null |
| Selection.TotalNonNegative | Assets/Scripts/Spawners/DontDelete/SpawnerBase.cs:238-241 | with non-negative rarities the summed weight is non-negative |
| Selection.CumMonotone | Assets/Scripts/Spawners/DontDelete/SpawnerBase.cs:245-255 | with non-negative rarities the cumulative rarity never decreases |
| Selection.CumLast | Assets/Scripts/Spawners/DontDelete/SpawnerBase.cs:238-241 | the last cumulative rarity is the summed weight |
| Selection.ZeroCum | Assets/Scripts/Spawners/DontDelete/SpawnerBase.cs:238-241 | with all rarities 0 every cumulative rarity is 0 |
| Selection.ChanceAlwaysPicks | Assets/Scripts/Spawners/DontDelete/SpawnerBase.cs:243-257 | with non-negative rarities a non-empty list never falls through to null |
| Selection.ChanceIntervals | Assets/Scripts/Spawners/DontDelete/SpawnerBase.cs:243-257 | index i is picked iff the draw lies in its cumulative interval (Cum(i-1), Cum(i)] |
| Selection.PickedInInterval | Assets/Scripts/Spawners/DontDelete/SpawnerBase.cs:245-257 | when index i is picked, the draw is at most Cum(i) and, past the first index, above Cum(i-1) |
| Selection.IntervalPicked | Assets/Scripts/Spawners/DontDelete/SpawnerBase.cs:243-257 | with non-negative rarities and a draw in the unit range, a draw in (Cum(i-1), Cum(i)] picks exactly index i |
| Selection.ChancePrefabInterval | Assets/Scripts/Spawners/DontDelete/SpawnerBase.cs:243-257 | with non-negative rarities and a draw in the unit range, `GetChancePrefab` returns the `objectPrefab` of the drop whose interval (Cum(i-1), Cum(i)] holds the draw |
| Selection.ZeroRarityNeverPicked | Assets/Scripts/Spawners/DontDelete/SpawnerBase.cs:245-255 | a drop of rarity 0 is never picked unless it is the first |
| Selection.AllZeroPicksFirst | Assets/Scripts/Spawners/DontDelete/SpawnerBase.cs:243-252 | when every rarity is 0 the first drop is picked |
| Selection.PickPrefab | Assets/Scripts/Spawners/DontDelete/SpawnerBase.cs:265-270 | null list throws NullReferenceException; an index outside [0, Count) throws ArgumentOutOfRangeException; otherwise the listed element at the index |
| Selection.EveryPrefabReachable | Assets/Scripts/Spawners/DontDelete/SpawnerBase.cs:265-270 | every listed prefab is picked by some valid draw; an empty list throws for its only draw |
| Steps.StrictTryActivate | Assets/Scripts/Spawners/RaritySpawner.cs:150-171 | null prefab or point throws; false iff the strict scan finds nothing; true means the first reusable entry was reactivated at a freshly sampled position (y = 0) different from the last |
| Steps.SampledCreate | Assets/Scripts/Spawners/RaritySpawner.cs:134-148 | null arguments throw; otherwise one clone at one sampled position (y = 0, in the box, different from the last) is appended; a throw changes nothing |
| Steps.StrictSpawn | Assets/Scripts/Spawners/RaritySpawner.cs:37-42 | grows the pool by at most one, by one iff the strict scan finds no reusable entry, never while one exists; a spawn that returns sampled exactly one new position; a throw changes nothing |
| Steps.SampledSpawn | Assets/Scripts/Spawners/Spawner.cs:60-67 | a null point throws first; then one sampled position at the point's height is recorded; passes iff the prefab is non-null, and then reuse-or-create at that position |
| Steps.RandomSpawn | Assets/Scripts/Spawners/RandomSpawner.cs:12-23 | null list or point throws before any choice; passes iff the drawn index holds a prefab; then reuse-or-create at the point's position; the last sampled position never changes |
| Steps.RaritySpawn | Assets/Scripts/Spawners/RaritySpawner.cs:29-43 | null list or point throws before any choice; an empty list throws with nothing changed; otherwise the strict reuse-or-create rule on the weighted pick |
| Steps.RandomCreate | Assets/Scripts/Spawner.cs:30-35 | passes only with a valid index holding a prefab, and then appends a clone of it at a new sampled position; a throw changes nothing |
| Steps.Run | Assets/Scripts/Spawners/Spawner.cs:73-79 | one single spawn per visited spawn point in order, stopping at the first throw: the pool grows by at most one entry per visit |
| Steps.Repeat | Assets/Scripts/Spawners/Spawner.cs:109-112 | a point visited count times, none for count <= 0 |
| Steps.Visits | Assets/Scripts/Spawners/Spawner.cs:90-96 | the nested loops make count times the number of points visits, none for count <= 0 |
| Steps.VisitsInOrder | Assets/Scripts/Spawners/RaritySpawner.cs:67-73 | visit number i·count + j is at point number i: points in list order, count times each |
| Steps.RunCreateAppends | Assets/Scripts/Spawner.cs:26-37 | `SpawnAllObjects` keeps the old entries and, when it completes, has appended exactly one clone of the picked prefab per visit, no two consecutive at the same position |
| Steps.RunSampledFills | Assets/Scripts/Spawners/Spawner.cs:73-79 | spawning an active prefab with no reusable entry at a list of points adds exactly one active entry of its name per visit, each in its point's box at the point's height, no two consecutive at the same position |
| Steps.RunAppend | Assets/Scripts/Spawners/RandomSpawner.cs:46-52 | the nested `foreach` / `for` loops equal one inner loop per point in turn: visiting a then b is visiting a and, unless that threw, b from the state and rolls a left |
| Steps.SpawnTimes | Assets/Scripts/Spawners/Spawner.cs:46-52 | n spawns at one position throw iff the prefab is null; otherwise the pool grows by at most n |
| Steps.SpawnTimesGrowth | Assets/Scripts/Spawners/Spawner.cs:46-52 | n spawns of an active prefab reactivate the c reusable entries first and append only max(0, n - c) |
| Base.SpawnerBase.constructor | Assets/Scripts/Spawners/DontDelete/SpawnerBase.cs:20-21 | the pool starts empty and the last position at the origin |
| Base.SpawnerBase.TryFindSpawnedObjectsOfType | Assets/Scripts/Spawners/DontDelete/SpawnerBase.cs:93-113 | null type throws NullReferenceException; otherwise answers true with the component filter of the pool |
| Base.SpawnerBase.FindNotActivatedObject | Assets/Scripts/Spawners/DontDelete/SpawnerBase.cs:179-199 | the loop returns the skipping scan's result; null prefab throws |
| Base.SpawnerBase.TryActivateObject | Assets/Scripts/Spawners/DontDelete/SpawnerBase.cs:150-167 | answer and new pool are those of `TryReuse`; the last position is unchanged |
| Base.SpawnerBase.SpawnOnceObject | Assets/Scripts/Spawners/DontDelete/SpawnerBase.cs:169-177 | outcome and new pool are those of `Create`; the last position is unchanged |
| Base.SpawnerBase.GetRandomSpawnPosition | Assets/Scripts/Spawners/DontDelete/SpawnerBase.cs:201-218 | the retry returns the sampler's result (y = the point's y) and records it as the last position; the pool is unchanged |
| Base.SpawnerBase.GetChancePrefab | Assets/Scripts/Spawners/DontDelete/SpawnerBase.cs:225-258 | null list throws; otherwise the weighted choice |
| Base.WeightedChoice | Assets/Scripts/Spawners/DontDelete/SpawnerBase.cs:229-257 | the summing loop and the subtracting loop compute the weighted choice |
| RandomSpawning.RandomSpawner.constructor | Assets/Scripts/Spawners/DontDelete/SpawnerBase.cs:20-21 | a fresh base state with an empty pool |
| RandomSpawning.RandomSpawner.Spawn | Assets/Scripts/Spawners/RandomSpawner.cs:12-23 | outcome and new state are those of the uniform single spawn at the point's position |
| RandomSpawning.RandomSpawner.SpawnAll | Assets/Scripts/Spawners/RandomSpawner.cs:29-35 | one single spawn per point, in list order |
| RandomSpawning.RandomSpawner.SpawnAllRepeated | Assets/Scripts/Spawners/RandomSpawner.cs:42-53 | count <= 0 throws ArgumentOutOfRangeException with nothing changed; otherwise count spawns per point, points in order |
| RandomSpawning.RandomSpawner.SpawnRepeated | Assets/Scripts/Spawners/RandomSpawner.cs:61-69 | count <= 0 throws ArgumentOutOfRangeException with nothing changed; otherwise count spawns at the point |
| RandomSpawning.RandomSpawner.SpawnTimesAt | Assets/Scripts/Spawners/RandomSpawner.cs:65-68 | the `for` loop leaves the spawner as `count` single spawns at the point in order would, stopping at the first exception; no spawn when count <= 0 |
| Rarity.RaritySpawner.constructor | Assets/Scripts/Spawners/RaritySpawner.cs:9-12 | the pool starts empty and the last position at the origin |
| Rarity.RaritySpawner.Spawn | Assets/Scripts/Spawners/RaritySpawner.cs:29-43 | outcome and new state are those of the weighted single spawn |
| Rarity.RaritySpawner.SpawnAll | Assets/Scripts/Spawners/RaritySpawner.cs:49-55 | one single spawn per point, in list order |
| Rarity.RaritySpawner.SpawnAllRepeated | Assets/Scripts/Spawners/RaritySpawner.cs:62-74 | count spawns per point, points in order; count <= 0 makes no visit and changes nothing |
| Rarity.RaritySpawner.SpawnRepeated | Assets/Scripts/Spawners/RaritySpawner.cs:82-91 | count spawns at the point; count <= 0 changes nothing |
| Rarity.RaritySpawner.GetChancePrefab | Assets/Scripts/Spawners/RaritySpawner.cs:98-132 | null list throws; otherwise the weighted choice |
| Rarity.RaritySpawner.SpawnOnceObject | Assets/Scripts/Spawners/RaritySpawner.cs:134-148 | outcome and new state are those of the sampled create |
| Rarity.RaritySpawner.TryActivateObject | Assets/Scripts/Spawners/RaritySpawner.cs:150-171 | answer and new state are those of the strict reuse |
| Rarity.RaritySpawner.FindNotActivatedObject | Assets/Scripts/Spawners/RaritySpawner.cs:173-196 | the loop returns the strict scan's result; null prefab throws |
| Rarity.RaritySpawner.GetRandomSpawnPosition | Assets/Scripts/Spawners/RaritySpawner.cs:198-216 | the retry returns the sampler's result with y = 0 and records it; the pool is unchanged |
| PoolSpawner.Spawner.constructor | Assets/Scripts/Spawners/Spawner.cs:8-11 | the pool starts empty and the last position at the origin |
| PoolSpawner.Spawner.SpawnAtPosition | Assets/Scripts/Spawners/Spawner.cs:29-37 | null prefab throws with nothing changed; otherwise the pool becomes that of reuse-or-create at the position |
| PoolSpawner.Spawner.SpawnAtPositionRepeated | Assets/Scripts/Spawners/Spawner.cs:46-52 | count <= 0 throws ArgumentOutOfRangeException with nothing changed; otherwise count reuse-or-create spawns at the position |
| PoolSpawner.Spawner.Spawn | Assets/Scripts/Spawners/Spawner.cs:60-67 | outcome and new state are those of the sampled single spawn |
| PoolSpawner.Spawner.SpawnAll | Assets/Scripts/Spawners/Spawner.cs:73-79 | one single spawn per point, in list order |
| PoolSpawner.Spawner.SpawnAllRepeated | Assets/Scripts/Spawners/Spawner.cs:86-97 | count <= 0 throws ArgumentOutOfRangeException with nothing changed; otherwise count spawns per point, points in order |
| PoolSpawner.Spawner.SpawnRepeated | Assets/Scripts/Spawners/Spawner.cs:105-113 | count <= 0 throws ArgumentOutOfRangeException with nothing changed; otherwise count spawns at the point |
| PoolSpawner.Spawner.SpawnTimesAt | Assets/Scripts/Spawners/Spawner.cs:109-112 | the `for` loop leaves the spawner as `count` single spawns at the point in order would, stopping at the first exception; no spawn when count <= 0 |
| PoolSpawner.Spawner.TryActivateObject | Assets/Scripts/Spawners/Spawner.cs:122-139 | answer and new pool are those of `TryReuse` |
| PoolSpawner.Spawner.SpawnOnceObject | Assets/Scripts/Spawners/Spawner.cs:142-150 | outcome and new pool are those of `Create` |
| PoolSpawner.Spawner.FindNotActivatedObject | Assets/Scripts/Spawners/Spawner.cs:152-172 | the loop returns the skipping scan's result; null prefab throws |
| PoolSpawner.Spawner.GetRandomSpawnPosition | Assets/Scripts/Spawners/Spawner.cs:174-191 | the retry returns the sampler's result (y = the point's y) and records it; the pool is unchanged |
| LegacySpawner.Spawner.constructor | Assets/Scripts/Spawner.cs:8-13 | the serialized `_spawnPoints`, `_prefabsToSpawn` and `_count` (field default 2, set in the inspector) are taken as given; the pool starts empty |
| LegacySpawner.Spawner.SpawnAllObjects | Assets/Scripts/Spawner.cs:26-37 | `_count` random clones per point, points in order, never reusing |
| LegacySpawner.Spawner.SpawnObjectsAt | Assets/Scripts/Spawner.cs:30-35 | the inner loop appends `_count` random clones at one point as that many single random creations would, stopping at the first exception |
| LegacySpawner.Spawner.Spawn | Assets/Scripts/Spawner.cs:39-48 | the strict reuse-or-create rule once per point, in list order |
| LegacySpawner.Spawner.GetRandomPrefab | Assets/Scripts/Spawner.cs:50-55 | the uniform choice from `_prefabsToSpawn` |
| LegacySpawner.Spawner.TryActivateObject | Assets/Scripts/Spawner.cs:57-78 | answer and new state are those of the strict reuse |
| LegacySpawner.Spawner.FindNotActivatedObject | Assets/Scripts/Spawner.cs:80-103 | the loop returns the strict scan's result; null prefab throws |
| LegacySpawner.Spawner.SpawnOnceObject | Assets/Scripts/Spawner.cs:105-119 | outcome and new state are those of the sampled create |
| LegacySpawner.Spawner.GetRandomSpawnPosition | Assets/Scripts/Spawner.cs:121-139 | the retry returns the sampler's result with y = 0 and records it; the pool is unchanged |

## Left out

- **Unity engine calls.**
  - `Instantiate`, `SetActive`, `transform.position` and `name` are fields of a pool-entry value. The parent transform and the rotation are not modelled.
  - `activeInHierarchy` is the entry's own `active` flag; parent objects are not modelled.
  - `Debug.Log*` calls are no-ops.
- **GameObject identity and aliasing.** Entries are values. The same GameObject held twice in the pool is not modelled, nor is a change made to it from outside. A caller returning an entry to the pool is the `Pools.Deactivate` function.
- **Destroyed versus null.** A destroyed GameObject and a null reference are both `None`. Unity's `!obj` treats both as null. `Exceptor.ThrowIfNull` would let a destroyed object through, which the model does not distinguish.
- **Fields that are never null.** `_spawnedObjects`, `_spawnPoints` and `_prefabsToSpawn` are never null in the model, so the checks on them are left out. They are serialized or initialised fields.
- **Child-name lookup.** `TryFindSpawnedObjectsOfType(type, childName, out objects)` (SpawnerBase.cs:115-141) is not modelled. It depends on the scene hierarchy through `transform.Find`.
- **Empty virtual overloads.** The `Spawn` overloads of SpawnerBase.cs:23-91 have no behaviour and are not modelled.
- **`Start`.** Scripts/Spawner's `Start` is a Unity lifecycle hook that only calls `SpawnAllObjects`; it is not modelled.
- **Other files.** The keyboard demo scripts (InputSpawn.cs, both copies) are not part of this model. SpawnPoint.cs is not part of this model either: its collider bounds and position are inputs.
- **Reflection.** `GetType()`/`Type.GetTypeCode` are replaced by a `TypeCode` value carried by the argument.
- Base.SpawnerBase.TryFindSpawnedObjectsOfType: a component type is matched by name against a set of component names. `GetComponent`'s matching of derived component types is not modelled.
- **Floats.** Coordinates and weights are exact reals, with no float rounding. In particular, the subtraction in the weighted loop is exact. Positions are compared exactly, whereas Unity's `Vector3 ==` treats positions closer than about 1e-5 as equal; so "different from the last position" here means "not exactly equal".
- **Distribution.** Only which item a given draw picks is modelled. How often each item is picked (for example a roughly 10% share for weight 1 against 9) is not.
- **Unbounded retry.** The sampler recursion is modelled over a finite list of draws, and an exhausted list is `DrawsExhausted`. Each coordinator visit consumes one roll, and running out of rolls is `DrawsExhausted` as well.
- **Inheritance.** RandomSpawner's inheritance from SpawnerBase is modelled by composition (its `base` object). Its `GetRandomPrefab` is the `Selection.PickPrefab` function.
