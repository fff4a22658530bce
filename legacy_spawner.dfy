/** Scripts/Spawner: the original spawner. `SpawnAllObjects` fills every spawn point
    with `_count` random prefabs without reuse; `Spawn(prefab)` reuses or creates once
    per point. Every position is sampled (y = 0) and the pool scan throws on a null entry. */
module LegacySpawner {
  import opened SpawnTypes
  import opened Pools
  import opened Sampling
  import opened Selection
  import opened Steps

  class Spawner {
    const spawnPoints: seq<Option<SpawnPoint>>
    const prefabsToSpawn: seq<Option<Prefab>>
    /** `_count`: a serialized field, set in the inspector (its field default is 2). */
    const count: int
    var spawnedObjects: Pool
    var oldSpawnPosition: Vec3

    constructor (spawnPoints: seq<Option<SpawnPoint>>, prefabsToSpawn: seq<Option<Prefab>>, count: int)
      ensures this.spawnPoints == spawnPoints && this.prefabsToSpawn == prefabsToSpawn && this.count == count
      ensures spawnedObjects == [] && oldSpawnPosition == Origin
    {
      this.spawnPoints := spawnPoints;
      this.prefabsToSpawn := prefabsToSpawn;
      this.count := count;
      spawnedObjects := [];
      oldSpawnPosition := Origin;
    }

    /** The mutable state: the pool and the last sampled position. */
    function Snapshot(): State
      reads this
    {
      State(spawnedObjects, oldSpawnPosition)
    }

    /** `SpawnAllObjects()`: at each spawn point in list order, `_count` times, a random
        prefab is cloned at a sampled position; nothing is reused. */
    method SpawnAllObjects(rolls: seq<Roll>) returns (r: Outcome)
      modifies this
      ensures Step(r, Snapshot()) == Run(CreateRandom(prefabsToSpawn), old(Snapshot()), Visits(spawnPoints, count), rolls)
    {
      r := Pass;
      assert spawnPoints[0..] == spawnPoints;
      var left := rolls;
      var k := 0;
      while k < |spawnPoints|
        invariant 0 <= k <= |spawnPoints| && r == Pass
        invariant Run(CreateRandom(prefabsToSpawn), old(Snapshot()), Visits(spawnPoints, count), rolls)
          == Run(CreateRandom(prefabsToSpawn), Snapshot(), Visits(spawnPoints[k..], count), left)
      {
        assert spawnPoints[k..][1..] == spawnPoints[k + 1..];
        RunAppend(CreateRandom(prefabsToSpawn), Snapshot(), Repeat(spawnPoints[k], count), Visits(spawnPoints[k + 1..], count), left);
        r := SpawnObjectsAt(spawnPoints[k], left);
        if r.Fail? {
          return;
        }
        left := left[if count < 0 then 0 else count..];
        k := k + 1;
      }
    }

    /** The inner loop of `SpawnAllObjects`: `_count` random clones at one spawn point. */
    method SpawnObjectsAt(spawnPoint: Option<SpawnPoint>, rolls: seq<Roll>) returns (r: Outcome)
      modifies this
      ensures Step(r, Snapshot()) == Run(CreateRandom(prefabsToSpawn), old(Snapshot()), Repeat(spawnPoint, count), rolls)
    {
      r := Pass;
      var left := rolls;
      ghost var todo := Repeat(spawnPoint, count);
      var i := 0;
      while i < count
        invariant 0 <= i <= if count < 0 then 0 else count
        invariant r == Pass
        invariant |todo| == (if count < 0 then 0 else count - i)
        invariant forall k :: 0 <= k < |todo| ==> todo[k] == spawnPoint
        invariant Run(CreateRandom(prefabsToSpawn), old(Snapshot()), Repeat(spawnPoint, count), rolls) == Run(CreateRandom(prefabsToSpawn), Snapshot(), todo, left)
      {
        if left == [] {
          return Fail(DrawsExhausted);
        }
        ghost var before := Snapshot();
        RunStep(CreateRandom(prefabsToSpawn), before, todo, left);
        var randomPrefab := GetRandomPrefab(left[0].pick);
        if randomPrefab.Err? {
          return Fail(randomPrefab.error);
        }
        r := SpawnOnceObject(randomPrefab.value, spawnPoint, left[0].attempts);
        assert Step(r, Snapshot()) == Single(CreateRandom(prefabsToSpawn), before, spawnPoint, left[0]);
        if r.Fail? {
          return;
        }
        left := left[1..];
        todo := todo[1..];
        i := i + 1;
      }
    }

    /** `Spawn(prefab)`: at each spawn point in list order, the strict reuse-or-create rule. */
    method Spawn(prefab: Option<Prefab>, rolls: seq<Roll>) returns (r: Outcome)
      modifies this
      ensures Step(r, Snapshot()) == Run(ReuseStrict(prefab), old(Snapshot()), spawnPoints, rolls)
    {
      r := Pass;
      var left := rolls;
      var k := 0;
      while k < |spawnPoints|
        invariant 0 <= k <= |spawnPoints| && r == Pass
        invariant Run(ReuseStrict(prefab), old(Snapshot()), spawnPoints, rolls)
          == Run(ReuseStrict(prefab), Snapshot(), spawnPoints[k..], left)
      {
        if left == [] {
          return Fail(DrawsExhausted);
        }
        assert spawnPoints[k..][1..] == spawnPoints[k + 1..];
        var activated := TryActivateObject(prefab, spawnPoints[k], left[0].attempts);
        if activated.Err? {
          return Fail(activated.error);
        }
        if !activated.value {
          r := SpawnOnceObject(prefab, spawnPoints[k], left[0].attempts);
          if r.Fail? {
            return;
          }
        }
        left := left[1..];
        k := k + 1;
      }
    }

    /** `GetRandomPrefab()`: `_prefabsToSpawn[Random.Range(0, Count)]` for the drawn index. */
    method GetRandomPrefab(pick: int) returns (r: Result<Option<Prefab>>)
      ensures r == PickPrefab(Some(prefabsToSpawn), pick)
    {
      if 0 <= pick < |prefabsToSpawn| {
        return Ok(prefabsToSpawn[pick]);
      }
      return Err(ArgumentOutOfRange);
    }

    /** `TryActivateObject(objPrefab, spawnPoint)`: null checks, the strict scan, and on a
        match a freshly sampled position for the reactivated entry. */
    method TryActivateObject(objPrefab: Option<Prefab>, spawnPoint: Option<SpawnPoint>, attempts: seq<Draw>)
      returns (r: Result<bool>)
      modifies this
      ensures (r, Snapshot()) == StrictTryActivate(old(Snapshot()), objPrefab, spawnPoint, attempts)
    {
      if objPrefab.None? {
        return Err(NullReference);
      }
      if spawnPoint.None? {
        return Err(NullReference);
      }
      var notActivated := FindNotActivatedObject(objPrefab);
      if notActivated.Err? {
        return Err(notActivated.error);
      }
      match notActivated.value
      case Some(i) =>
        var position := GetRandomSpawnPosition(spawnPoint, attempts);
        if position.Err? {
          return Err(position.error);
        }
        spawnedObjects := Activate(spawnedObjects, i, position.value);
        return Ok(true);
      case None =>
        return Ok(false);
    }

    /** `FindNotActivatedObject(findingObject)`: a null prefab throws; the scan throws on
        the first null entry it meets before a match. */
    method FindNotActivatedObject(findingObject: Option<Prefab>) returns (r: Result<Option<nat>>)
      ensures findingObject.None? ==> r == Err(NullReference)
      ensures findingObject.Some? ==> r == FirstInactiveStrict(spawnedObjects, findingObject.value.name)
    {
      if findingObject.None? {
        return Err(NullReference);
      }
      var name := findingObject.value.name;
      if |spawnedObjects| == 0 {
        return Ok(None);
      }
      var i := 0;
      while i < |spawnedObjects|
        invariant 0 <= i <= |spawnedObjects|
        invariant forall j :: 0 <= j < i ==> spawnedObjects[j].Some? && !Reusable(spawnedObjects[j], name)
      {
        var obj := spawnedObjects[i];
        if obj.None? {
          assert ScanEnd(spawnedObjects, name) > i;
          return Err(NullReference);
        }
        if !obj.value.active && obj.value.name == name {
          return Ok(Some(i));
        }
        i := i + 1;
      }
      return Ok(None);
    }

    /** `SpawnOnceObject(prefab, spawnPoint)`: null checks, one sampled position, one
        appended clone. */
    method SpawnOnceObject(prefab: Option<Prefab>, spawnPoint: Option<SpawnPoint>, attempts: seq<Draw>) returns (r: Outcome)
      modifies this
      ensures Step(r, Snapshot()) == SampledCreate(old(Snapshot()), prefab, spawnPoint, attempts)
    {
      if prefab.None? {
        return Fail(NullReference);
      }
      if spawnPoint.None? {
        return Fail(NullReference);
      }
      var spawnPosition := GetRandomSpawnPosition(spawnPoint, attempts);
      if spawnPosition.Err? {
        return Fail(spawnPosition.error);
      }
      spawnedObjects := spawnedObjects + [Some(Instantiate(prefab.value, spawnPosition.value))];
      return Pass;
    }

    /** `GetRandomSpawnPosition(spawnPoint)` over a finite supply of attempts: y is 0,
        and the accepted position is recorded in `_oldSpawnPosition`. */
    method GetRandomSpawnPosition(spawnPoint: Option<SpawnPoint>, attempts: seq<Draw>) returns (r: Result<Vec3>)
      modifies this
      ensures r == SampleFrom(spawnPoint, GroundLevel, old(oldSpawnPosition), attempts)
      ensures oldSpawnPosition == if r.Ok? then r.value else old(oldSpawnPosition)
      ensures spawnedObjects == old(spawnedObjects)
      decreases |attempts|
    {
      if spawnPoint.None? {
        return Err(NullReference);
      }
      if attempts == [] {
        return Err(DrawsExhausted);
      }
      var sp := spawnPoint.value;
      var randX := Range(sp.boundsMin.x, sp.boundsMax.x, attempts[0].tx);
      var randZ := Range(sp.boundsMin.z, sp.boundsMax.z, attempts[0].tz);
      var newSpawnPosition := Vec3(randX, 0.0, randZ);
      if newSpawnPosition == oldSpawnPosition {
        r := GetRandomSpawnPosition(spawnPoint, attempts[1..]);
        return;
      }
      oldSpawnPosition := newSpawnPosition;
      return Ok(newSpawnPosition);
    }
  }
}
