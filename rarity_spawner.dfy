/** RaritySpawner: a self-contained spawner that chooses prefabs by rarity, samples a
    fresh position (y = 0) for every spawn, and uses the pool scan that throws on a null
    entry. */
module Rarity {
  import opened SpawnTypes
  import opened Pools
  import opened Sampling
  import opened Selection
  import opened Steps
  import Base

  class RaritySpawner {
    const spawnPoints: seq<Option<SpawnPoint>>
    var spawnedObjects: Pool
    var oldSpawnPosition: Vec3

    constructor (spawnPoints: seq<Option<SpawnPoint>>)
      ensures this.spawnPoints == spawnPoints
      ensures spawnedObjects == [] && oldSpawnPosition == Origin
    {
      this.spawnPoints := spawnPoints;
      spawnedObjects := [];
      oldSpawnPosition := Origin;
    }

    /** The mutable state: the pool and the last sampled position. */
    function Snapshot(): State
      reads this
    {
      State(spawnedObjects, oldSpawnPosition)
    }

    /** `Spawn(prefabs, spawnPoint)`: both null checks come before the weighted choice,
        then the strict reuse-or-create rule. */
    method Spawn(prefabs: Option<seq<Drop>>, spawnPoint: Option<SpawnPoint>, roll: Roll) returns (r: Outcome)
      modifies this
      ensures Step(r, Snapshot()) == RaritySpawn(old(Snapshot()), prefabs, spawnPoint, roll)
    {
      if prefabs.None? {
        return Fail(NullReference);
      }
      if spawnPoint.None? {
        return Fail(NullReference);
      }
      var prefab := GetChancePrefab(prefabs, roll.chance);
      var activated := TryActivateObject(prefab.value, spawnPoint, roll.attempts);
      if activated.Err? {
        return Fail(activated.error);
      }
      r := Pass;
      if !activated.value {
        r := SpawnOnceObject(prefab.value, spawnPoint, roll.attempts);
      }
    }

    /** `Spawn(prefabs)`: one single spawn per spawn point, in list order. */
    method SpawnAll(prefabs: Option<seq<Drop>>, rolls: seq<Roll>) returns (r: Outcome)
      modifies this
      ensures Step(r, Snapshot()) == Run(PickByRarity(prefabs), old(Snapshot()), spawnPoints, rolls)
    {
      r := Pass;
      var left := rolls;
      var k := 0;
      while k < |spawnPoints|
        invariant 0 <= k <= |spawnPoints| && r == Pass
        invariant Run(PickByRarity(prefabs), old(Snapshot()), spawnPoints, rolls)
          == Run(PickByRarity(prefabs), Snapshot(), spawnPoints[k..], left)
      {
        if left == [] {
          return Fail(DrawsExhausted);
        }
        assert spawnPoints[k..][1..] == spawnPoints[k + 1..];
        r := Spawn(prefabs, spawnPoints[k], left[0]);
        if r.Fail? {
          return;
        }
        left := left[1..];
        k := k + 1;
      }
    }

    /** `Spawn(prefabs, count)`: `count` single spawns at each point, points in list
        order. `count <= 0` is only logged, so the loops run zero times. */
    method SpawnAllRepeated(prefabs: Option<seq<Drop>>, count: int, rolls: seq<Roll>) returns (r: Outcome)
      modifies this
      ensures Step(r, Snapshot()) == Run(PickByRarity(prefabs), old(Snapshot()), Visits(spawnPoints, count), rolls)
    {
      r := Pass;
      assert spawnPoints[0..] == spawnPoints;
      var left := rolls;
      var k := 0;
      while k < |spawnPoints|
        invariant 0 <= k <= |spawnPoints| && r == Pass
        invariant Run(PickByRarity(prefabs), old(Snapshot()), Visits(spawnPoints, count), rolls)
          == Run(PickByRarity(prefabs), Snapshot(), Visits(spawnPoints[k..], count), left)
      {
        assert spawnPoints[k..][1..] == spawnPoints[k + 1..];
        RunAppend(PickByRarity(prefabs), Snapshot(), Repeat(spawnPoints[k], count), Visits(spawnPoints[k + 1..], count), left);
        r := SpawnRepeated(prefabs, spawnPoints[k], count, left);
        if r.Fail? {
          return;
        }
        left := left[if count < 0 then 0 else count..];
        k := k + 1;
      }
    }

    /** `Spawn(prefabs, spawnPoint, count)`: `count` single spawns at that point;
        `count <= 0` is only logged. It is also the inner loop of `Spawn(prefabs, count)`. */
    method SpawnRepeated(prefabs: Option<seq<Drop>>, spawnPoint: Option<SpawnPoint>, count: int, rolls: seq<Roll>)
      returns (r: Outcome)
      modifies this
      ensures Step(r, Snapshot()) == Run(PickByRarity(prefabs), old(Snapshot()), Repeat(spawnPoint, count), rolls)
    {
      r := Pass;
      var left := rolls;
      ghost var todo := Repeat(spawnPoint, count);
      var i := 0;
      while i < count
        invariant 0 <= i <= if count < 0 then 0 else count
        invariant r == Pass
        invariant |todo| == (if count < 0 then 0 else count - i)
        invariant forall k :: 0 <= k < |todo| ==> todo[k] == spawnPoint
        invariant Run(PickByRarity(prefabs), old(Snapshot()), Repeat(spawnPoint, count), rolls) == Run(PickByRarity(prefabs), Snapshot(), todo, left)
      {
        if left == [] {
          return Fail(DrawsExhausted);
        }
        ghost var before := Snapshot();
        RunStep(PickByRarity(prefabs), before, todo, left);
        r := Spawn(prefabs, spawnPoint, left[0]);
        assert Step(r, Snapshot()) == Single(PickByRarity(prefabs), before, spawnPoint, left[0]);
        if r.Fail? {
          return;
        }
        left := left[1..];
        todo := todo[1..];
        i := i + 1;
      }
    }

    /** `GetChancePrefab(prefabs)`: the same weighted choice as SpawnerBase's, with a
        plain null check. */
    method GetChancePrefab(prefabs: Option<seq<Drop>>, t: real) returns (r: Result<Option<Prefab>>)
      ensures r == ChancePrefab(prefabs, t)
    {
      if prefabs.None? {
        return Err(NullReference);
      }
      r := Base.WeightedChoice(prefabs.value, t);
    }

    /** `SpawnOnceObject(prefab, spawnPoint)`: null checks, one sampled position, one
        appended clone. */
    method SpawnOnceObject(prefab: Option<Prefab>, spawnPoint: Option<SpawnPoint>, attempts: seq<Draw>) returns (r: Outcome)
      modifies this
      ensures Step(r, Snapshot()) == SampledCreate(old(Snapshot()), prefab, spawnPoint, attempts)
    {
      if prefab.None? {
        return Fail(NullReference);
      }
      if spawnPoint.None? {
        return Fail(NullReference);
      }
      var spawnPosition := GetRandomSpawnPosition(spawnPoint, attempts);
      if spawnPosition.Err? {
        return Fail(spawnPosition.error);
      }
      spawnedObjects := spawnedObjects + [Some(Instantiate(prefab.value, spawnPosition.value))];
      return Pass;
    }

    /** `TryActivateObject(objPrefab, spawnPoint)`: null checks, the strict scan, and on a
        match a freshly sampled position for the reactivated entry. */
    method TryActivateObject(objPrefab: Option<Prefab>, spawnPoint: Option<SpawnPoint>, attempts: seq<Draw>)
      returns (r: Result<bool>)
      modifies this
      ensures (r, Snapshot()) == StrictTryActivate(old(Snapshot()), objPrefab, spawnPoint, attempts)
    {
      if objPrefab.None? {
        return Err(NullReference);
      }
      if spawnPoint.None? {
        return Err(NullReference);
      }
      var notActivated := FindNotActivatedObject(objPrefab);
      if notActivated.Err? {
        return Err(notActivated.error);
      }
      match notActivated.value
      case Some(i) =>
        var position := GetRandomSpawnPosition(spawnPoint, attempts);
        if position.Err? {
          return Err(position.error);
        }
        spawnedObjects := Activate(spawnedObjects, i, position.value);
        return Ok(true);
      case None =>
        return Ok(false);
    }

    /** `FindNotActivatedObject(findingObject)`: a null prefab throws; the scan throws on
        the first null entry it meets before a match. */
    method FindNotActivatedObject(findingObject: Option<Prefab>) returns (r: Result<Option<nat>>)
      ensures findingObject.None? ==> r == Err(NullReference)
      ensures findingObject.Some? ==> r == FirstInactiveStrict(spawnedObjects, findingObject.value.name)
    {
      if findingObject.None? {
        return Err(NullReference);
      }
      var name := findingObject.value.name;
      if |spawnedObjects| == 0 {
        return Ok(None);
      }
      var i := 0;
      while i < |spawnedObjects|
        invariant 0 <= i <= |spawnedObjects|
        invariant forall j :: 0 <= j < i ==> spawnedObjects[j].Some? && !Reusable(spawnedObjects[j], name)
      {
        var obj := spawnedObjects[i];
        if obj.None? {
          assert ScanEnd(spawnedObjects, name) > i;
          return Err(NullReference);
        }
        if !obj.value.active && obj.value.name == name {
          return Ok(Some(i));
        }
        i := i + 1;
      }
      return Ok(None);
    }

    /** `GetRandomSpawnPosition(spawnPoint)` over a finite supply of attempts: y is 0,
        and the accepted position is recorded in `_oldSpawnPosition`. */
    method GetRandomSpawnPosition(spawnPoint: Option<SpawnPoint>, attempts: seq<Draw>) returns (r: Result<Vec3>)
      modifies this
      ensures r == SampleFrom(spawnPoint, GroundLevel, old(oldSpawnPosition), attempts)
      ensures oldSpawnPosition == if r.Ok? then r.value else old(oldSpawnPosition)
      ensures spawnedObjects == old(spawnedObjects)
      decreases |attempts|
    {
      if spawnPoint.None? {
        return Err(NullReference);
      }
      if attempts == [] {
        return Err(DrawsExhausted);
      }
      var sp := spawnPoint.value;
      var randX := Range(sp.boundsMin.x, sp.boundsMax.x, attempts[0].tx);
      var randZ := Range(sp.boundsMin.z, sp.boundsMax.z, attempts[0].tz);
      var newSpawnPosition := Vec3(randX, 0.0, randZ);
      if newSpawnPosition == oldSpawnPosition {
        r := GetRandomSpawnPosition(spawnPoint, attempts[1..]);
        return;
      }
      oldSpawnPosition := newSpawnPosition;
      return Ok(newSpawnPosition);
    }
  }
}
