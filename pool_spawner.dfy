/** Spawners/Spawner: a self-contained spawner for one prefab at a time, placed either
    at a given position or at a sampled position inside a spawn point (y = the point's
    own y). Null checks go through `Exceptor.ThrowIfNull`; the pool scan skips null
    entries. */
module PoolSpawner {
  import opened SpawnTypes
  import opened Pools
  import opened Sampling
  import opened Steps
  import Base
  import Exceptor

  class Spawner {
    const spawnPoints: seq<Option<SpawnPoint>>
    var spawnedObjects: Pool
    var oldSpawnPosition: Vec3

    constructor (spawnPoints: seq<Option<SpawnPoint>>)
      ensures this.spawnPoints == spawnPoints
      ensures spawnedObjects == [] && oldSpawnPosition == Origin
    {
      this.spawnPoints := spawnPoints;
      spawnedObjects := [];
      oldSpawnPosition := Origin;
    }

    /** The mutable state: the pool and the last sampled position. */
    function Snapshot(): State
      reads this
    {
      State(spawnedObjects, oldSpawnPosition)
    }

    /** `Spawn(prefab, position)`: a null prefab throws before any change; otherwise
        reuse-or-create at exactly that position. */
    method SpawnAtPosition(prefab: Option<Prefab>, position: Vec3) returns (r: Outcome)
      modifies this
      ensures Pools.SpawnAt(old(spawnedObjects), prefab, position) == if r.Pass? then Ok(spawnedObjects) else Err(r.error)
      ensures r.Fail? ==> spawnedObjects == old(spawnedObjects)
      ensures oldSpawnPosition == old(oldSpawnPosition)
    {
      r := Base.NullCheck(prefab.Some?);
      if r.Fail? {
        return;
      }
      var activated := TryActivateObject(prefab, position);
      if !activated.value {
        r := SpawnOnceObject(prefab, position);
      }
    }

    /** `Spawn(prefab, position, count)`: `count <= 0` throws ArgumentOutOfRangeException
        before any change; otherwise `count` single spawns at that position. */
    method SpawnAtPositionRepeated(prefab: Option<Prefab>, position: Vec3, count: int) returns (r: Outcome)
      modifies this
      ensures count <= 0 ==> r == Fail(ArgumentOutOfRange) && spawnedObjects == old(spawnedObjects)
      ensures count > 0 ==>
        SpawnTimes(old(spawnedObjects), prefab, position, count) == if r.Pass? then Ok(spawnedObjects) else Err(r.error)
      ensures r.Fail? ==> spawnedObjects == old(spawnedObjects)
      ensures oldSpawnPosition == old(oldSpawnPosition)
    {
      r := Exceptor.ThrowIfTrue(count <= 0, Some(ArgumentOutOfRange));
      if r.Fail? {
        return;
      }
      var i := 0;
      while i < count
        invariant 0 <= i <= count && r == Pass
        invariant i > 0 ==> prefab.Some?
        invariant i == 0 ==> spawnedObjects == old(spawnedObjects)
        invariant SpawnTimes(old(spawnedObjects), prefab, position, count) == SpawnTimes(spawnedObjects, prefab, position, count - i)
        invariant oldSpawnPosition == old(oldSpawnPosition)
      {
        r := SpawnAtPosition(prefab, position);
        if r.Fail? {
          return;
        }
        i := i + 1;
      }
    }

    /** `Spawn(prefab, spawnPoint)`: a null spawn point throws before sampling; then one
        sampled position, then `Spawn(prefab, position)`. */
    method Spawn(prefab: Option<Prefab>, spawnPoint: Option<SpawnPoint>, attempts: seq<Draw>) returns (r: Outcome)
      modifies this
      ensures Step(r, Snapshot()) == SampledSpawn(old(Snapshot()), prefab, spawnPoint, attempts)
    {
      r := Base.NullCheck(spawnPoint.Some?);
      if r.Fail? {
        return;
      }
      var spawnPosition := GetRandomSpawnPosition(spawnPoint, attempts);
      if spawnPosition.Err? {
        return Fail(spawnPosition.error);
      }
      r := SpawnAtPosition(prefab, spawnPosition.value);
    }

    /** `Spawn(prefab)`: one single spawn per spawn point, in list order. */
    method SpawnAll(prefab: Option<Prefab>, rolls: seq<Roll>) returns (r: Outcome)
      modifies this
      ensures Step(r, Snapshot()) == Run(SampleThenSpawn(prefab), old(Snapshot()), spawnPoints, rolls)
    {
      r := Pass;
      var left := rolls;
      var k := 0;
      while k < |spawnPoints|
        invariant 0 <= k <= |spawnPoints| && r == Pass
        invariant Run(SampleThenSpawn(prefab), old(Snapshot()), spawnPoints, rolls)
          == Run(SampleThenSpawn(prefab), Snapshot(), spawnPoints[k..], left)
      {
        if left == [] {
          return Fail(DrawsExhausted);
        }
        assert spawnPoints[k..][1..] == spawnPoints[k + 1..];
        r := Spawn(prefab, spawnPoints[k], left[0].attempts);
        if r.Fail? {
          return;
        }
        left := left[1..];
        k := k + 1;
      }
    }

    /** `Spawn(prefab, count)`: `count <= 0` throws ArgumentOutOfRangeException before any
        change; otherwise `count` single spawns at each point, points in list order. */
    method SpawnAllRepeated(prefab: Option<Prefab>, count: int, rolls: seq<Roll>) returns (r: Outcome)
      modifies this
      ensures count <= 0 ==> r == Fail(ArgumentOutOfRange) && Snapshot() == old(Snapshot())
      ensures count > 0 ==>
        Step(r, Snapshot()) == Run(SampleThenSpawn(prefab), old(Snapshot()), Visits(spawnPoints, count), rolls)
    {
      r := Exceptor.ThrowIfTrue(count <= 0, Some(ArgumentOutOfRange));
      if r.Fail? {
        return;
      }
      assert spawnPoints[0..] == spawnPoints;
      var left := rolls;
      var k := 0;
      while k < |spawnPoints|
        invariant 0 <= k <= |spawnPoints| && r == Pass
        invariant Run(SampleThenSpawn(prefab), old(Snapshot()), Visits(spawnPoints, count), rolls)
          == Run(SampleThenSpawn(prefab), Snapshot(), Visits(spawnPoints[k..], count), left)
      {
        assert spawnPoints[k..][1..] == spawnPoints[k + 1..];
        RunAppend(SampleThenSpawn(prefab), Snapshot(), Repeat(spawnPoints[k], count), Visits(spawnPoints[k + 1..], count), left);
        r := SpawnTimesAt(prefab, spawnPoints[k], count, left);
        if r.Fail? {
          return;
        }
        left := left[count..];
        k := k + 1;
      }
    }

    /** `Spawn(prefab, spawnPoint, count)`: `count <= 0` throws ArgumentOutOfRangeException
        before any change; otherwise `count` single spawns at that point. */
    method SpawnRepeated(prefab: Option<Prefab>, spawnPoint: Option<SpawnPoint>, count: int, rolls: seq<Roll>)
      returns (r: Outcome)
      modifies this
      ensures count <= 0 ==> r == Fail(ArgumentOutOfRange) && Snapshot() == old(Snapshot())
      ensures count > 0 ==>
        Step(r, Snapshot()) == Run(SampleThenSpawn(prefab), old(Snapshot()), Repeat(spawnPoint, count), rolls)
    {
      r := Exceptor.ThrowIfTrue(count <= 0, Some(ArgumentOutOfRange));
      if r.Fail? {
        return;
      }
      r := SpawnTimesAt(prefab, spawnPoint, count, rolls);
    }

    /** The loop `for (int i = 0; i < count; i++) Spawn(prefab, spawnPoint)` of both count
        overloads. */
    method SpawnTimesAt(prefab: Option<Prefab>, spawnPoint: Option<SpawnPoint>, count: int, rolls: seq<Roll>)
      returns (r: Outcome)
      modifies this
      ensures Step(r, Snapshot()) == Run(SampleThenSpawn(prefab), old(Snapshot()), Repeat(spawnPoint, count), rolls)
    {
      r := Pass;
      var left := rolls;
      ghost var todo := Repeat(spawnPoint, count);
      var i := 0;
      while i < count
        invariant 0 <= i <= if count < 0 then 0 else count
        invariant r == Pass
        invariant |todo| == (if count < 0 then 0 else count - i)
        invariant forall k :: 0 <= k < |todo| ==> todo[k] == spawnPoint
        invariant Run(SampleThenSpawn(prefab), old(Snapshot()), Repeat(spawnPoint, count), rolls) == Run(SampleThenSpawn(prefab), Snapshot(), todo, left)
      {
        if left == [] {
          return Fail(DrawsExhausted);
        }
        ghost var before := Snapshot();
        RunStep(SampleThenSpawn(prefab), before, todo, left);
        r := Spawn(prefab, spawnPoint, left[0].attempts);
        assert Step(r, Snapshot()) == Single(SampleThenSpawn(prefab), before, spawnPoint, left[0]);
        if r.Fail? {
          return;
        }
        left := left[1..];
        todo := todo[1..];
        i := i + 1;
      }
    }

    /** `TryActivateObject(objPrefab, position)`: on a match only that entry is moved to
        the position and made active. */
    method TryActivateObject(objPrefab: Option<Prefab>, position: Vec3) returns (r: Result<bool>)
      modifies this
      ensures (r, spawnedObjects) == TryReuse(old(spawnedObjects), objPrefab, position)
      ensures oldSpawnPosition == old(oldSpawnPosition)
    {
      var guard := Base.NullCheck(objPrefab.Some?);
      if guard.Fail? {
        return Err(guard.error);
      }
      var notActivated := FindNotActivatedObject(objPrefab);
      match notActivated.value
      case Some(i) =>
        spawnedObjects := Activate(spawnedObjects, i, position);
        return Ok(true);
      case None =>
        return Ok(false);
    }

    /** `SpawnOnceObject(prefab, position)`: appends one clone named as the prefab at the
        position. */
    method SpawnOnceObject(prefab: Option<Prefab>, position: Vec3) returns (r: Outcome)
      modifies this
      ensures (r, spawnedObjects) == Create(old(spawnedObjects), prefab, position)
      ensures oldSpawnPosition == old(oldSpawnPosition)
    {
      r := Base.NullCheck(prefab.Some?);
      if r.Fail? {
        return;
      }
      spawnedObjects := spawnedObjects + [Some(Instantiate(prefab.value, position))];
    }

    /** `FindNotActivatedObject(findingObject)`: the first inactive entry named as the
        prefab, skipping null entries. */
    method FindNotActivatedObject(findingObject: Option<Prefab>) returns (r: Result<Option<nat>>)
      ensures findingObject.None? ==> r == Err(NullReference)
      ensures findingObject.Some? ==> r == Ok(FirstInactive(spawnedObjects, findingObject.value.name))
    {
      var guard := Base.NullCheck(findingObject.Some?);
      if guard.Fail? {
        return Err(guard.error);
      }
      var name := findingObject.value.name;
      if |spawnedObjects| == 0 {
        return Ok(None);
      }
      var i := 0;
      while i < |spawnedObjects|
        invariant 0 <= i <= |spawnedObjects|
        invariant forall j :: 0 <= j < i ==> !Reusable(spawnedObjects[j], name)
      {
        var obj := spawnedObjects[i];
        if obj.Some? && !obj.value.active && obj.value.name == name {
          return Ok(Some(i));
        }
        i := i + 1;
      }
      return Ok(None);
    }

    /** `GetRandomSpawnPosition(spawnPoint)` over a finite supply of attempts: y is the
        point's own y, and the accepted position is recorded in `_oldSpawnPosition`. */
    method GetRandomSpawnPosition(spawnPoint: Option<SpawnPoint>, attempts: seq<Draw>) returns (r: Result<Vec3>)
      modifies this
      ensures r == SampleFrom(spawnPoint, PointHeight, old(oldSpawnPosition), attempts)
      ensures oldSpawnPosition == if r.Ok? then r.value else old(oldSpawnPosition)
      ensures spawnedObjects == old(spawnedObjects)
      decreases |attempts|
    {
      var guard := Base.NullCheck(spawnPoint.Some?);
      if guard.Fail? {
        return Err(guard.error);
      }
      if attempts == [] {
        return Err(DrawsExhausted);
      }
      var sp := spawnPoint.value;
      var randX := Range(sp.boundsMin.x, sp.boundsMax.x, attempts[0].tx);
      var randZ := Range(sp.boundsMin.z, sp.boundsMax.z, attempts[0].tz);
      var newSpawnPosition := Vec3(randX, sp.position.y, randZ);
      if newSpawnPosition == oldSpawnPosition {
        r := GetRandomSpawnPosition(spawnPoint, attempts[1..]);
        return;
      }
      oldSpawnPosition := newSpawnPosition;
      return Ok(newSpawnPosition);
    }
  }
}
