/** RandomSpawner: a SpawnerBase whose `Spawn` overrides pick a prefab uniformly and
    place it at the spawn point's own position, reusing pooled entries first. The state
    it inherits lives in `base`. */
module RandomSpawning {
  import opened SpawnTypes
  import opened Selection
  import opened Steps
  import opened Base
  import Exceptor

  class RandomSpawner {
    /** The inherited SpawnerBase state: spawn points, pool and last sampled position. */
    const base: SpawnerBase

    constructor (spawnPoints: seq<Option<SpawnPoint>>)
      ensures fresh(base) && base.spawnPoints == spawnPoints
      ensures base.spawnedObjects == [] && base.oldSpawnPosition == Origin
    {
      base := new SpawnerBase(spawnPoints);
    }

    /** `Spawn(prefabs, spawnPoint)`: null checks, `GetRandomPrefab`, then reuse-or-create
        at `spawnPoint.transform.position`. */
    method Spawn(prefabs: Option<seq<Option<Prefab>>>, spawnPoint: Option<SpawnPoint>, pick: int) returns (r: Outcome)
      modifies base
      ensures Step(r, base.Snapshot()) == RandomSpawn(old(base.Snapshot()), prefabs, spawnPoint, pick)
    {
      r := NullCheck(prefabs.Some?);
      if r.Fail? {
        return;
      }
      r := NullCheck(spawnPoint.Some?);
      if r.Fail? {
        return;
      }
      var chosen := PickPrefab(prefabs, pick);
      if chosen.Err? {
        return Fail(chosen.error);
      }
      var prefab := chosen.value;
      var position := spawnPoint.value.position;
      var activated := base.TryActivateObject(prefab, position);
      if activated.Err? {
        return Fail(activated.error);
      }
      if !activated.value {
        r := base.SpawnOnceObject(prefab, position);
      }
    }

    /** `Spawn(prefabs)`: one single spawn per spawn point, in list order. */
    method SpawnAll(prefabs: Option<seq<Option<Prefab>>>, rolls: seq<Roll>) returns (r: Outcome)
      modifies base
      ensures Step(r, base.Snapshot()) == Run(PickRandom(prefabs), old(base.Snapshot()), base.spawnPoints, rolls)
    {
      r := Pass;
      var left := rolls;
      var k := 0;
      while k < |base.spawnPoints|
        invariant 0 <= k <= |base.spawnPoints| && r == Pass
        invariant Run(PickRandom(prefabs), old(base.Snapshot()), base.spawnPoints, rolls)
          == Run(PickRandom(prefabs), base.Snapshot(), base.spawnPoints[k..], left)
      {
        if left == [] {
          return Fail(DrawsExhausted);
        }
        assert base.spawnPoints[k..][1..] == base.spawnPoints[k + 1..];
        r := Spawn(prefabs, base.spawnPoints[k], left[0].pick);
        if r.Fail? {
          return;
        }
        left := left[1..];
        k := k + 1;
      }
    }

    /** `Spawn(prefabs, count)`: `count <= 0` throws ArgumentOutOfRangeException before any
        change; otherwise `count` single spawns at each point, points in list order. */
    method SpawnAllRepeated(prefabs: Option<seq<Option<Prefab>>>, count: int, rolls: seq<Roll>) returns (r: Outcome)
      modifies base
      ensures count <= 0 ==> r == Fail(ArgumentOutOfRange) && base.Snapshot() == old(base.Snapshot())
      ensures count > 0 ==>
        Step(r, base.Snapshot()) == Run(PickRandom(prefabs), old(base.Snapshot()), Visits(base.spawnPoints, count), rolls)
    {
      r := Exceptor.ThrowIfTrue(count <= 0, Some(ArgumentOutOfRange));
      if r.Fail? {
        return;
      }
      assert base.spawnPoints[0..] == base.spawnPoints;
      var left := rolls;
      var k := 0;
      while k < |base.spawnPoints|
        invariant 0 <= k <= |base.spawnPoints| && r == Pass
        invariant Run(PickRandom(prefabs), old(base.Snapshot()), Visits(base.spawnPoints, count), rolls)
          == Run(PickRandom(prefabs), base.Snapshot(), Visits(base.spawnPoints[k..], count), left)
      {
        assert base.spawnPoints[k..][1..] == base.spawnPoints[k + 1..];
        RunAppend(PickRandom(prefabs), base.Snapshot(), Repeat(base.spawnPoints[k], count), Visits(base.spawnPoints[k + 1..], count), left);
        r := SpawnTimesAt(prefabs, base.spawnPoints[k], count, left);
        if r.Fail? {
          return;
        }
        left := left[count..];
        k := k + 1;
      }
    }

    /** `Spawn(prefabs, spawnPoint, count)`: `count <= 0` throws ArgumentOutOfRangeException
        before any change; otherwise `count` single spawns at that point. */
    method SpawnRepeated(prefabs: Option<seq<Option<Prefab>>>, spawnPoint: Option<SpawnPoint>, count: int, rolls: seq<Roll>)
      returns (r: Outcome)
      modifies base
      ensures count <= 0 ==> r == Fail(ArgumentOutOfRange) && base.Snapshot() == old(base.Snapshot())
      ensures count > 0 ==>
        Step(r, base.Snapshot()) == Run(PickRandom(prefabs), old(base.Snapshot()), Repeat(spawnPoint, count), rolls)
    {
      r := Exceptor.ThrowIfTrue(count <= 0, Some(ArgumentOutOfRange));
      if r.Fail? {
        return;
      }
      r := SpawnTimesAt(prefabs, spawnPoint, count, rolls);
    }

    /** The loop `for (int i = 0; i < count; i++) Spawn(prefabs, spawnPoint)` of both count
        overloads. */
    method SpawnTimesAt(prefabs: Option<seq<Option<Prefab>>>, spawnPoint: Option<SpawnPoint>, count: int, rolls: seq<Roll>)
      returns (r: Outcome)
      modifies base
      ensures Step(r, base.Snapshot()) == Run(PickRandom(prefabs), old(base.Snapshot()), Repeat(spawnPoint, count), rolls)
    {
      r := Pass;
      var left := rolls;
      ghost var todo := Repeat(spawnPoint, count);
      var i := 0;
      while i < count
        invariant 0 <= i <= if count < 0 then 0 else count
        invariant r == Pass
        invariant |todo| == (if count < 0 then 0 else count - i)
        invariant forall k :: 0 <= k < |todo| ==> todo[k] == spawnPoint
        invariant Run(PickRandom(prefabs), old(base.Snapshot()), Repeat(spawnPoint, count), rolls) == Run(PickRandom(prefabs), base.Snapshot(), todo, left)
      {
        if left == [] {
          return Fail(DrawsExhausted);
        }
        ghost var before := base.Snapshot();
        RunStep(PickRandom(prefabs), before, todo, left);
        r := Spawn(prefabs, spawnPoint, left[0].pick);
        assert Step(r, base.Snapshot()) == Single(PickRandom(prefabs), before, spawnPoint, left[0]);
        if r.Fail? {
          return;
        }
        left := left[1..];
        todo := todo[1..];
        i := i + 1;
      }
    }
  }
}
