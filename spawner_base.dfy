/** SpawnerBase: the pool `_spawnedObjects`, the last sampled position
    `_oldSpawnPosition`, and the protected helpers its subclasses build on. Every null
    check goes through `Exceptor.ThrowIfNull`. */
module Base {
  import opened SpawnTypes
  import opened Pools
  import opened Sampling
  import opened Selection
  import Exceptor

  /** A null check through `Exceptor.ThrowIfNull(x, exception)` on a reference argument. */
  function NullCheck(present: bool): (r: Outcome)
    ensures r.Pass? <==> present
    ensures r.Fail? ==> r.error == NullReference
  {
    Exceptor.ThrowIfNull(Exceptor.Ref(present), Some(ArgumentNull))
  }

  class SpawnerBase {
    const spawnPoints: seq<Option<SpawnPoint>>
    var spawnedObjects: Pool
    var oldSpawnPosition: Vec3

    constructor (spawnPoints: seq<Option<SpawnPoint>>)
      ensures this.spawnPoints == spawnPoints
      ensures spawnedObjects == [] && oldSpawnPosition == Origin
    {
      this.spawnPoints := spawnPoints;
      spawnedObjects := [];
      oldSpawnPosition := Origin;
    }

    /** The mutable state: the pool and the last sampled position. */
    function Snapshot(): State
      reads this
    {
      State(spawnedObjects, oldSpawnPosition)
    }

    /** `TryFindSpawnedObjectsOfType(type, out objects)`: a null type throws; otherwise
        it answers true with the non-null spawned objects carrying that component, in
        pool order. */
    method TryFindSpawnedObjectsOfType(componentType: Option<string>) returns (r: Outcome, found: bool, objects: seq<Entry>)
      ensures r.Pass? <==> componentType.Some?
      ensures r.Fail? ==> r.error == NullReference && !found && objects == []
      ensures r.Pass? ==> found && objects == WithComponent(spawnedObjects, componentType.value)
    {
      r := NullCheck(componentType.Some?);
      if r.Fail? {
        return r, false, [];
      }
      var t := componentType.value;
      objects := [];
      var i := 0;
      while i < |spawnedObjects|
        invariant 0 <= i <= |spawnedObjects|
        invariant objects == WithComponent(spawnedObjects[..i], t)
      {
        var obj := spawnedObjects[i];
        assert spawnedObjects[..i + 1][..i] == spawnedObjects[..i];
        if obj.Some? && t in obj.value.components {
          objects := objects + [obj.value];
        }
        i := i + 1;
      }
      assert spawnedObjects[..i] == spawnedObjects;
      found := true;
    }

    /** `FindNotActivatedObject(findingObject)`: a null prefab throws; otherwise the
        first entry, in insertion order, that is inactive and named as the prefab,
        skipping null entries. */
    method FindNotActivatedObject(findingObject: Option<Prefab>) returns (r: Result<Option<nat>>)
      ensures findingObject.None? ==> r == Err(NullReference)
      ensures findingObject.Some? ==> r == Ok(FirstInactive(spawnedObjects, findingObject.value.name))
    {
      var guard := NullCheck(findingObject.Some?);
      if guard.Fail? {
        return Err(guard.error);
      }
      var name := findingObject.value.name;
      if |spawnedObjects| == 0 {
        return Ok(None);
      }
      var i := 0;
      while i < |spawnedObjects|
        invariant 0 <= i <= |spawnedObjects|
        invariant forall j :: 0 <= j < i ==> !Reusable(spawnedObjects[j], name)
      {
        var obj := spawnedObjects[i];
        if obj.Some? && !obj.value.active && obj.value.name == name {
          return Ok(Some(i));
        }
        i := i + 1;
      }
      return Ok(None);
    }

    /** `TryActivateObject(objPrefab, position)`: on a match only that entry is moved to
        the position and made active; the sampler's state is not touched. */
    method TryActivateObject(objPrefab: Option<Prefab>, position: Vec3) returns (r: Result<bool>)
      modifies this
      ensures (r, spawnedObjects) == TryReuse(old(spawnedObjects), objPrefab, position)
      ensures oldSpawnPosition == old(oldSpawnPosition)
    {
      var guard := NullCheck(objPrefab.Some?);
      if guard.Fail? {
        return Err(guard.error);
      }
      var notActivated := FindNotActivatedObject(objPrefab);
      match notActivated.value
      case Some(i) =>
        spawnedObjects := Activate(spawnedObjects, i, position);
        return Ok(true);
      case None =>
        return Ok(false);
    }

    /** `SpawnOnceObject(prefab, position)`: appends one clone of the prefab, named as
        the prefab, at the position. */
    method SpawnOnceObject(prefab: Option<Prefab>, position: Vec3) returns (r: Outcome)
      modifies this
      ensures (r, spawnedObjects) == Create(old(spawnedObjects), prefab, position)
      ensures oldSpawnPosition == old(oldSpawnPosition)
    {
      r := NullCheck(prefab.Some?);
      if r.Fail? {
        return;
      }
      spawnedObjects := spawnedObjects + [Some(Instantiate(prefab.value, position))];
    }

    /** `GetRandomSpawnPosition(spawnPoint)` over a finite supply of attempts: the
        accepted position is recorded in `_oldSpawnPosition`; y is the point's own y. */
    method GetRandomSpawnPosition(spawnPoint: Option<SpawnPoint>, attempts: seq<Draw>) returns (r: Result<Vec3>)
      modifies this
      ensures r == SampleFrom(spawnPoint, PointHeight, old(oldSpawnPosition), attempts)
      ensures oldSpawnPosition == if r.Ok? then r.value else old(oldSpawnPosition)
      ensures spawnedObjects == old(spawnedObjects)
      decreases |attempts|
    {
      var guard := NullCheck(spawnPoint.Some?);
      if guard.Fail? {
        return Err(guard.error);
      }
      if attempts == [] {
        return Err(DrawsExhausted);
      }
      var sp := spawnPoint.value;
      var randX := Range(sp.boundsMin.x, sp.boundsMax.x, attempts[0].tx);
      var randZ := Range(sp.boundsMin.z, sp.boundsMax.z, attempts[0].tz);
      var newSpawnPosition := Vec3(randX, sp.position.y, randZ);
      if newSpawnPosition == oldSpawnPosition {
        r := GetRandomSpawnPosition(spawnPoint, attempts[1..]);
        return;
      }
      oldSpawnPosition := newSpawnPosition;
      return Ok(newSpawnPosition);
    }

    /** `GetChancePrefab(prefabs)`: the two loops (sum the rarities, then walk the list
        subtracting each skipped rarity from the draw) compute the weighted choice. */
    method GetChancePrefab(prefabs: Option<seq<Drop>>, t: real) returns (r: Result<Option<Prefab>>)
      ensures r == ChancePrefab(prefabs, t)
    {
      var guard := NullCheck(prefabs.Some?);
      if guard.Fail? {
        return Err(guard.error);
      }
      r := WeightedChoice(prefabs.value, t);
    }
  }

  /** The loops of `GetChancePrefab` past its null check, shared by SpawnerBase and
      RaritySpawner: an empty list yields null; otherwise sum, draw, and walk. */
  method WeightedChoice(drops: seq<Drop>, t: real) returns (r: Result<Option<Prefab>>)
    ensures r == ChancePrefab(Some(drops), t)
  {
    if |drops| == 0 {
      return Ok(None);
    }
    var itemWeight := 0;
    var i := 0;
    while i < |drops|
      invariant 0 <= i <= |drops|
      invariant itemWeight == Total(drops[..i])
    {
      assert drops[..i + 1][..i] == drops[..i];
      itemWeight := itemWeight + drops[i].dropRarity;
      i := i + 1;
    }
    assert drops[..i] == drops;
    var randomValue := Range(0.0, itemWeight as real, t);
    i := 0;
    while i < |drops|
      invariant 0 <= i <= |drops|
      invariant ChanceFrom(drops, randomValue, i) == ChanceIndex(drops, t)
    {
      if randomValue <= drops[i].dropRarity as real {
        return Ok(drops[i].objectPrefab);
      }
      randomValue := randomValue - drops[i].dropRarity as real;
      i := i + 1;
    }
    return Ok(None);
  }
}
