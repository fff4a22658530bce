/** The pool `_spawnedObjects` as a value: the reuse scans, the two updates
    (reactivate an entry, append a clone) and the reuse-or-create rule. */
module Pools {
  import opened SpawnTypes

  /** An entry the pool may hand out again for a prefab of this name:
      present, inactive, and carrying the name. */
  predicate Reusable(e: Option<Entry>, name: string)
  {
    e.Some? && !e.value.active && e.value.name == name
  }

  /** The scan of `FindNotActivatedObject` that skips null entries: the index of the
      first reusable entry in insertion order, if there is one. */
  function FirstInactive(pool: Pool, name: string): (r: Option<nat>)
    ensures r.Some? ==> r.value < |pool| && Reusable(pool[r.value], name)
    ensures r.Some? ==> forall j :: 0 <= j < r.value ==> !Reusable(pool[j], name)
    ensures r.None? <==> forall j :: 0 <= j < |pool| ==> !Reusable(pool[j], name)
    decreases |pool|
  {
    if |pool| == 0 then None
    else if Reusable(pool[0], name) then Some(0)
    else match FirstInactive(pool[1..], name)
      case None => None
      case Some(k) => Some(k + 1)
  }

  /** Where that scan stops: at the first reusable entry, or at the end. It is also the
      index a successful `SpawnAt` uses: the reused entry, or the appended one. */
  function ScanEnd(pool: Pool, name: string): (n: nat)
    ensures n <= |pool|
  {
    match FirstInactive(pool, name)
    case Some(i) => i
    case None => |pool|
  }

  /** The scan of `FindNotActivatedObject` that throws on a null entry: it throws
      NullReferenceException exactly when it meets a null entry before it meets a
      reusable one, and otherwise finds what the skipping scan finds. */
  function FirstInactiveStrict(pool: Pool, name: string): (r: Result<Option<nat>>)
    ensures r.Err? <==> exists j :: 0 <= j < ScanEnd(pool, name) && pool[j].None?
    ensures r.Err? ==> r.error == NullReference
    ensures r.Ok? ==> r.value == FirstInactive(pool, name)
    decreases |pool|
  {
    if |pool| == 0 then Ok(None)
    else if pool[0].None? then Err(NullReference)
    else if Reusable(pool[0], name) then Ok(Some(0))
    else
      var rest := FirstInactiveStrict(pool[1..], name);
      assert ScanEnd(pool, name) == ScanEnd(pool[1..], name) + 1;
      assert forall j :: 1 <= j < |pool| ==> pool[j] == pool[1..][j - 1];
      match rest
      case Err(e) => Err(e)
      case Ok(None) => Ok(None)
      case Ok(Some(k)) => Ok(Some(k + 1))
  }

  /** `Instantiate(prefab, position)` followed by `name = prefab.name`. */
  function Instantiate(prefab: Prefab, pos: Vec3): Entry
  {
    Entry(prefab.name, prefab.components, prefab.active, pos)
  }

  /** `transform.position = pos; SetActive(true)` on the entry at index i. */
  function Activate(pool: Pool, i: nat, pos: Vec3): (r: Pool)
    requires i < |pool| && pool[i].Some?
  {
    pool[i := Some(pool[i].value.(active := true, pos := pos))]
  }

  /** `SetActive(false)` on the entry at index i: what a caller does to return an
      entry to the pool. */
  function Deactivate(pool: Pool, i: nat): (r: Pool)
    requires i < |pool| && pool[i].Some?
  {
    pool[i := Some(pool[i].value.(active := false))]
  }

  /** `TryActivateObject(prefab, position)` of SpawnerBase and Spawners/Spawner:
      on a match, only that entry moves to the position and becomes active. */
  function TryReuse(pool: Pool, prefab: Option<Prefab>, pos: Vec3): (r: (Result<bool>, Pool))
    ensures prefab.None? ==> r == (Err(NullReference), pool)
    ensures prefab.Some? ==> r.0.Ok?
    ensures prefab.Some? ==> (r.0.value <==> exists j :: 0 <= j < |pool| && Reusable(pool[j], prefab.value.name))
    ensures prefab.Some? && !r.0.value ==> r.1 == pool
    ensures prefab.Some? && r.0.value ==>
      var i := FirstInactive(pool, prefab.value.name).value;
      |r.1| == |pool| && r.1[i] == Some(pool[i].value.(active := true, pos := pos))
      && forall j :: 0 <= j < |pool| && j != i ==> r.1[j] == pool[j]
  {
    if prefab.None? then (Err(NullReference), pool)
    else match FirstInactive(pool, prefab.value.name)
      case Some(i) => (Ok(true), Activate(pool, i, pos))
      case None => (Ok(false), pool)
  }

  /** `SpawnOnceObject(prefab, position)` of SpawnerBase and Spawners/Spawner: appends
      one clone named as the prefab at the position, leaving the other entries as they were. */
  function Create(pool: Pool, prefab: Option<Prefab>, pos: Vec3): (r: (Outcome, Pool))
    ensures prefab.None? ==> r == (Fail(NullReference), pool)
    ensures prefab.Some? ==> r.0 == Pass && |r.1| == |pool| + 1 && r.1[..|pool|] == pool
    ensures prefab.Some? ==> r.1[|pool|] == Some(Entry(prefab.value.name, prefab.value.components, prefab.value.active, pos))
  {
    if prefab.None? then (Fail(NullReference), pool)
    else (Pass, pool + [Some(Instantiate(prefab.value, pos))])
  }

  /** The reuse-or-create rule of SpawnerBase's subclasses and Spawners/Spawner:
      `if (!TryActivateObject(prefab, pos)) SpawnOnceObject(prefab, pos)`.
      The pool grows by exactly one entry iff no reusable entry of that name existed,
      and a reusable entry is always the first one in insertion order. */
  function SpawnAt(pool: Pool, prefab: Option<Prefab>, pos: Vec3): (r: Result<Pool>)
    ensures prefab.None? <==> r.Err?
    ensures r.Err? ==> r.error == NullReference
    ensures r.Ok? ==> (|r.value| == |pool| + 1 <==> forall j :: 0 <= j < |pool| ==> !Reusable(pool[j], prefab.value.name))
    ensures r.Ok? ==> |r.value| == |pool| || |r.value| == |pool| + 1
    ensures r.Ok? && |r.value| == |pool| + 1 ==> r.value == pool + [Some(Instantiate(prefab.value, pos))]
    ensures r.Ok? && |r.value| == |pool| ==>
      FirstInactive(pool, prefab.value.name).Some? &&
      r.value == Activate(pool, FirstInactive(pool, prefab.value.name).value, pos)
  {
    var (reused, afterReuse) := TryReuse(pool, prefab, pos);
    if reused.Err? then Err(reused.error)
    else if reused.value then Ok(afterReuse)
    else
      // the prefab is known to be non-null here, so SpawnOnceObject's own check passes
      Ok(Create(afterReuse, prefab, pos).1)
  }

  /** Reuse round trip: spawn a prefab, return the spawned entry to the pool, spawn the
      same prefab again; the second spawn hands out the very same entry, at the new
      position, and the pool does not grow. */
  lemma {:induction false} ReuseAfterDeactivate(pool: Pool, prefab: Prefab, pos1: Vec3, pos2: Vec3)
    ensures SpawnAt(pool, Some(prefab), pos1).Ok?
    ensures
      var p1 := SpawnAt(pool, Some(prefab), pos1).value;
      var k := ScanEnd(pool, prefab.name);
      k < |p1| && p1[k].Some? &&
      var p2 := Deactivate(p1, k);
      FirstInactive(p2, prefab.name) == Some(k) &&
      SpawnAt(p2, Some(prefab), pos2) == Ok(Activate(p2, k, pos2)) &&
      |Activate(p2, k, pos2)| == |p1|
  {
    var p1 := SpawnAt(pool, Some(prefab), pos1).value;
    var k := ScanEnd(pool, prefab.name);
    assert k < |p1| && p1[k].Some?;
    var p2 := Deactivate(p1, k);
    assert Reusable(p2[k], prefab.name);
    forall j | 0 <= j < k
      ensures !Reusable(p2[j], prefab.name)
    {
      assert p2[j] == pool[j];
    }
  }

  /** The pool's GameObjects that carry a component of the given type, non-null ones
      only, in pool order (`TryFindSpawnedObjectsOfType`). */
  function WithComponent(pool: Pool, componentType: string): (r: seq<Entry>)
    ensures |r| <= |pool|
    ensures forall e :: e in r <==> Some(e) in pool && componentType in e.components
    decreases |pool|
  {
    if |pool| == 0 then []
    else
      var last := pool[|pool| - 1];
      assert pool == pool[..|pool| - 1] + [last];
      WithComponent(pool[..|pool| - 1], componentType)
        + (if last.Some? && componentType in last.value.components then [last.value] else [])
  }

  /** The filter keeps pool order: filtering a concatenation concatenates the filtered parts. */
  lemma {:induction false} WithComponentKeepsOrder(a: Pool, b: Pool, componentType: string)
    ensures WithComponent(a + b, componentType) == WithComponent(a, componentType) + WithComponent(b, componentType)
    decreases |b|
  {
    if |b| == 0 {
      assert a + b == a;
    } else {
      var b' := b[..|b| - 1];
      assert (a + b)[..|a + b| - 1] == a + b';
      assert (a + b)[|a + b| - 1] == b[|b| - 1];
      WithComponentKeepsOrder(a, b', componentType);
    }
  }
  /** The indices of the entries the pool may hand out again for this name. */
  function ReusableIndices(pool: Pool, name: string): (r: set<nat>)
  {
    set j: nat | j < |pool| && Reusable(pool[j], name)
  }

  /** For a prefab whose clones start active, each spawn consumes one reusable entry
      while there is one, and appends a clone (which is not reusable) otherwise. */
  lemma SpawnAtConsumes(pool: Pool, prefab: Prefab, pos: Vec3)
    requires prefab.active
    ensures SpawnAt(pool, Some(prefab), pos).Ok?
    ensures var r := SpawnAt(pool, Some(prefab), pos).value;
      var before := |ReusableIndices(pool, prefab.name)|;
      if before == 0 then |r| == |pool| + 1 && |ReusableIndices(r, prefab.name)| == 0
      else |r| == |pool| && |ReusableIndices(r, prefab.name)| == before - 1
  {
    var r := SpawnAt(pool, Some(prefab), pos).value;
    var before := ReusableIndices(pool, prefab.name);
    if |before| == 0 {
      assert before == {};
      assert forall j :: 0 <= j < |pool| && Reusable(pool[j], prefab.name) ==> j in before;
      assert ReusableIndices(r, prefab.name) == {};
    } else {
      var x :| x in before;
      assert Reusable(pool[x], prefab.name);
      var i := FirstInactive(pool, prefab.name).value;
      assert ReusableIndices(r, prefab.name) == before - {i};
    }
  }
}
