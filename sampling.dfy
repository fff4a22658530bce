/** The anti-repeat position sampler `GetRandomSpawnPosition`: draw x and z inside the
    spawn point's box, fix y, and draw again while the result equals the last position. */
module Sampling {
  import opened SpawnTypes

  /** A value of the random source: `Random.value` lies in [0, 1]. */
  predicate IsUnit(t: real)
  {
    0.0 <= t <= 1.0
  }

  predicate UnitDraws(attempts: seq<Draw>)
  {
    forall i :: 0 <= i < |attempts| ==> IsUnit(attempts[i].tx) && IsUnit(attempts[i].tz)
  }

  /** Float `Random.Range(lo, hi)` for the random source's value t: inclusive at both ends. */
  function Range(lo: real, hi: real, t: real): (r: real)
    ensures IsUnit(t) && lo <= hi ==> lo <= r <= hi
    ensures t == 0.0 ==> r == lo
    ensures lo == hi ==> r == lo
  {
    if IsUnit(t) && lo <= hi then
      MulBetween(hi - lo, t);
      lo + (hi - lo) * t
    else
      lo + (hi - lo) * t
  }

  lemma MulBetween(d: real, t: real)
    requires 0.0 <= d && IsUnit(t)
    ensures 0.0 <= d * t <= d
  {
    assert d * t <= d * 1.0;
  }

  /** Which y the sampler fixes: the spawn point's own height (SpawnerBase,
      Spawners/Spawner) or 0 (RaritySpawner, Scripts/Spawner). */
  datatype HeightRule = PointHeight | GroundLevel

  function Height(rule: HeightRule, sp: SpawnPoint): real
  {
    match rule
    case PointHeight => sp.position.y
    case GroundLevel => 0.0
  }

  /** The position one attempt proposes. */
  function Candidate(sp: SpawnPoint, y: real, d: Draw): Vec3
  {
    Vec3(Range(sp.boundsMin.x, sp.boundsMax.x, d.tx), y, Range(sp.boundsMin.z, sp.boundsMax.z, d.tz))
  }

  /** x and z lie inside the spawn point's box. */
  predicate InBounds(v: Vec3, sp: SpawnPoint)
  {
    sp.boundsMin.x <= v.x <= sp.boundsMax.x && sp.boundsMin.z <= v.z <= sp.boundsMax.z
  }

  /** The retry of `GetRandomSpawnPosition` over a finite supply of attempts: the first
      candidate that differs from the last position, or `None` when every attempt
      repeated it. The accepted position lies in the box, has the fixed height and
      differs from the last one. */
  function Sample(sp: SpawnPoint, y: real, last: Vec3, attempts: seq<Draw>): (r: Option<Vec3>)
    ensures UnitDraws(attempts) && r.Some? ==> InBounds(r.value, sp)
    ensures r.Some? ==> r.value.y == y && r.value != last
    ensures r.None? <==> forall i :: 0 <= i < |attempts| ==> Candidate(sp, y, attempts[i]) == last
    ensures r.Some? ==> exists i :: (0 <= i < |attempts| && r.value == Candidate(sp, y, attempts[i])
      && forall j :: 0 <= j < i ==> Candidate(sp, y, attempts[j]) == last)
    decreases |attempts|
  {
    if attempts == [] then None
    else
      var c := Candidate(sp, y, attempts[0]);
      if c == last then
        var r := Sample(sp, y, last, attempts[1..]);
        assert forall i :: 1 <= i < |attempts| ==> attempts[i] == attempts[1..][i - 1];
        assert r.Some? ==> exists i :: (1 <= i < |attempts| && r.value == Candidate(sp, y, attempts[i])
          && forall j :: 0 <= j < i ==> Candidate(sp, y, attempts[j]) == last);
        r
      else Some(c)
  }

  /** `GetRandomSpawnPosition(spawnPoint)`: a null spawn point throws
      NullReferenceException; an exhausted supply is `DrawsExhausted`. */
  function SampleFrom(spawnPoint: Option<SpawnPoint>, rule: HeightRule, last: Vec3, attempts: seq<Draw>): (r: Result<Vec3>)
    ensures spawnPoint.None? ==> r == Err(NullReference)
    ensures r.Err? ==> r.error in {NullReference, DrawsExhausted}
    ensures r.Ok? ==> spawnPoint.Some? && r.value.y == Height(rule, spawnPoint.value) && r.value != last
    ensures r.Ok? && UnitDraws(attempts) ==> InBounds(r.value, spawnPoint.value)
  {
    if spawnPoint.None? then Err(NullReference)
    else match Sample(spawnPoint.value, Height(rule, spawnPoint.value), last, attempts)
      case None => Err(DrawsExhausted)
      case Some(v) => Ok(v)
  }

  /** A box that is flat in x and z has one candidate only; once that is the last
      position, no finite number of attempts yields a new one: the original's retry
      would recurse without end. */
  lemma {:induction false} FlatBoxNeverResolves(sp: SpawnPoint, y: real, attempts: seq<Draw>)
    requires sp.boundsMin.x == sp.boundsMax.x && sp.boundsMin.z == sp.boundsMax.z
    ensures Sample(sp, y, Vec3(sp.boundsMin.x, y, sp.boundsMin.z), attempts) == None
  {
    var last := Vec3(sp.boundsMin.x, y, sp.boundsMin.z);
    forall i | 0 <= i < |attempts|
      ensures Candidate(sp, y, attempts[i]) == last
    {
    }
  }
}
