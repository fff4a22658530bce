/** Value types shared by every spawner: vectors, prefabs, pool entries, spawn points,
    drops, the exceptions the spawners raise, and the random values a spawn consumes. */
module SpawnTypes {

  datatype Option<T> = None | Some(value: T)

  /** A Unity `Vector3`; coordinates are exact reals (no float rounding). */
  datatype Vec3 = Vec3(x: real, y: real, z: real)

  /** `default(Vector3)`, the initial value of `_oldSpawnPosition`. */
  const Origin: Vec3 := Vec3(0.0, 0.0, 0.0)

  /** A prefab GameObject. Reuse compares names; `Instantiate` copies the components
      and the active flag into the clone. */
  datatype Prefab = Prefab(name: string, components: set<string>, active: bool)

  /** A spawned GameObject as the pool sees it: its name, its components,
      `activeInHierarchy` and `transform.position`. */
  datatype Entry = Entry(name: string, components: set<string>, active: bool, pos: Vec3)

  /** `_spawnedObjects`; `None` is a null or destroyed GameObject (`!obj` holds). */
  type Pool = seq<Option<Entry>>

  datatype SpawnPointData = SpawnPointData(position: Vec3, boundsMin: Vec3, boundsMax: Vec3)

  /** A SpawnPoint: its transform position and the bounds of its BoxCollider,
      whose minimum never exceeds its maximum on any axis. */
  type SpawnPoint = p: SpawnPointData
    | p.boundsMin.x <= p.boundsMax.x && p.boundsMin.y <= p.boundsMax.y && p.boundsMin.z <= p.boundsMax.z
    witness SpawnPointData(Origin, Origin, Origin)

  /** The `Drop` struct: a prefab with its integer rarity weight. */
  datatype Drop = Drop(name: string, objectPrefab: Option<Prefab>, dropRarity: int)

  /** The exception kinds the spawners raise. `DrawsExhausted` is not a .NET exception:
      it is what the model reports when the finite supply of random values runs out,
      where the original would keep drawing. */
  datatype Exception = NullReference | ArgumentNull | ArgumentOutOfRange | Argument | DrawsExhausted

  /** The outcome of a `void` operation: it returned, or it threw. */
  datatype Outcome = Pass | Fail(error: Exception)

  /** The outcome of an operation with a result. */
  datatype Result<T> = Ok(value: T) | Err(error: Exception)

  /** The mutable state of a spawner: `_spawnedObjects` and `_oldSpawnPosition`. */
  datatype State = State(pool: Pool, last: Vec3)

  /** What a spawn operation did: how it ended and the state it left behind. */
  datatype Step = Step(outcome: Outcome, state: State)

  /** One attempt of the position sampler: the random source's values in [0, 1]
      behind the x draw and the z draw. */
  datatype Draw = Draw(tx: real, tz: real)

  /** The random values one single spawn may consume: an int draw for
      `Random.Range(0, Count)`, a value in [0, 1] for the rarity draw, and the
      sampler's attempts. */
  datatype Roll = Roll(pick: int, chance: real, attempts: seq<Draw>)
}
