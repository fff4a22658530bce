/** What one single spawn does in each spawner, and what a coordinator's loop does:
    a sequence of single spawns over spawn points, stopping at the first exception. */
module Steps {
  import opened SpawnTypes
  import opened Pools
  import opened Sampling
  import opened Selection

  /** `TryActivateObject(objPrefab, spawnPoint)` of RaritySpawner and Scripts/Spawner:
      null checks, the scan that throws on a null entry, and on a match a freshly
      sampled position (y = 0) for the reused entry. */
  function StrictTryActivate(st: State, prefab: Option<Prefab>, spawnPoint: Option<SpawnPoint>, attempts: seq<Draw>)
    : (r: (Result<bool>, State))
    ensures prefab.None? || spawnPoint.None? ==> r == (Err(NullReference), st)
    ensures r.0 != Ok(true) ==> r.1 == st
    ensures r.0 == Ok(false) <==> prefab.Some? && spawnPoint.Some? && FirstInactiveStrict(st.pool, prefab.value.name) == Ok(None)
    ensures r.0 == Ok(true) ==>
      prefab.Some? && spawnPoint.Some? && FirstInactive(st.pool, prefab.value.name).Some?
      && r.1 == State(Activate(st.pool, FirstInactive(st.pool, prefab.value.name).value, r.1.last), r.1.last)
      && r.1.last != st.last && r.1.last.y == 0.0
  {
    if prefab.None? || spawnPoint.None? then (Err(NullReference), st)
    else match FirstInactiveStrict(st.pool, prefab.value.name)
      case Err(e) => (Err(e), st)
      case Ok(None) => (Ok(false), st)
      case Ok(Some(i)) =>
        match SampleFrom(spawnPoint, GroundLevel, st.last, attempts)
        case Err(e) => (Err(e), st)
        case Ok(pos) => (Ok(true), State(Activate(st.pool, i, pos), pos))
  }

  /** `SpawnOnceObject(prefab, spawnPoint)` of RaritySpawner and Scripts/Spawner: null
      checks, one sampled position (y = 0), one appended clone; nothing changes when it throws. */
  function SampledCreate(st: State, prefab: Option<Prefab>, spawnPoint: Option<SpawnPoint>, attempts: seq<Draw>): (r: Step)
    ensures prefab.None? || spawnPoint.None? ==> r == Step(Fail(NullReference), st)
    ensures r.outcome.Fail? ==> r.state == st
    ensures r.outcome.Pass? ==>
      prefab.Some? && spawnPoint.Some?
      && r.state.pool == st.pool + [Some(Instantiate(prefab.value, r.state.last))]
      && r.state.last != st.last && r.state.last.y == 0.0
    ensures r.outcome.Pass? && UnitDraws(attempts) ==> InBounds(r.state.last, spawnPoint.value)
  {
    if prefab.None? || spawnPoint.None? then Step(Fail(NullReference), st)
    else match SampleFrom(spawnPoint, GroundLevel, st.last, attempts)
      case Err(e) => Step(Fail(e), st)
      case Ok(pos) => Step(Pass, State(st.pool + [Some(Instantiate(prefab.value, pos))], pos))
  }

  /** The strict reuse-or-create rule, `if (!TryActivateObject(prefab, spawnPoint))
      SpawnOnceObject(prefab, spawnPoint)`. No entry is created while a reusable entry of
      the prefab's name exists; a spawn that returns has sampled exactly one new position,
      which the reused or created entry now holds; a spawn that throws changes nothing. */
  function StrictSpawn(st: State, prefab: Option<Prefab>, spawnPoint: Option<SpawnPoint>, attempts: seq<Draw>): (r: Step)
    ensures prefab.None? || spawnPoint.None? ==> r == Step(Fail(NullReference), st)
    ensures r.outcome.Fail? ==> r.state == st && r.outcome.error in {NullReference, DrawsExhausted}
    ensures |st.pool| <= |r.state.pool| <= |st.pool| + 1
    ensures prefab.Some? && (exists j :: 0 <= j < |st.pool| && Reusable(st.pool[j], prefab.value.name))
      ==> |r.state.pool| == |st.pool|
    ensures |r.state.pool| == |st.pool| + 1 <==>
      r.outcome.Pass? && prefab.Some? && FirstInactiveStrict(st.pool, prefab.value.name) == Ok(None)
    ensures r.outcome.Pass? && |r.state.pool| == |st.pool| + 1 ==>
      r.state.pool == st.pool + [Some(Instantiate(prefab.value, r.state.last))]
    ensures r.outcome.Pass? && |r.state.pool| == |st.pool| ==>
      FirstInactive(st.pool, prefab.value.name).Some?
      && r.state.pool == Activate(st.pool, FirstInactive(st.pool, prefab.value.name).value, r.state.last)
    ensures r.outcome.Pass? ==> r.state.last != st.last && r.state.last.y == 0.0
    ensures r.outcome.Pass? && UnitDraws(attempts) ==> InBounds(r.state.last, spawnPoint.value)
  {
    var (activated, afterActivate) := StrictTryActivate(st, prefab, spawnPoint, attempts);
    if activated.Err? then Step(Fail(activated.error), afterActivate)
    else if activated.value then Step(Pass, afterActivate)
    else SampledCreate(afterActivate, prefab, spawnPoint, attempts)
  }

  /** `Spawn(prefab, spawnPoint)` of Spawners/Spawner: a null spawn point throws first;
      then one position is sampled (y = the point's own y) and recorded, and only then
      is the prefab checked, so a null prefab throws after `_oldSpawnPosition` moved. */
  function SampledSpawn(st: State, prefab: Option<Prefab>, spawnPoint: Option<SpawnPoint>, attempts: seq<Draw>): (r: Step)
    ensures spawnPoint.None? ==> r == Step(Fail(NullReference), st)
    ensures r.state.pool == st.pool || r.outcome.Pass?
    ensures r.outcome.Pass? <==> prefab.Some? && SampleFrom(spawnPoint, PointHeight, st.last, attempts).Ok?
    ensures SampleFrom(spawnPoint, PointHeight, st.last, attempts).Ok? ==>
      r.state.last == SampleFrom(spawnPoint, PointHeight, st.last, attempts).value
      && r.state.last != st.last && r.state.last.y == spawnPoint.value.position.y
    ensures SampleFrom(spawnPoint, PointHeight, st.last, attempts).Err? ==> r.state == st
    ensures prefab.None? && SampleFrom(spawnPoint, PointHeight, st.last, attempts).Ok? ==>
      r.outcome == Fail(NullReference) && r.state.last != st.last
    ensures r.outcome.Pass? ==> r.state.pool == SpawnAt(st.pool, prefab, r.state.last).value
    ensures |r.state.pool| <= |st.pool| + 1
  {
    if spawnPoint.None? then Step(Fail(NullReference), st)
    else match SampleFrom(spawnPoint, PointHeight, st.last, attempts)
      case Err(e) => Step(Fail(e), st)
      case Ok(pos) =>
        match SpawnAt(st.pool, prefab, pos)
        case Err(e) => Step(Fail(e), State(st.pool, pos))
        case Ok(pool) => Step(Pass, State(pool, pos))
  }

  /** `Spawn(prefabs, spawnPoint)` of RandomSpawner: null checks, a uniform pick, then
      reuse-or-create at the spawn point's own position; the sampler is not used. */
  function RandomSpawn(st: State, prefabs: Option<seq<Option<Prefab>>>, spawnPoint: Option<SpawnPoint>, pick: int): (r: Step)
    ensures prefabs.None? || spawnPoint.None? ==> r == Step(Fail(NullReference), st)
    ensures r.state.last == st.last
    ensures r.outcome.Fail? ==> r.state == st
    ensures r.outcome.Pass? <==> prefabs.Some? && spawnPoint.Some? && 0 <= pick < |prefabs.value| && prefabs.value[pick].Some?
    ensures r.outcome.Pass? ==> r.state.pool == SpawnAt(st.pool, prefabs.value[pick], spawnPoint.value.position).value
    ensures |r.state.pool| <= |st.pool| + 1
  {
    if prefabs.None? || spawnPoint.None? then Step(Fail(NullReference), st)
    else match PickPrefab(prefabs, pick)
      case Err(e) => Step(Fail(e), st)
      case Ok(prefab) =>
        match SpawnAt(st.pool, prefab, spawnPoint.value.position)
        case Err(e) => Step(Fail(e), st)
        case Ok(pool) => Step(Pass, State(pool, st.last))
  }

  /** `Spawn(prefabs, spawnPoint)` of RaritySpawner: null checks before any selection,
      a weighted pick, then the strict reuse-or-create rule. An empty list picks null,
      so the spawn throws without touching the pool. */
  function RaritySpawn(st: State, prefabs: Option<seq<Drop>>, spawnPoint: Option<SpawnPoint>, roll: Roll): (r: Step)
    ensures prefabs.None? || spawnPoint.None? ==> r == Step(Fail(NullReference), st)
    ensures prefabs == Some([]) ==> r == Step(Fail(NullReference), st)
    ensures prefabs.Some? && spawnPoint.Some? ==>
      r == StrictSpawn(st, ChancePrefab(prefabs, roll.chance).value, spawnPoint, roll.attempts)
  {
    if prefabs.None? || spawnPoint.None? then Step(Fail(NullReference), st)
    else match ChancePrefab(prefabs, roll.chance)
      case Err(e) => Step(Fail(e), st)
      case Ok(prefab) => StrictSpawn(st, prefab, spawnPoint, roll.attempts)
  }

  /** One iteration of `SpawnAllObjects` of Scripts/Spawner: a uniform pick from
      `_prefabsToSpawn`, then always a new clone; it never reuses an entry. */
  function RandomCreate(st: State, prefabs: seq<Option<Prefab>>, spawnPoint: Option<SpawnPoint>, roll: Roll): (r: Step)
    ensures r.outcome.Fail? ==> r.state == st
    ensures r.outcome.Pass? ==>
      0 <= roll.pick < |prefabs| && prefabs[roll.pick].Some?
      && r.state.pool == st.pool + [Some(Instantiate(prefabs[roll.pick].value, r.state.last))]
      && r.state.last != st.last
    ensures !(0 <= roll.pick < |prefabs|) ==> r == Step(Fail(ArgumentOutOfRange), st)
  {
    match PickPrefab(Some(prefabs), roll.pick)
    case Err(e) => Step(Fail(e), st)
    case Ok(prefab) => SampledCreate(st, prefab, spawnPoint, roll.attempts)
  }

  /** What a coordinator does at each spawn point it visits. */
  datatype Plan =
    | PickRandom(choices: Option<seq<Option<Prefab>>>)
    | PickByRarity(drops: Option<seq<Drop>>)
    | SampleThenSpawn(prefab: Option<Prefab>)
    | ReuseStrict(prefab: Option<Prefab>)
    | CreateRandom(prefabsToSpawn: seq<Option<Prefab>>)

  /** One single spawn at one spawn point. */
  function Single(plan: Plan, st: State, spawnPoint: Option<SpawnPoint>, roll: Roll): (r: Step)
    ensures |r.state.pool| <= |st.pool| + 1
  {
    match plan
    case PickRandom(choices) => RandomSpawn(st, choices, spawnPoint, roll.pick)
    case PickByRarity(drops) => RaritySpawn(st, drops, spawnPoint, roll)
    case SampleThenSpawn(prefab) => SampledSpawn(st, prefab, spawnPoint, roll.attempts)
    case ReuseStrict(prefab) => StrictSpawn(st, prefab, spawnPoint, roll.attempts)
    case CreateRandom(prefabs) => RandomCreate(st, prefabs, spawnPoint, roll)
  }

  /** A coordinator's loop: one single spawn per visited spawn point, in order, each
      consuming one roll, stopping at the first exception (earlier spawns stay). The
      pool grows by at most one entry per visit. */
  function Run(plan: Plan, st: State, visits: seq<Option<SpawnPoint>>, rolls: seq<Roll>): (r: Step)
    ensures |r.state.pool| <= |st.pool| + |visits|
    ensures r.outcome.Pass? ==> |visits| <= |rolls|
    decreases |visits|
  {
    if visits == [] then Step(Pass, st)
    else if rolls == [] then Step(Fail(DrawsExhausted), st)
    else
      var s := Single(plan, st, visits[0], rolls[0]);
      if s.outcome.Fail? then s else Run(plan, s.state, visits[1..], rolls[1..])
  }

  /** A point visited n times in a row (the `for (i = 0; i < count; i++)` loop);
      no visit at all when n <= 0. */
  function Repeat(point: Option<SpawnPoint>, n: int): (r: seq<Option<SpawnPoint>>)
    ensures |r| == if n <= 0 then 0 else n
    ensures forall k :: 0 <= k < |r| ==> r[k] == point
    decreases n
  {
    if n <= 0 then [] else [point] + Repeat(point, n - 1)
  }

  /** One turn of a coordinator loop: the first visit consumes the first roll and,
      unless it threw, the remaining visits continue from the state it left. */
  lemma RunStep(plan: Plan, st: State, visits: seq<Option<SpawnPoint>>, rolls: seq<Roll>)
    requires visits != [] && rolls != []
    ensures var s := Single(plan, st, visits[0], rolls[0]);
      Run(plan, st, visits, rolls) == if s.outcome.Fail? then s else Run(plan, s.state, visits[1..], rolls[1..])
  {
  }

  /** Every point in list order, each visited `count` times before the next one
      (`foreach (spawnPoint) for (i < count)`). */
  function Visits(points: seq<Option<SpawnPoint>>, count: int): (r: seq<Option<SpawnPoint>>)
    ensures |r| == |points| * (if count <= 0 then 0 else count)
    decreases |points|
  {
    if points == [] then [] else Repeat(points[0], count) + Visits(points[1..], count)
  }

  /** Visit number `i * count + j` (0 <= j < count) of the nested loops is at point number i. */
  lemma {:induction false} VisitsInOrder(points: seq<Option<SpawnPoint>>, count: int, i: nat, j: nat)
    requires i < |points| && j < count
    ensures i * count + j < |Visits(points, count)| && Visits(points, count)[i * count + j] == points[i]
    decreases i
  {
    assert |Repeat(points[0], count)| == count;
    if i > 0 {
      VisitsInOrder(points[1..], count, i - 1, j);
      assert i * count + j == count + ((i - 1) * count + j);
    }
  }
  /** Running over `a + b` runs over `a` and then, unless that threw, over `b` with the
      rolls `a` left over: the nested coordinator loops split into one loop per point. */
  lemma {:induction false} RunAppend(plan: Plan, st: State, a: seq<Option<SpawnPoint>>, b: seq<Option<SpawnPoint>>, rolls: seq<Roll>)
    ensures var s := Run(plan, st, a, rolls);
      Run(plan, st, a + b, rolls) == if s.outcome.Fail? then s else Run(plan, s.state, b, rolls[|a|..])
    decreases |a|
  {
    if a == [] {
      assert a + b == b;
    } else if rolls != [] {
      assert (a + b)[0] == a[0] && (a + b)[1..] == a[1..] + b;
      var s := Single(plan, st, a[0], rolls[0]);
      if s.outcome.Pass? {
        RunAppend(plan, s.state, a[1..], b, rolls[1..]);
        if Run(plan, s.state, a[1..], rolls[1..]).outcome.Pass? {
          assert rolls[1..][|a| - 1..] == rolls[|a|..];
        }
      }
    }
  }

  /** Entries all present, each at a position different from the one before it (the
      first from `last`): no two consecutive spawns share a position. */
  predicate Spread(entries: seq<Option<Entry>>, last: Vec3)
    decreases |entries|
  {
    entries == [] || (entries[0].Some? && entries[0].value.pos != last && Spread(entries[1..], entries[0].value.pos))
  }

  /** The entry appended for a roll of `SpawnAllObjects`: a clone of the prefab the roll picked. */
  predicate ClonedPick(prefabs: seq<Option<Prefab>>, roll: Roll, e: Option<Entry>)
  {
    0 <= roll.pick < |prefabs| && prefabs[roll.pick].Some?
    && e.Some? && e == Some(Instantiate(prefabs[roll.pick].value, e.value.pos))
  }

  /** `SpawnAllObjects` never reuses: the pool keeps its old entries, and when the loop
      completes it has gained exactly one clone of the picked prefab per visit, at
      pairwise-consecutive distinct positions. */
  lemma {:induction false} RunCreateAppends(prefabs: seq<Option<Prefab>>, st: State, visits: seq<Option<SpawnPoint>>, rolls: seq<Roll>)
    ensures var r := Run(CreateRandom(prefabs), st, visits, rolls);
      |st.pool| <= |r.state.pool| && r.state.pool[..|st.pool|] == st.pool
    ensures var r := Run(CreateRandom(prefabs), st, visits, rolls);
      r.outcome.Pass? ==>
        |r.state.pool| == |st.pool| + |visits|
        && (forall k :: 0 <= k < |visits| ==> ClonedPick(prefabs, rolls[k], r.state.pool[|st.pool|..][k]))
        && Spread(r.state.pool[|st.pool|..], st.last)
    decreases |visits|
  {
    var r := Run(CreateRandom(prefabs), st, visits, rolls);
    if visits != [] && rolls != [] {
      var s := Single(CreateRandom(prefabs), st, visits[0], rolls[0]);
      if s.outcome.Pass? {
        RunCreateAppends(prefabs, s.state, visits[1..], rolls[1..]);
        var n := |st.pool|;
        assert s.state.pool == st.pool + [s.state.pool[n]];
        assert r.state.pool[..n + 1] == s.state.pool;
        assert r.state.pool[..n] == s.state.pool[..n];
        if r.outcome.Pass? {
          var added := r.state.pool[n..];
          assert added[1..] == r.state.pool[n + 1..];
          assert added[0] == s.state.pool[n];
          forall k | 0 <= k < |visits|
            ensures ClonedPick(prefabs, rolls[k], added[k])
          {
            if k > 0 {
              assert added[k] == r.state.pool[n + 1..][k - 1];
            }
          }
        }
      }
    }
  }

  /** The placement scenario of Spawners/Spawner: spawning an active prefab that has no
      reusable entry yet, with randomized placement, at a sequence of spawn points. When
      the loop completes the pool has gained exactly one active entry of that name per
      visit, each in its point's box at the point's height, no two consecutive at the same
      position, and nothing was reused. */
  lemma {:induction false} RunSampledFills(p: Prefab, st: State, visits: seq<Option<SpawnPoint>>, rolls: seq<Roll>)
    requires p.active
    requires forall j :: 0 <= j < |st.pool| ==> !Reusable(st.pool[j], p.name)
    ensures var r := Run(SampleThenSpawn(Some(p)), st, visits, rolls);
      |st.pool| <= |r.state.pool| && r.state.pool[..|st.pool|] == st.pool
    ensures var r := Run(SampleThenSpawn(Some(p)), st, visits, rolls);
      r.outcome.Pass? ==>
        |r.state.pool| == |st.pool| + |visits|
        && (forall k :: 0 <= k < |visits| ==>
              visits[k].Some? && r.state.pool[|st.pool|..][k].Some? && r.state.pool[|st.pool|..][k] == Some(Instantiate(p, r.state.pool[|st.pool|..][k].value.pos))
              && r.state.pool[|st.pool|..][k].value.pos.y == visits[k].value.position.y
              && (UnitDraws(rolls[k].attempts) ==> InBounds(r.state.pool[|st.pool|..][k].value.pos, visits[k].value)))
        && Spread(r.state.pool[|st.pool|..], st.last)
    decreases |visits|
  {
    var r := Run(SampleThenSpawn(Some(p)), st, visits, rolls);
    if visits != [] && rolls != [] {
      var s := Single(SampleThenSpawn(Some(p)), st, visits[0], rolls[0]);
      var n := |st.pool|;
      if s.outcome.Pass? {
        assert s.state.pool == st.pool + [Some(Instantiate(p, s.state.last))];
        forall j | 0 <= j < |s.state.pool|
          ensures !Reusable(s.state.pool[j], p.name)
        {
          if j < n {
            assert s.state.pool[j] == st.pool[j];
          }
        }
        RunSampledFills(p, s.state, visits[1..], rolls[1..]);
        assert r.state.pool[..n + 1] == s.state.pool;
        assert r.state.pool[..n] == s.state.pool[..n];
        if r.outcome.Pass? {
          var added := r.state.pool[n..];
          assert added[1..] == r.state.pool[n + 1..];
          assert added[0] == s.state.pool[n];
          forall k | 0 <= k < |visits|
            ensures visits[k].Some? && added[k].Some? && added[k] == Some(Instantiate(p, added[k].value.pos))
              && added[k].value.pos.y == visits[k].value.position.y
              && (UnitDraws(rolls[k].attempts) ==> InBounds(added[k].value.pos, visits[k].value))
          {
            if k > 0 {
              assert added[k] == r.state.pool[n + 1..][k - 1];
            }
          }
        }
      }
    }
  }
  /** `Spawn(prefab, position)` repeated n times, stopping at the first exception. */
  function SpawnTimes(pool: Pool, prefab: Option<Prefab>, pos: Vec3, n: nat): (r: Result<Pool>)
    ensures r.Err? <==> prefab.None? && n > 0
    ensures r.Err? ==> r.error == NullReference
    ensures r.Ok? ==> |pool| <= |r.value| <= |pool| + n
    decreases n
  {
    if n == 0 then Ok(pool)
    else match SpawnAt(pool, prefab, pos)
      case Err(e) => Err(e)
      case Ok(next) => SpawnTimes(next, prefab, pos, n - 1)
  }

  /** n spawns of an active prefab at one position first reactivate the c reusable
      entries of its name and create only the remaining n - c entries. */
  lemma {:induction false} SpawnTimesGrowth(pool: Pool, prefab: Prefab, pos: Vec3, n: nat)
    requires prefab.active
    ensures var c := |ReusableIndices(pool, prefab.name)|;
      |SpawnTimes(pool, Some(prefab), pos, n).value| == |pool| + (if n <= c then 0 else n - c)
    decreases n
  {
    if n > 0 {
      SpawnAtConsumes(pool, prefab, pos);
      var next := SpawnAt(pool, Some(prefab), pos).value;
      var rest := SpawnTimes(next, Some(prefab), pos, n - 1).value;
      assert SpawnTimes(pool, Some(prefab), pos, n).value == rest;
      SpawnTimesGrowth(next, prefab, pos, n - 1);
      var c := |ReusableIndices(pool, prefab.name)|;
      var c' := |ReusableIndices(next, prefab.name)|;
      assert |rest| == |next| + (if n - 1 <= c' then 0 else n - 1 - c');
      if c == 0 {
        assert |next| == |pool| + 1 && c' == 0;
      } else {
        assert |next| == |pool| && c' == c - 1;
      }
    }
  }
}
