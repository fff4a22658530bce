/** The two ways a spawner chooses a prefab: `GetChancePrefab` (weighted by `dropRarity`)
    and `GetRandomPrefab` (uniform over the list). */
module Selection {
  import opened SpawnTypes
  import opened Sampling

  /** The sum of the rarities, accumulated front to back as the first loop does. */
  function Total(drops: seq<Drop>): int
  {
    if drops == [] then 0 else Total(drops[..|drops| - 1]) + drops[|drops| - 1].dropRarity
  }

  /** The rarity of the drops before index k. */
  function Prefix(drops: seq<Drop>, k: nat): int
    requires k <= |drops|
  {
    Total(drops[..k])
  }

  /** The cumulative rarity up to and including index k. */
  function Cum(drops: seq<Drop>, k: nat): int
    requires k < |drops|
  {
    Prefix(drops, k + 1)
  }

  lemma PrefixStep(drops: seq<Drop>, k: nat)
    requires k < |drops|
    ensures Cum(drops, k) == Prefix(drops, k) + drops[k].dropRarity
  {
    assert drops[..k + 1][..k] == drops[..k];
  }

  predicate NonNegative(drops: seq<Drop>)
  {
    forall i :: 0 <= i < |drops| ==> drops[i].dropRarity >= 0
  }

  /** The second loop of `GetChancePrefab`, entered at index i with the draw reduced
      to v: it stops at the first index from i on whose cumulative rarity reaches the
      original draw `v + Prefix(i)`, and falls through when none does. */
  function ChanceFrom(drops: seq<Drop>, v: real, i: nat): (r: Option<nat>)
    requires i <= |drops|
    ensures r.Some? ==> i <= r.value < |drops| && v + Prefix(drops, i) as real <= Cum(drops, r.value) as real
    ensures r.Some? ==> forall j :: i <= j < r.value ==> v + Prefix(drops, i) as real > Cum(drops, j) as real
    ensures r.None? <==> forall j :: i <= j < |drops| ==> v + Prefix(drops, i) as real > Cum(drops, j) as real
    decreases |drops| - i
  {
    if i == |drops| then None
    else
      PrefixStep(drops, i);
      if v <= drops[i].dropRarity as real then Some(i)
      else ChanceFrom(drops, v - drops[i].dropRarity as real, i + 1)
  }

  /** The draw `Random.Range(0, total)` of `GetChancePrefab` for the random source's value t. */
  function ChanceDraw(drops: seq<Drop>, t: real): real
  {
    Range(0.0, Total(drops) as real, t)
  }

  /** The index `GetChancePrefab` picks for the random source's value t: the draw is
      `Random.Range(0, total)`, and the pick is the first index whose cumulative
      rarity reaches it. */
  function ChanceIndex(drops: seq<Drop>, t: real): (r: Option<nat>)
  {
    ChanceFrom(drops, ChanceDraw(drops, t), 0)
  }

  /** `GetChancePrefab(prefabs)`: a null list throws NullReferenceException, an empty
      list yields null, otherwise the `objectPrefab` of the picked drop, or null when
      the scan falls through. */
  function ChancePrefab(prefabs: Option<seq<Drop>>, t: real): (r: Result<Option<Prefab>>)
    ensures prefabs.None? <==> r.Err?
    ensures r.Err? ==> r.error == NullReference
    ensures prefabs == Some([]) ==> r == Ok(None)
    ensures r.Ok? && r.value.Some? ==> exists i :: 0 <= i < |prefabs.value| && prefabs.value[i].objectPrefab == r.value
  {
    if prefabs.None? then Err(NullReference)
    else if |prefabs.value| == 0 then Ok(None)
    else match ChanceIndex(prefabs.value, t)
      case Some(i) => Ok(prefabs.value[i].objectPrefab)
      case None => Ok(None)
  }

  lemma {:induction false} TotalNonNegative(drops: seq<Drop>)
    requires NonNegative(drops)
    ensures Total(drops) >= 0
    decreases |drops|
  {
    if drops != [] {
      TotalNonNegative(drops[..|drops| - 1]);
    }
  }

  /** With non-negative rarities the cumulative rarity never decreases. */
  lemma {:induction false} CumMonotone(drops: seq<Drop>, a: nat, b: nat)
    requires NonNegative(drops) && a <= b < |drops|
    ensures Cum(drops, a) <= Cum(drops, b)
    decreases b - a
  {
    if a < b {
      CumMonotone(drops, a, b - 1);
      PrefixStep(drops, b);
    }
  }

  lemma CumLast(drops: seq<Drop>)
    requires |drops| > 0
    ensures Cum(drops, |drops| - 1) == Total(drops)
  {
    assert drops[..|drops|] == drops;
  }

  /** With non-negative rarities and a draw in [0, total], the scan never falls
      through: a non-empty list always picks an index. */
  lemma ChanceAlwaysPicks(drops: seq<Drop>, t: real)
    requires NonNegative(drops) && |drops| > 0 && IsUnit(t)
    ensures ChanceIndex(drops, t).Some?
  {
    TotalNonNegative(drops);
    CumLast(drops);
  }

  /** The picked drop's cumulative-rarity interval contains the draw. */
  lemma PickedInInterval(drops: seq<Drop>, t: real, i: nat)
    requires i < |drops| && ChanceIndex(drops, t) == Some(i)
    ensures ChanceDraw(drops, t) <= Cum(drops, i) as real
    ensures i > 0 ==> Cum(drops, i - 1) as real < ChanceDraw(drops, t)
  {
    assert drops[..0] == [];
  }

  /** A drop whose cumulative-rarity interval contains the draw is the one picked. */
  lemma IntervalPicked(drops: seq<Drop>, t: real, i: nat)
    requires NonNegative(drops) && IsUnit(t) && i < |drops|
    requires ChanceDraw(drops, t) <= Cum(drops, i) as real
    requires i > 0 ==> Cum(drops, i - 1) as real < ChanceDraw(drops, t)
    ensures ChanceIndex(drops, t) == Some(i)
  {
    ChanceAlwaysPicks(drops, t);
    var k := ChanceIndex(drops, t).value;
    PickedInInterval(drops, t, k);
    if k < i {
      CumMonotone(drops, k, i - 1);
    }
  }

  /** With non-negative rarities the pick is the drop whose cumulative-rarity interval
      `(Cum(i - 1), Cum(i)]` contains the draw (the first one's interval is `[0, Cum(0)]`). */
  lemma ChanceIntervals(drops: seq<Drop>, t: real, i: nat)
    requires NonNegative(drops) && IsUnit(t) && i < |drops|
    ensures var r := ChanceDraw(drops, t);
      ChanceIndex(drops, t) == Some(i) <==> r <= Cum(drops, i) as real && (i == 0 || Cum(drops, i - 1) as real < r)
  {
    var r := ChanceDraw(drops, t);
    if ChanceIndex(drops, t) == Some(i) {
      PickedInInterval(drops, t, i);
    }
    if r <= Cum(drops, i) as real && (i == 0 || Cum(drops, i - 1) as real < r) {
      IntervalPicked(drops, t, i);
    }
  }

  /** What `GetChancePrefab` returns: the `objectPrefab` of the drop whose cumulative
      interval `(Cum(i - 1), Cum(i)]` contains the draw. */
  lemma ChancePrefabInterval(drops: seq<Drop>, t: real, i: nat)
    requires NonNegative(drops) && IsUnit(t) && i < |drops|
    requires ChanceDraw(drops, t) <= Cum(drops, i) as real
    requires i > 0 ==> Cum(drops, i - 1) as real < ChanceDraw(drops, t)
    ensures ChancePrefab(Some(drops), t) == Ok(drops[i].objectPrefab)
  {
    IntervalPicked(drops, t, i);
  }

  /** A drop of rarity 0 is never picked, unless it is the first drop. */
  lemma ZeroRarityNeverPicked(drops: seq<Drop>, t: real, i: nat)
    requires NonNegative(drops) && IsUnit(t) && 0 < i < |drops| && drops[i].dropRarity == 0
    ensures ChanceIndex(drops, t) != Some(i)
  {
    ChanceIntervals(drops, t, i);
    PrefixStep(drops, i);
  }

  /** When every rarity is 0 the draw is 0 and the first drop is picked. */
  lemma AllZeroPicksFirst(drops: seq<Drop>, t: real)
    requires |drops| > 0 && forall i :: 0 <= i < |drops| ==> drops[i].dropRarity == 0
    ensures ChanceIndex(drops, t) == Some(0)
  {
    ZeroCum(drops, |drops| - 1);
    CumLast(drops);
  }

  lemma {:induction false} ZeroCum(drops: seq<Drop>, k: nat)
    requires k < |drops| && forall i :: 0 <= i < |drops| ==> drops[i].dropRarity == 0
    ensures Cum(drops, k) == 0
    decreases k
  {
    PrefixStep(drops, k);
    if k > 0 {
      ZeroCum(drops, k - 1);
    }
  }

  /** An int draw of `Random.Range(0, n)`: in [0, n), and 0 when n is 0. */
  predicate IndexDraw(n: int, k: int)
  {
    if n > 0 then 0 <= k < n else k == 0
  }

  /** `GetRandomPrefab(prefabs)`: `prefabs[Random.Range(0, prefabs.Count)]`. A null list
      throws NullReferenceException; an index outside the list, which is what an empty
      list draws, throws ArgumentOutOfRangeException; otherwise the element at the
      drawn index. */
  function PickPrefab(prefabs: Option<seq<Option<Prefab>>>, k: int): (r: Result<Option<Prefab>>)
    ensures prefabs.None? ==> r == Err(NullReference)
    ensures prefabs.Some? ==> (r.Ok? <==> 0 <= k < |prefabs.value|)
    ensures prefabs.Some? && r.Err? ==> r.error == ArgumentOutOfRange
    ensures r.Ok? ==> prefabs.Some? && r.value in prefabs.value
    ensures r.Ok? ==> r.value == prefabs.value[k]
  {
    if prefabs.None? then Err(NullReference)
    else if 0 <= k < |prefabs.value| then Ok(prefabs.value[k])
    else Err(ArgumentOutOfRange)
  }

  /** Every element of a list is picked by some valid draw, and an empty list throws
      for the only draw there is. */
  lemma EveryPrefabReachable(prefabs: seq<Option<Prefab>>, p: Option<Prefab>)
    ensures p in prefabs ==> exists k :: IndexDraw(|prefabs|, k) && PickPrefab(Some(prefabs), k) == Ok(p)
    ensures |prefabs| == 0 ==> forall k :: IndexDraw(0, k) ==> PickPrefab(Some(prefabs), k) == Err(ArgumentOutOfRange)
  {
    if p in prefabs {
      var k :| 0 <= k < |prefabs| && prefabs[k] == p;
      assert IndexDraw(|prefabs|, k) && PickPrefab(Some(prefabs), k) == Ok(p);
    }
  }
}
