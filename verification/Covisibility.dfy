/** Covisibility counts of keyframe pairs: what the table means, and how one observation changes it. */
module Covisibility {
  import opened MapEntities

  type ObsMap = map<MapPoint, map<nat, nat>>
  type CovTable = map<(nat, nat), nat>

  ghost function With(obs: ObsMap, p: MapPoint, k: nat, i: nat): ObsMap
    requires p in obs
  {
    var m: map<nat, nat> := obs[p][k := i];
    obs[p := m]
  }

  ghost function Without(obs: ObsMap, p: MapPoint, k: nat): ObsMap
    requires p in obs
  {
    obs[p := obs[p] - {k}]
  }

  /** The points that keyframes a and b both observe. */
  ghost function Shared(obs: ObsMap, a: nat, b: nat): set<MapPoint> {
    set p | p in obs && a in obs[p] && b in obs[p]
  }

  function Count(cov: CovTable, a: nat, b: nat): nat {
    if (a, b) in cov then cov[(a, b)] else 0
  }

  function MinMax(a: nat, b: nat): (nat, nat) {
    if a <= b then (a, b) else (b, a)
  }

  ghost predicate Ordered(cov: CovTable) {
    forall key :: key in cov ==> key.0 < key.1 && cov[key] > 0
  }

  /** The table is the from-scratch recomputation: exact counts and no zero entry. */
  ghost predicate IsCov(obs: ObsMap, cov: CovTable) {
    Ordered(cov) && forall a: nat, b: nat :: a < b ==> Count(cov, a, b) == |Shared(obs, a, b)|
  }

  lemma {:induction false} CovIsUnique(obs: ObsMap, c1: CovTable, c2: CovTable)
    requires IsCov(obs, c1) && IsCov(obs, c2)
    ensures c1 == c2
  {
    forall key: (nat, nat)
      ensures key in c1 <==> key in c2
      ensures key in c1 ==> c1[key] == c2[key]
    {
      if key in c1 || key in c2 {
        assert Count(c1, key.0, key.1) == |Shared(obs, key.0, key.1)| == Count(c2, key.0, key.1);
        assert key == (key.0, key.1);
      }
    }
  }

  /** a, b is the pair of k with a member of s. */
  predicate Touches(k: nat, s: set<nat>, a: nat, b: nat) {
    (a == k && b in s) || (b == k && a in s)
  }

  /** after is before with one more unit on every pair of k with a member of s. */
  ghost predicate Bumped(before: CovTable, after: CovTable, k: nat, s: set<nat>) {
    forall a: nat, b: nat :: a < b ==>
      Count(after, a, b) == Count(before, a, b) + if Touches(k, s, a, b) then 1 else 0
  }

  function Incremented(cov: CovTable, key: (nat, nat)): CovTable {
    cov[key := Count(cov, key.0, key.1) + 1]
  }

  function Decremented(cov: CovTable, key: (nat, nat)): CovTable
    requires key in cov
  {
    if cov[key] <= 1 then cov - {key} else cov[key := cov[key] - 1]
  }

  lemma BumpOneMore(before: CovTable, c: CovTable, k: nat, s: set<nat>, x: nat)
    requires Ordered(c) && Bumped(before, c, k, s) && x !in s && x != k
    ensures Ordered(Incremented(c, MinMax(x, k)))
    ensures Bumped(before, Incremented(c, MinMax(x, k)), k, s + {x})
  {
    var key := MinMax(x, k);
    assert key == (key.0, key.1);
  }

  lemma UnbumpOneMore(before: CovTable, c: CovTable, k: nat, s: set<nat>, x: nat)
    requires Ordered(c) && Bumped(c, before, k, s) && x !in s && x != k && MinMax(x, k) in c
    ensures Ordered(Decremented(c, MinMax(x, k)))
    ensures Bumped(Decremented(c, MinMax(x, k)), before, k, s + {x})
  {
    var key := MinMax(x, k);
    assert key == (key.0, key.1);
  }

  /** Observing p in one more keyframe k adds p to exactly the pairs of k with p's other keyframes. */
  lemma SharedAfterAdd(obs: ObsMap, p: MapPoint, k: nat, i: nat, a: nat, b: nat)
    requires p in obs && k !in obs[p] && a < b
    ensures |Shared(With(obs, p, k, i), a, b)|
         == |Shared(obs, a, b)| + if Touches(k, obs[p].Keys, a, b) then 1 else 0
  {
    hide Shared, With;
    SharedWith(obs, p, k, i, a, b);
    if Touches(k, obs[p].Keys, a, b) {
      OneMore(Shared(obs, a, b), p);
    }
  }

  lemma OneMore(s: set<MapPoint>, p: MapPoint)
    requires p !in s
    ensures |s + {p}| == |s| + 1
  {
  }

  lemma SharedWith(obs: ObsMap, p: MapPoint, k: nat, i: nat, a: nat, b: nat)
    requires p in obs && k !in obs[p] && a < b
    ensures Touches(k, obs[p].Keys, a, b) ==> p !in Shared(obs, a, b)
    ensures Shared(With(obs, p, k, i), a, b) == Shared(obs, a, b) + if Touches(k, obs[p].Keys, a, b) then {p} else {}
  {
    var next := With(obs, p, k, i);
    forall q
      ensures q in Shared(next, a, b) <==> q in Shared(obs, a, b) || (q == p && Touches(k, obs[p].Keys, a, b))
    {
    }
  }

  lemma CovAfterAdd(obs: ObsMap, p: MapPoint, k: nat, i: nat, before: CovTable, after: CovTable)
    requires p in obs && k !in obs[p]
    requires IsCov(obs, before) && Ordered(after) && Bumped(before, after, k, obs[p].Keys)
    ensures IsCov(With(obs, p, k, i), after)
  {
    forall a: nat, b: nat | a < b
      ensures Count(after, a, b) == |Shared(With(obs, p, k, i), a, b)|
    {
      SharedAfterAdd(obs, p, k, i, a, b);
    }
  }

  lemma CovAfterRemove(obs: ObsMap, p: MapPoint, k: nat, before: CovTable, after: CovTable)
    requires p in obs && k in obs[p]
    requires IsCov(obs, before) && Ordered(after) && Bumped(after, before, k, obs[p].Keys - {k})
    ensures IsCov(Without(obs, p, k), after)
  {
    var next := Without(obs, p, k);
    assert With(next, p, k, obs[p][k]) == obs by {
      assert (obs[p] - {k})[k := obs[p][k]] == obs[p];
    }
    assert (obs[p] - {k}).Keys == obs[p].Keys - {k};
    forall a: nat, b: nat | a < b
      ensures Count(after, a, b) == |Shared(next, a, b)|
    {
      SharedAfterAdd(next, p, k, obs[p][k], a, b);
    }
  }

  /** Every pair an observed point contributes to has a positive count. */
  lemma SharedIsPositive(obs: ObsMap, p: MapPoint, k: nat, cov: CovTable)
    requires p in obs && k in obs[p] && IsCov(obs, cov)
    ensures forall x :: x in obs[p] && x != k ==> MinMax(x, k) in cov
  {
    forall x | x in obs[p] && x != k
      ensures MinMax(x, k) in cov
    {
      var key := MinMax(x, k);
      assert p in Shared(obs, key.0, key.1);
      assert Count(cov, key.0, key.1) > 0;
    }
  }

  /** Points without observations do not count. */
  lemma CovIgnoresBarePoints(obs: ObsMap, gone: set<MapPoint>, cov: CovTable)
    requires IsCov(obs, cov)
    requires forall p :: p in gone && p in obs ==> obs[p] == map[]
    ensures IsCov(obs - gone, cov)
  {
    forall a: nat, b: nat | a < b
      ensures Shared(obs - gone, a, b) == Shared(obs, a, b)
    {
    }
  }

  lemma CovWithBarePoint(obs: ObsMap, p: MapPoint, cov: CovTable)
    requires IsCov(obs, cov) && p !in obs
    ensures IsCov(obs[p := map[]], cov)
  {
    forall a: nat, b: nat | a < b
      ensures Shared(obs[p := map[]], a, b) == Shared(obs, a, b)
    {
    }
  }
}
