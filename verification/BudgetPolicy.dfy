/** Map budgets: what is counted, what fits, and which historical keyframes a compaction keeps. */
module BudgetPolicy {
  import opened Ordering
  import opened Sampling

  datatype Config = Config(
    maxKeyframes: nat, maxPoints: nat, maxDescriptorBytes: nat, maxSnapshotBytes: nat, maxTotalBytes: nat,
    weakMinObservations: nat, staleWindow: nat, keepRecent: nat,
    dense: nat, maxHistorical: nat, stride: nat,
    overlap: real, maxSquaredTranslation: real, minHalfCosine: real,
    maxInactive: nat, bytesPerKeyframe: nat, bytesPerPoint: nat)

  /** Current consumption. */
  datatype Usage = Usage(keyframes: nat, points: nat, descriptors: nat, images: nat)

  function Total(u: Usage, snapshot: nat, c: Config): nat {
    Monotone(0, u.keyframes, c.bytesPerKeyframe);
    Monotone(0, u.points, c.bytesPerPoint);
    u.descriptors + u.images + snapshot + u.keyframes * c.bytesPerKeyframe + u.points * c.bytesPerPoint
  }

  predicate OverKeyframes(u: Usage, c: Config) {
    u.keyframes > c.maxKeyframes
  }

  predicate Fits(u: Usage, snapshot: nat, c: Config) {
    !(OverKeyframes(u, c) || u.points > c.maxPoints || u.descriptors > c.maxDescriptorBytes
      || snapshot > c.maxSnapshotBytes || Total(u, snapshot, c) > c.maxTotalBytes)
  }

  /** Every quantity is within its limit, and the estimated bytes of all of them together too. */
  lemma FitsMeans(u: Usage, snapshot: nat, c: Config)
    ensures Fits(u, snapshot, c) <==>
      && u.keyframes <= c.maxKeyframes && u.points <= c.maxPoints && u.descriptors <= c.maxDescriptorBytes
      && snapshot <= c.maxSnapshotBytes
      && u.keyframes * c.bytesPerKeyframe + u.points * c.bytesPerPoint + u.descriptors + u.images + snapshot
           <= c.maxTotalBytes
  {
  }

  ghost predicate NoMore(after: Usage, before: Usage) {
    && after.keyframes <= before.keyframes && after.points <= before.points
    && after.descriptors <= before.descriptors && after.images <= before.images
  }

  /** Using less of everything never leaves the budget. */
  lemma {:induction false} FitsIsMonotone(after: Usage, before: Usage, snapshot: nat, c: Config)
    requires NoMore(after, before) && Fits(before, snapshot, c)
    ensures Fits(after, snapshot, c)
  {
    Monotone(after.keyframes, before.keyframes, c.bytesPerKeyframe);
    Monotone(after.points, before.points, c.bytesPerPoint);
  }

  // ---- byte sums ----------------------------------------------------------

  ghost function Sum(m: map<nat, nat>): nat
    decreases |m|
  {
    if m == map[] then 0 else
      assert m.Keys != {};
      var k := Least(m.Keys);
      Smaller(m, k);
      m[k] + Sum(m - {k})
  }

  lemma Smaller(m: map<nat, nat>, k: nat)
    requires k in m
    ensures |m - {k}| == |m| - 1
  {
    assert (m - {k}).Keys == m.Keys - {k};
  }

  lemma {:induction false} SumTakes(m: map<nat, nat>, k: nat)
    requires k in m
    ensures Sum(m) == m[k] + Sum(m - {k})
    decreases |m|
  {
    var x := Least(m.Keys);
    if x != k {
      Smaller(m, x);
      Smaller(m, k);
      SumTakes(m - {x}, k);
      SumTakes(m - {k}, x);
      assert m - {x} - {k} == m - {k} - {x};
    }
  }

  lemma {:induction false} SumMonotone(a: map<nat, nat>, b: map<nat, nat>)
    requires a.Keys <= b.Keys && forall k :: k in a ==> a[k] <= b[k]
    ensures Sum(a) <= Sum(b)
    decreases |b|
  {
    if b != map[] {
      assert b.Keys != {};
      var x := Least(b.Keys);
      Smaller(b, x);
      SumTakes(b, x);
      if x in a {
        SumTakes(a, x);
        SumMonotone(a - {x}, b - {x});
      } else {
        SumMonotone(a, b - {x});
      }
    } else {
      assert a == map[];
    }
  }

  ghost function Only(m: map<nat, nat>, s: set<nat>): map<nat, nat> {
    map k | k in m && k in s :: m[k]
  }

  lemma SumEnds(m: map<nat, nat>)
    ensures Sum(Only(m, m.Keys)) == Sum(m) && Sum(Only(m, {})) == 0
  {
    assert Only(m, m.Keys) == m;
  }

  lemma SumStep(m: map<nat, nat>, s: set<nat>, k: nat)
    requires k in m && k in s
    ensures Sum(Only(m, s)) == m[k] + Sum(Only(m, s - {k}))
  {
    SumTakes(Only(m, s), k);
    assert Only(m, s) - {k} == Only(m, s - {k});
  }

  // ---- the keyframes a compaction keeps ------------------------------------

  function Min(a: nat, b: nat): nat {
    if a < b then a else b
  }

  function Max(a: nat, b: nat): nat {
    if a < b then b else a
  }

  function DenseCount(n: nat, c: Config): nat {
    Min(n, Min(c.dense, c.maxKeyframes))
  }

  function AnchorBudget(n: nat, c: Config): nat {
    Min(c.maxHistorical, if c.maxKeyframes > DenseCount(n, c) then c.maxKeyframes - DenseCount(n, c) else 0)
  }

  /** The protected ones among the older keyframes. */
  function ProtectedHistory(ids: seq<nat>, protectedIds: set<nat>, c: Config): set<nat> {
    set i | 0 <= i < |ids| - DenseCount(|ids|, c) && ids[i] in protectedIds :: ids[i]
  }

  /** What the selection promises about ids in ascending order. */
  ghost predicate GoodHistory(ids: seq<nat>, protectedIds: set<nat>, c: Config, keep: set<nat>) {
    var n := |ids|;
    var history := n - DenseCount(n, c);
    && (forall x :: x in keep ==> x in ids)
    && (forall i :: history <= i < n ==> ids[i] in keep)
    && (forall x :: x in protectedIds && x in ids ==> x in keep)
    && (history > 0 && AnchorBudget(n, c) > 0 ==> ids[0] in keep)
    && (history > 0 && AnchorBudget(n, c) > 1 ==> ids[history - 1] in keep)
    && |keep| <= DenseCount(n, c) + Max(AnchorBudget(n, c), |ProtectedHistory(ids, protectedIds, c)| + 2)
    && (keep == {} <==> ids == [] || (DenseCount(n, c) == 0 && AnchorBudget(n, c) == 0
                                     && ProtectedHistory(ids, protectedIds, c) == {}))
  }

  /** The last ids from position history on. */
  ghost function Tail(ids: seq<nat>, history: nat): set<nat>
    requires history <= |ids|
  {
    set x | x in ids[history..]
  }

  method KeepDense(ids: seq<nat>, history: nat) returns (keep: set<nat>)
    requires history <= |ids|
    ensures keep == Tail(ids, history)
  {
    keep := {};
    for i := history to |ids|
      invariant keep == set x | x in ids[history..i]
    {
      keep := keep + {ids[i]};
      assert ids[history..i + 1] == ids[history..i] + [ids[i]];
    }
    assert ids[history..|ids|] == ids[history..];
  }

  method KeepProtected(ids: seq<nat>, history: nat, protectedIds: set<nat>) returns (kept: set<nat>)
    requires history <= |ids|
    ensures kept == set i | 0 <= i < history && ids[i] in protectedIds :: ids[i]
  {
    kept := {};
    for i := 0 to history
      invariant kept == set j | 0 <= j < i && ids[j] in protectedIds :: ids[j]
    {
      if ids[i] in protectedIds {
        kept := kept + {ids[i]};
      }
    }
  }

  /** A keyframe on the regular grid over the older ones. */
  ghost predicate GridId(ids: seq<nat>, history: nat, stride: nat, x: nat) {
    exists i: nat :: OnGrid(history, stride, i) && i < |ids| && ids[i] == x
  }

  /** Regularly spaced older keyframes that are not kept yet. */
  method StrideHistory(ids: seq<nat>, history: nat, stride: nat, keep: set<nat>) returns (optional: seq<nat>)
    requires history <= |ids| && Increasing(ids) && stride >= 1
    ensures Increasing(optional)
    ensures forall x :: x in optional ==> x !in keep && x in Front(ids, history)
    ensures forall x :: x in optional <==> GridId(ids, history, stride, x) && x !in keep
  {
    hide Increasing, Step;
    optional := [];
    EmptyIncreasing();
    FrontMembers(ids, history);
    var i := stride;
    ghost var k := 1;
    StepNext(0, stride);
    while i + 1 < history
      invariant i == Step(k, stride) && k >= 1 && i >= 1 && Increasing(optional)
      invariant i < history ==> forall x :: x in optional ==> x < ids[i]
      invariant forall x :: x in optional ==> x !in keep && x in Front(ids, history) && GridId(ids, history, stride, x)
      invariant forall m :: 1 <= m < k ==> GridKept(ids, Step(m, stride), optional, keep)
      decreases history - i
    {
      StepNext(k, stride);
      assert OnGrid(history, stride, i);
      if ids[i] !in keep {
        IncreasingAppend(optional, ids[i]);
        optional := optional + [ids[i]];
      }
      if i + stride < history {
        LaterIsGreater(ids, i, i + stride);
      }
      i, k := i + stride, k + 1;
    }
    forall x | GridId(ids, history, stride, x) && x !in keep
      ensures x in optional
    {
      var j: nat :| OnGrid(history, stride, j) && j < |ids| && ids[j] == x;
      var m :| m >= 1 && Step(m, stride) == j;
      if m >= k {
        StepOrder(k, m, stride);
      }
    }
  }

  ghost predicate GridKept(ids: seq<nat>, i: nat, optional: seq<nat>, keep: set<nat>) {
    i < |ids| ==> ids[i] in optional || ids[i] in keep
  }

  lemma EmptyIncreasing()
    ensures Increasing([])
  {
  }

  lemma LaterIsGreater(a: seq<nat>, i: nat, j: nat)
    requires Increasing(a) && i < j < |a|
    ensures a[i] < a[j]
  {
  }

  /** Keep the dense window, then protected, first and last history, then a bounded spread. */
  method SelectEssentialHistory(ids: seq<nat>, protectedIds: set<nat>,
                                c: Config) returns (keep: set<nat>, ghost optional: seq<nat>)
    requires Increasing(ids)
    ensures GoodHistory(ids, protectedIds, c, keep) && SpreadHistory(ids, protectedIds, c, keep, optional)
  {
    hide Increasing, GoodHistory, SpreadHistory, Front, Tail, GridId, EvenlySpread;
    optional := [];
    if ids == [] {
      NothingToKeep(protectedIds, c);
      return {}, [];
    }
    var dense := DenseCount(|ids|, c);
    var history := |ids| - dense;
    var recent := KeepDense(ids, history);
    if history == 0 {
      AllDense(ids, protectedIds, c);
      return recent, [];
    }
    var budget := AnchorBudget(|ids|, c);
    var guarded := KeepProtected(ids, history, protectedIds);
    var old0 := guarded + (if budget > 0 then {ids[0]} else {});
    var old1 := old0 + (if budget > 1 then {ids[history - 1]} else {});
    var more := StrideHistory(ids, history, Max(1, c.stride), recent + old1);
    optional := more;
    var kept := |old1|;
    var slots := if budget > kept then budget - kept else 0;
    var all := AddSpread(old1, more, slots);
    keep := recent + all;
    HistoryIsGood(ids, protectedIds, c, guarded, old1, optional, all);
    HistoryIsSpread(ids, protectedIds, c, old1, optional, all);
  }

  /** The older keyframes kept whatever the grid: the protected ones, and the first and the last if the quota allows. */
  function FixedHistory(ids: seq<nat>, protectedIds: set<nat>, c: Config): set<nat> {
    var history, budget := |ids| - DenseCount(|ids|, c), AnchorBudget(|ids|, c);
    ProtectedHistory(ids, protectedIds, c)
    + (if history > 0 && budget > 0 then {ids[0]} else {})
    + (if history > 0 && budget > 1 then {ids[history - 1]} else {})
  }

  /** What is left of the anchor quota for the grid. */
  function FreeAnchors(ids: seq<nat>, protectedIds: set<nat>, c: Config): nat {
    var budget, fixed := AnchorBudget(|ids|, c), |FixedHistory(ids, protectedIds, c)|;
    if budget > fixed then budget - fixed else 0
  }

  /**
   * Exactly what is kept: the dense window, the fixed history, and of the other keyframes on the regular grid all, or
   * as many as the quota has room for, spread evenly.
   */
  ghost predicate SpreadHistory(ids: seq<nat>, protectedIds: set<nat>, c: Config, keep: set<nat>, optional: seq<nat>) {
    var history, slots := |ids| - DenseCount(|ids|, c), FreeAnchors(ids, protectedIds, c);
    var always := Tail(ids, history) + FixedHistory(ids, protectedIds, c);
    && Increasing(optional)
    && (forall x :: x in optional <==> GridId(ids, history, Max(1, c.stride), x) && x !in always)
    && always <= keep && (forall x :: x in keep ==> x in always || x in optional)
    && if |optional| <= slots then forall x :: x in optional ==> x in keep
       else |keep - always| == slots && (slots > 0 ==> EvenlySpread(optional, slots, keep))
  }

  lemma HistoryIsSpread(ids: seq<nat>, protectedIds: set<nat>, c: Config, fixed: set<nat>, optional: seq<nat>,
                        all: set<nat>)
    requires ids != [] && DenseCount(|ids|, c) < |ids| && fixed == FixedHistory(ids, protectedIds, c)
    requires var history, slots := |ids| - DenseCount(|ids|, c), FreeAnchors(ids, protectedIds, c);
             && Increasing(optional) && fixed <= all && (forall x :: x in all ==> x in fixed || x in optional)
             && (forall x :: x in optional <==>
                   GridId(ids, history, Max(1, c.stride), x) && x !in Tail(ids, history) + fixed)
             && |all| == |fixed| + (if |optional| <= slots then |optional| else slots)
             && (|optional| <= slots ==> forall x :: x in optional ==> x in all)
             && (0 < slots < |optional| ==> EvenlySpread(optional, slots, all))
    ensures SpreadHistory(ids, protectedIds, c, Tail(ids, |ids| - DenseCount(|ids|, c)) + all, optional)
  {
    hide DenseCount, AnchorBudget, FixedHistory, FreeAnchors, GridId, Increasing, Tail, EvenlySpread;
    var history, slots := |ids| - DenseCount(|ids|, c), FreeAnchors(ids, protectedIds, c);
    var recent := Tail(ids, history);
    var keep, always := recent + all, recent + fixed;
    if |optional| > slots {
      assert keep - always == all - fixed;
      assert all == fixed + (all - fixed);
      if slots > 0 {
        SpreadMore(optional, slots, all, keep);
      }
    }
  }

  lemma SpreadMore(optional: seq<nat>, slots: nat, some: set<nat>, more: set<nat>)
    requires EvenlySpread(optional, slots, some) && some <= more
    ensures EvenlySpread(optional, slots, more)
  {
    forall p: nat | p < |optional|
      ensures TakenNear(optional, slots, more, p)
    {
      assert TakenNear(optional, slots, some, p);
    }
  }

  lemma NothingToKeep(protectedIds: set<nat>, c: Config)
    ensures GoodHistory([], protectedIds, c, {}) && SpreadHistory([], protectedIds, c, {}, [])
  {
    EmptyIncreasing();
  }

  lemma AllDense(ids: seq<nat>, protectedIds: set<nat>, c: Config)
    requires Increasing(ids) && ids != [] && DenseCount(|ids|, c) == |ids|
    ensures GoodHistory(ids, protectedIds, c, Tail(ids, 0)) && SpreadHistory(ids, protectedIds, c, Tail(ids, 0), [])
  {
    hide Increasing, Step;
    EmptyIncreasing();
    assert ids[0..] == ids;
    TailSize(ids, 0);
    assert ids[0] in Tail(ids, 0);
  }

  lemma {:induction false} TailSize(ids: seq<nat>, history: nat)
    requires history <= |ids|
    ensures |Tail(ids, history)| <= |ids| - history
    decreases |ids| - history
  {
    if history < |ids| {
      TailSize(ids, history + 1);
      assert ids[history..] == [ids[history]] + ids[history + 1..];
      assert Tail(ids, history) == {ids[history]} + Tail(ids, history + 1);
    }
  }

  lemma UnionSize(a: set<nat>, b: set<nat>)
    ensures |a + b| <= |a| + |b|
  {
    assert a + b == a + (b - a);
    assert |b - a| <= |b| by {
      assert b == (b - a) + (b * a);
      assert (b - a) !! (b * a);
    }
  }

  lemma HistoryIsGood(ids: seq<nat>, protectedIds: set<nat>, c: Config,
                      guarded: set<nat>, fixed: set<nat>, optional: seq<nat>, all: set<nat>)
    requires ids != [] && DenseCount(|ids|, c) < |ids|
    requires guarded == ProtectedHistory(ids, protectedIds, c)
    requires var budget := AnchorBudget(|ids|, c);
             fixed == guarded + (if budget > 0 then {ids[0]} else {})
                              + (if budget > 1 then {ids[|ids| - DenseCount(|ids|, c) - 1]} else {})
    requires forall x :: x in optional ==> x in Front(ids, |ids| - DenseCount(|ids|, c))
    requires fixed <= all && forall x :: x in all ==> x in fixed || x in optional
    requires var slots := if AnchorBudget(|ids|, c) > |fixed| then AnchorBudget(|ids|, c) - |fixed| else 0;
             |all| == |fixed| + (if |optional| <= slots then |optional| else slots)
    ensures GoodHistory(ids, protectedIds, c, Tail(ids, |ids| - DenseCount(|ids|, c)) + all)
  {
    hide DenseCount, AnchorBudget, ProtectedHistory, Tail, Front;
    var dense, budget := DenseCount(|ids|, c), AnchorBudget(|ids|, c);
    var history := |ids| - dense;
    HistorySize(guarded, ids[0], ids[history - 1], budget, fixed);
    TailSize(ids, history);
    UnionSize(Tail(ids, history), all);
    EmptyAll(guarded, budget, fixed, all);
    HistoryMembers(ids, protectedIds, c, guarded, fixed, optional, all);
  }

  lemma EmptyAll(guarded: set<nat>, budget: nat, fixed: set<nat>, all: set<nat>)
    requires budget == 0 && guarded == {} ==> fixed == {} && |all| == 0
    ensures budget == 0 && guarded == {} ==> all == {}
  {
  }

  lemma HistorySize(guarded: set<nat>, first: nat, last: nat, budget: nat, fixed: set<nat>)
    requires fixed == guarded + (if budget > 0 then {first} else {}) + (if budget > 1 then {last} else {})
    ensures |fixed| <= |guarded| + 2
  {
    UnionSize(guarded, if budget > 0 then {first} else {});
    UnionSize(guarded + (if budget > 0 then {first} else {}), if budget > 1 then {last} else {});
  }

  lemma HistoryMembers(ids: seq<nat>, protectedIds: set<nat>, c: Config,
                       guarded: set<nat>, fixed: set<nat>, optional: seq<nat>, all: set<nat>)
    requires DenseCount(|ids|, c) < |ids| && guarded == ProtectedHistory(ids, protectedIds, c)
    requires var budget := AnchorBudget(|ids|, c);
             fixed == guarded + (if budget > 0 then {ids[0]} else {})
                              + (if budget > 1 then {ids[|ids| - DenseCount(|ids|, c) - 1]} else {})
    requires forall x :: x in optional ==> x in Front(ids, |ids| - DenseCount(|ids|, c))
    requires fixed <= all && forall x :: x in all ==> x in fixed || x in optional
    requires AnchorBudget(|ids|, c) == 0 && guarded == {} ==> all == {}
    ensures var history, keep := |ids| - DenseCount(|ids|, c), Tail(ids, |ids| - DenseCount(|ids|, c)) + all;
            && (forall x :: x in keep ==> x in ids)
            && (forall i :: history <= i < |ids| ==> ids[i] in keep)
            && (forall x :: x in protectedIds && x in ids ==> x in keep)
            && (keep == {} <==> DenseCount(|ids|, c) == 0 && AnchorBudget(|ids|, c) == 0 && guarded == {})
  {
    var history := |ids| - DenseCount(|ids|, c);
    var keep := Tail(ids, history) + all;
    hide DenseCount, AnchorBudget;
    forall i | history <= i < |ids|
      ensures ids[i] in Tail(ids, history)
    {
      assert ids[history..][i - history] == ids[i];
    }
    forall x | x in protectedIds && x in ids
      ensures x in keep
    {
      var i :| 0 <= i < |ids| && ids[i] == x;
      if i < history {
        assert ids[i] in guarded;
      }
    }
    if keep == {} && DenseCount(|ids|, c) == 0 && guarded == {} {
      assert ids[0] !in fixed;
    }
    if DenseCount(|ids|, c) > 0 {
      assert ids[|ids| - 1] in keep;
    }
    if DenseCount(|ids|, c) == 0 && guarded == {} && AnchorBudget(|ids|, c) == 0 {
      assert ids[history..] == [];
    }
  }
}
