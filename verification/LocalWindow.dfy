/** The local BA snapshot: the anchor's observation component, its landmarks under a cap, and the poses held fixed. */
module LocalWindow {
  import opened MapEntities
  import opened Sorting
  import opened UnionFind

  datatype Obs = Obs(keyframe: nat, feature: nat, point: nat)

  ghost predicate DistinctIds(ids: seq<nat>) {
    forall i, j :: 0 <= i < j < |ids| ==> ids[i] != ids[j]
  }

  // ---- grouping observations by point ---------------------------------------------

  function IndexIn(ids: seq<nat>, id: nat): (r: Option<nat>)
    ensures r.Some? ==> r.value < |ids| && ids[r.value] == id
    ensures r.None? <==> id !in ids
  {
    if ids == [] then None
    else if ids[0] == id then Some(0)
    else match IndexIn(ids[1..], id)
      case Some(i) => Some(i + 1)
      case None => None
  }

  /** The window positions from which point p is observed, among the first n observations. */
  function FramesOf(ids: seq<nat>, obs: seq<Obs>, n: nat, p: nat): (r: seq<nat>)
    requires n <= |obs|
    ensures forall i :: 0 <= i < |r| ==> r[i] < |ids|
  {
    if n == 0 then [] else
      var before := FramesOf(ids, obs, n - 1, p);
      var at := IndexIn(ids, obs[n - 1].keyframe);
      if obs[n - 1].point == p && at.Some? then before + [at.value] else before
  }

  method GroupByPoint(ids: seq<nat>, obs: seq<Obs>) returns (groups: map<nat, seq<nat>>)
    ensures forall p :: (p in groups <==> FramesOf(ids, obs, |obs|, p) != [])
    ensures forall p :: p in groups ==> groups[p] == FramesOf(ids, obs, |obs|, p)
  {
    groups := map[];
    for n := 0 to |obs|
      invariant forall p :: (p in groups <==> FramesOf(ids, obs, n, p) != [])
      invariant forall p :: p in groups ==> groups[p] == FramesOf(ids, obs, n, p)
    {
      var o := obs[n];
      var at := IndexIn(ids, o.keyframe);
      if at.Some? {
        groups := groups[o.point := (if o.point in groups then groups[o.point] else []) + [at.value]];
      }
    }
  }

  /** Window positions i and j observe a point that at least three window observations see. */
  ghost predicate Share(ids: seq<nat>, obs: seq<Obs>, i: nat, j: nat) {
    exists p :: |FramesOf(ids, obs, |obs|, p)| >= 3 &&
      i in FramesOf(ids, obs, |obs|, p) && j in FramesOf(ids, obs, |obs|, p)
  }

  /** No keyframe observes a point twice, as in every consistent map. */
  ghost predicate OncePerFrame(obs: seq<Obs>) {
    forall a, b :: 0 <= a < b < |obs| && obs[a].point == obs[b].point ==> obs[a].keyframe != obs[b].keyframe
  }

  /** The window keyframes among the first n observations that see p. */
  ghost function SeenFrom(ids: seq<nat>, obs: seq<Obs>, n: nat, p: nat): set<nat>
    requires n <= |obs|
  {
    set a | 0 <= a < n && obs[a].point == p && obs[a].keyframe in ids :: obs[a].keyframe
  }

  lemma SeenOneMore(ids: seq<nat>, obs: seq<Obs>, n: nat, p: nat)
    requires n < |obs| && OncePerFrame(obs)
    ensures var o, before := obs[n], SeenFrom(ids, obs, n, p);
            if o.point == p && o.keyframe in ids
            then SeenFrom(ids, obs, n + 1, p) == before + {o.keyframe} && o.keyframe !in before
            else SeenFrom(ids, obs, n + 1, p) == before
  {
  }

  lemma FramesOneMore(ids: seq<nat>, obs: seq<Obs>, n: nat, p: nat)
    requires n < |obs| && DistinctIds(ids)
    ensures var o, before, after := obs[n], FramesOf(ids, obs, n, p), FramesOf(ids, obs, n + 1, p);
            if o.point == p && o.keyframe in ids
            then |after| == |before| + 1 &&
                 forall i :: 0 <= i < |ids| ==> (i in after <==> i in before || ids[i] == o.keyframe)
            else after == before
  {
  }

  lemma {:induction false} FramesAreKeyframes(ids: seq<nat>, obs: seq<Obs>, n: nat, p: nat)
    requires n <= |obs| && DistinctIds(ids) && OncePerFrame(obs)
    ensures |FramesOf(ids, obs, n, p)| == |SeenFrom(ids, obs, n, p)|
    ensures forall i :: 0 <= i < |ids| ==> (i in FramesOf(ids, obs, n, p) <==> ids[i] in SeenFrom(ids, obs, n, p))
  {
    hide OncePerFrame, DistinctIds, SeenFrom, FramesOf, IndexIn;
    if n == 0 {
      NothingSeen(ids, obs, p);
    } else {
      FramesAreKeyframes(ids, obs, n - 1, p);
      SeenOneMore(ids, obs, n - 1, p);
      FramesOneMore(ids, obs, n - 1, p);
    }
  }

  lemma NothingSeen(ids: seq<nat>, obs: seq<Obs>, p: nat)
    ensures FramesOf(ids, obs, 0, p) == [] && SeenFrom(ids, obs, 0, p) == {}
  {
  }

  /** Then two keyframes share a point exactly if both see one that at least three window keyframes see. */
  lemma {:induction false} ShareMeansThreeKeyframes(ids: seq<nat>, obs: seq<Obs>, i: nat, j: nat)
    requires DistinctIds(ids) && OncePerFrame(obs) && i < |ids| && j < |ids|
    ensures Share(ids, obs, i, j) <==> exists p :: && |SeenFrom(ids, obs, |obs|, p)| >= 3
                                                   && ids[i] in SeenFrom(ids, obs, |obs|, p)
                                                    && ids[j] in SeenFrom(ids, obs, |obs|, p)
  {
    hide FramesOf, SeenFrom, OncePerFrame, DistinctIds;
    forall p
      ensures |FramesOf(ids, obs, |obs|, p)| == |SeenFrom(ids, obs, |obs|, p)|
      ensures i in FramesOf(ids, obs, |obs|, p) <==> ids[i] in SeenFrom(ids, obs, |obs|, p)
      ensures j in FramesOf(ids, obs, |obs|, p) <==> ids[j] in SeenFrom(ids, obs, |obs|, p)
    {
      FramesAreKeyframes(ids, obs, |obs|, p);
    }
  }

  /** The relation whose components the window falls into. */
  ghost function SharedLinks(ids: seq<nat>, obs: seq<Obs>): Links {
    set i, j | 0 <= i < |ids| && 0 <= j < |ids| && Share(ids, obs, i, j) :: (i, j)
  }

  /** The lists of positions to unite: points seen at least three times. */
  method ListsToUnite(ids: seq<nat>, obs: seq<Obs>) returns (lists: seq<seq<nat>>)
    ensures Below(lists, |ids|) && ListLinks(lists) == SharedLinks(ids, obs)
  {
    var groups := GroupByPoint(ids, obs);
    lists := [];
    var todo := groups.Keys;
    while todo != {}
      invariant todo <= groups.Keys
      invariant forall k :: 0 <= k < |lists| ==> IsGroup(ids, obs, lists[k])
      invariant forall p :: p in groups && p !in todo && |groups[p]| >= 3 ==> groups[p] in lists
      decreases todo
    {
      var p :| p in todo;
      if |groups[p]| >= 3 {
        assert IsGroup(ids, obs, groups[p]);
        lists := lists + [groups[p]];
      }
      todo := todo - {p};
    }
    LinksOfGroups(ids, obs, lists);
  }

  ghost predicate IsGroup(ids: seq<nat>, obs: seq<Obs>, list: seq<nat>) {
    |list| >= 3 && exists p :: list == FramesOf(ids, obs, |obs|, p)
  }

  lemma LinksOfGroups(ids: seq<nat>, obs: seq<Obs>, lists: seq<seq<nat>>)
    requires forall k :: 0 <= k < |lists| ==> IsGroup(ids, obs, lists[k])
    requires forall p :: |FramesOf(ids, obs, |obs|, p)| >= 3 ==> FramesOf(ids, obs, |obs|, p) in lists
    ensures Below(lists, |ids|) && ListLinks(lists) == SharedLinks(ids, obs)
  {
    forall k, i | 0 <= k < |lists| && 0 <= i < |lists[k]|
      ensures lists[k][i] < |ids|
    {
      assert IsGroup(ids, obs, lists[k]);
    }
    forall a: nat, b: nat
      ensures (a, b) in ListLinks(lists) <==> (a, b) in SharedLinks(ids, obs)
    {
      GroupLink(ids, obs, lists, a, b);
    }
  }

  lemma GroupLink(ids: seq<nat>, obs: seq<Obs>, lists: seq<seq<nat>>, a: nat, b: nat)
    requires forall k :: 0 <= k < |lists| ==> IsGroup(ids, obs, lists[k])
    requires forall p :: |FramesOf(ids, obs, |obs|, p)| >= 3 ==> FramesOf(ids, obs, |obs|, p) in lists
    ensures (a, b) in ListLinks(lists) <==> (a, b) in SharedLinks(ids, obs)
  {
    if (a, b) in ListLinks(lists) {
      var k, i, j :| 0 <= k < |lists| && 0 <= i < |lists[k]| && 0 <= j < |lists[k]| &&
                      (lists[k][i], lists[k][j]) == (a, b);
      assert IsGroup(ids, obs, lists[k]);
      var p :| lists[k] == FramesOf(ids, obs, |obs|, p);
      assert Share(ids, obs, a, b);
    }
    if (a, b) in SharedLinks(ids, obs) {
      var p :| |FramesOf(ids, obs, |obs|, p)| >= 3 &&
                a in FramesOf(ids, obs, |obs|, p) && b in FramesOf(ids, obs, |obs|, p);
      var list := FramesOf(ids, obs, |obs|, p);
      var k :| 0 <= k < |lists| && lists[k] == list;
      var i :| 0 <= i < |list| && list[i] == a;
      var j :| 0 <= j < |list| && list[j] == b;
      InLists(lists, k, i, j);
    }
  }

  // ---- keeping the anchor's component -----------------------------------------------

  /** The positions below n with root r, in order, as ids. */
  function WithRoot(ids: seq<nat>, root: seq<nat>, r: nat, n: nat): seq<nat>
    requires n <= |ids| == |root|
  {
    if n == 0 then []
    else if root[n - 1] == r then WithRoot(ids, root, r, n - 1) + [ids[n - 1]]
    else WithRoot(ids, root, r, n - 1)
  }

  lemma {:induction false} WithRootMembers(ids: seq<nat>, root: seq<nat>, r: nat, n: nat)
    requires n <= |ids| == |root|
    ensures forall id :: id in WithRoot(ids, root, r, n) <==> exists i :: 0 <= i < n && ids[i] == id && root[i] == r
  {
    if n > 0 {
      WithRootMembers(ids, root, r, n - 1);
    }
  }

  /** Exactly the keyframes connected with the anchor; the whole window if the anchor is not in it. */
  ghost predicate IsComponent(ids: seq<nat>, obs: seq<Obs>, anchor: nat, kept: seq<nat>) {
    && (anchor !in ids ==> kept == ids)
    && (forall a :: 0 <= a < |ids| && ids[a] == anchor ==>
          forall i :: 0 <= i < |ids| ==> (ids[i] in kept <==> Joined(SharedLinks(ids, obs), a, i)))
    && (forall id :: id in kept ==> id in ids)
  }

  method KeepComponent(ids: seq<nat>, obs: seq<Obs>, anchor: nat) returns (kept: seq<nat>)
    requires DistinctIds(ids)
    ensures IsComponent(ids, obs, anchor, kept)
  {
    hide Represents, LinksInside, Tree, SharedLinks, ListLinks, Below, Joined;
    kept := ids;
    if |ids| <= 1 {
      SmallWindow(ids, obs, anchor);
      return;
    }
    var lists := ListsToUnite(ids, obs);
    var f := UniteLists(|ids|, lists);
    var at := IndexIn(ids, anchor);
    if at.Some? {
      var r := f.FindRoot(at.value);
      kept := [];
      ghost var root := f.root;
      for i := 0 to |ids|
        invariant f.Valid() && f.parent.Length == |ids| == |f.root| && f.root == root
        invariant kept == WithRoot(ids, f.root, r, i)
      {
        var ri := f.FindRoot(i);
        if ri == r {
          kept := kept + [ids[i]];
        }
      }
      ComponentFound(ids, obs, f.root, anchor, at.value);
    } else {
      NoAnchor(ids, obs, anchor);
    }
  }

  lemma NoAnchor(ids: seq<nat>, obs: seq<Obs>, anchor: nat)
    requires anchor !in ids
    ensures IsComponent(ids, obs, anchor, ids)
  {
  }

  lemma SmallWindow(ids: seq<nat>, obs: seq<Obs>, anchor: nat)
    requires |ids| <= 1
    ensures IsComponent(ids, obs, anchor, ids)
  {
    JoinedSelf(SharedLinks(ids, obs), 0);
  }

  lemma ComponentFound(ids: seq<nat>, obs: seq<Obs>, root: seq<nat>, anchor: nat, a: nat)
    requires DistinctIds(ids) && |root| == |ids| && a < |ids| && ids[a] == anchor
    requires LinksInside(SharedLinks(ids, obs), |ids|) && Represents(root, SharedLinks(ids, obs))
    ensures IsComponent(ids, obs, anchor, WithRoot(ids, root, root[a], |ids|))
  {
    hide Represents, LinksInside, SharedLinks, Joined, WithRoot;
    WithRootMembers(ids, root, root[a], |ids|);
    forall i | 0 <= i < |ids|
      ensures ids[i] in WithRoot(ids, root, root[a], |ids|) <==> Joined(SharedLinks(ids, obs), a, i)
    {
      RootsDecide(root, SharedLinks(ids, obs), a, i);
    }
  }

  // ---- landmarks ------------------------------------------------------------------------

  datatype Landmark = Landmark(id: nat, observations: nat)

  predicate Prefers(a: Landmark, b: Landmark) {
    a.observations > b.observations || (a.observations == b.observations && a.id <= b.id)
  }

  /** More observations count first, and then the older id. */
  lemma PrefersMoreObserved(a: Landmark, b: Landmark)
    ensures a.observations > b.observations ==> Prefers(a, b) && !Prefers(b, a)
    ensures a.observations == b.observations && a.id < b.id ==> Prefers(a, b) && !Prefers(b, a)
  {
  }

  lemma PrefersOrders()
    ensures Orders(Prefers)
  {
  }

  /** The observations whose keyframe and point are both kept. */
  function KeepObs(obs: seq<Obs>, keyframes: set<nat>, points: set<nat>): (r: seq<Obs>)
    ensures forall o :: o in r <==> o in obs && o.keyframe in keyframes && o.point in points
  {
    if obs == [] then []
    else if obs[0].keyframe in keyframes && obs[0].point in points then [obs[0]] + KeepObs(obs[1..], keyframes, points)
    else KeepObs(obs[1..], keyframes, points)
  }

  function PointsSeen(obs: seq<Obs>, keyframes: set<nat>): set<nat> {
    set i | 0 <= i < |obs| && obs[i].keyframe in keyframes :: obs[i].point
  }

  method CollectLandmarks(seen: set<nat>, counts: map<nat, nat>, required: nat) returns (landmarks: seq<Landmark>)
    requires seen <= counts.Keys
    ensures forall l :: l in landmarks <==> l.id in seen && l.observations == counts[l.id] && counts[l.id] >= required
    ensures Distinct(landmarks)
  {
    landmarks := [];
    var todo := seen;
    while todo != {}
      invariant todo <= seen
      invariant forall l :: l in landmarks <==>
        l.id in seen && l.id !in todo && l.observations == counts[l.id] && counts[l.id] >= required
      invariant Distinct(landmarks)
      decreases todo
    {
      var id :| id in todo;
      assert Landmark(id, counts[id]) !in landmarks;
      if counts[id] >= required {
        landmarks := landmarks + [Landmark(id, counts[id])];
      }
      todo := todo - {id};
    }
  }

  /** Under the cap everything stays; above it the most observed ones do, older ids first. */
  ghost predicate Capped(all: seq<Landmark>, kept: seq<Landmark>, limit: nat) {
    && (forall l :: l in kept ==> l in all)
    && (limit == 0 || |all| <= limit ==> kept == all)
    && (limit > 0 && |all| > limit ==>
          |kept| == limit && forall k, l :: k in kept && l in all && l !in kept ==> Prefers(k, l))
  }

  method Cap(all: seq<Landmark>, limit: nat) returns (kept: seq<Landmark>)
    requires Distinct(all)
    ensures Capped(all, kept, limit) && Distinct(kept)
  {
    hide Prefers, Orders;
    kept := all;
    if limit > 0 && |all| > limit {
      PrefersOrders();
      var sorted := SortBy(all, Prefers);
      kept := sorted[..limit];
      forall k, l | k in kept && l in all && l !in kept
        ensures Prefers(k, l)
      {
        assert l in sorted;
        var i :| 0 <= i < limit && sorted[i] == k;
        var j :| 0 <= j < |sorted| && sorted[j] == l;
        assert j >= limit;
      }
      assert forall l :: l in kept ==> l in sorted;
    }
  }

  function IdsOf(landmarks: seq<Landmark>): set<nat> {
    set i | 0 <= i < |landmarks| :: landmarks[i].id
  }

  datatype Snapshot = Snapshot(keyframes: seq<nat>, observations: seq<Obs>, landmarks: seq<Landmark>, fixed: seq<nat>)

  /** The snapshot is closed, covers the anchor's component, and respects the cap. */
  ghost predicate GoodSnapshot(ids: seq<nat>, obs: seq<Obs>, anchor: nat, counts: map<nat, nat>, limit: nat,
                               s: Snapshot) {
    var keyframes, points := (set k | k in s.keyframes), IdsOf(s.landmarks);
    && IsComponent(ids, obs, anchor, s.keyframes)
    && (forall o :: o in s.observations <==> o in obs && o.keyframe in keyframes && o.point in points)
    && (limit > 0 ==> |s.landmarks| <= limit)
    && (forall l :: l in s.landmarks ==>
          l.id in PointsSeen(obs, keyframes) && l.id in counts && l.observations == counts[l.id])
    && (forall p :: p in PointsSeen(obs, keyframes) && p !in points ==>
          limit > 0 && p in counts && forall l :: l in s.landmarks ==> Prefers(l, Landmark(p, counts[p])))
    && s.fixed == if |s.keyframes| >= 2 then s.keyframes[..2] else []
  }

  /** Build the snapshot of a window from its collected observations; only a landmark cap drops observations again. */
  method BuildSnapshot(ids: seq<nat>, obs: seq<Obs>, anchor: nat, counts: map<nat, nat>, required: nat, limit: nat)
    returns (s: Snapshot)
    requires DistinctIds(ids) && forall o :: o in obs ==> o.point in counts && counts[o.point] >= required
    ensures GoodSnapshot(ids, obs, anchor, counts, limit, s)
    ensures forall o :: o in s.observations ==>
      o.keyframe in s.keyframes && exists l :: l in s.landmarks && l.id == o.point
  {
    hide IsComponent, Capped, Prefers, Distinct, KeepObs, Joined;
    var kept := KeepComponent(ids, obs, anchor);
    var keyframes := set k | k in kept;
    var seen := PointsSeen(obs, keyframes);
    var observations := KeepObs(obs, keyframes, seen);
    var all := CollectLandmarks(seen, counts, required);
    var landmarks := Cap(all, limit);
    var points := IdsOf(landmarks);
    AllRequired(obs, keyframes, counts, required);
    LandmarksRanked(seen, counts, all, landmarks, limit);
    if limit > 0 && |all| > limit {
      observations := KeepObs(observations, keyframes, points);
    } else {
      AllKept(counts, all, landmarks, limit, seen);
    }
    var fixed := if |kept| >= 2 then kept[..2] else [];
    s := Snapshot(kept, observations, landmarks, fixed);
    forall p | p in points
      ensures exists l :: l in landmarks && l.id == p
    {
      var i :| 0 <= i < |landmarks| && landmarks[i].id == p;
      assert landmarks[i] in landmarks;
    }
  }

  lemma AllRequired(obs: seq<Obs>, keyframes: set<nat>, counts: map<nat, nat>, required: nat)
    requires forall o :: o in obs ==> o.point in counts && counts[o.point] >= required
    ensures forall p :: p in PointsSeen(obs, keyframes) ==> p in counts && counts[p] >= required
  {
    forall p | p in PointsSeen(obs, keyframes)
      ensures p in counts && counts[p] >= required
    {
      var i :| 0 <= i < |obs| && obs[i].keyframe in keyframes && obs[i].point == p;
      assert obs[i] in obs;
    }
  }

  lemma AllKept(counts: map<nat, nat>, all: seq<Landmark>, kept: seq<Landmark>, limit: nat, seen: set<nat>)
    requires Capped(all, kept, limit) && !(limit > 0 && |all| > limit) && seen <= counts.Keys
    requires forall l :: l in all <==> l.id in seen && l.observations == counts[l.id]
    ensures kept == all && seen == IdsOf(kept)
  {
    forall id | id in seen
      ensures id in IdsOf(all)
    {
      assert Landmark(id, counts[id]) in all;
    }
  }

  lemma LandmarksRanked(seen: set<nat>, counts: map<nat, nat>, all: seq<Landmark>, kept: seq<Landmark>, limit: nat)
    requires seen <= counts.Keys && Capped(all, kept, limit)
    requires forall l :: l in all <==> l.id in seen && l.observations == counts[l.id]
    ensures limit > 0 ==> |kept| <= limit
    ensures forall l :: l in kept ==> l.id in seen && l.observations == counts[l.id]
    ensures forall p :: p in seen && p !in IdsOf(kept) ==>
      limit > 0 && forall l :: l in kept ==> Prefers(l, Landmark(p, counts[p]))
  {
    hide Prefers;
    forall p | p in seen && p !in IdsOf(kept)
      ensures limit > 0 && forall l :: l in kept ==> Prefers(l, Landmark(p, counts[p]))
    {
      assert Landmark(p, counts[p]) in all;
      assert Landmark(p, counts[p]) !in kept;
    }
  }
}
