/** Which snapshot points connect keyframes in a bundle adjustment, and the gauge chosen on the components they make. */
module GaugeFixing {
  import opened UnionFind
  import opened LocalWindow
  import opened FixedPoses
  import Sorting

  /** The slots of the first n observations; only the first observation of a slot is used. */
  function Slots(ids: seq<nat>, obs: seq<Obs>, bad: set<Obs>, n: nat): set<(nat, nat)>
    requires n <= |obs|
  {
    set i | 0 <= i < n && obs[i].keyframe in ids && obs[i] !in bad :: (obs[i].keyframe, obs[i].feature)
  }

  /** An observation that becomes an edge; bad are those without a finite pixel. */
  predicate Used(ids: seq<nat>, obs: seq<Obs>, points: set<nat>, bad: set<Obs>, i: nat)
    requires i < |obs|
  {
    && obs[i].keyframe in ids && obs[i] !in bad && obs[i].point in points
    && (obs[i].keyframe, obs[i].feature) !in Slots(ids, obs, bad, i)
  }

  function Edges(ids: seq<nat>, obs: seq<Obs>, points: set<nat>, bad: set<Obs>, n: nat): seq<Obs>
    requires n <= |obs|
  {
    if n == 0 then []
    else Edges(ids, obs, points, bad, n - 1) + if Used(ids, obs, points, bad, n - 1) then [obs[n - 1]] else []
  }

  method CollectEdges(ids: seq<nat>, obs: seq<Obs>, points: set<nat>, bad: set<Obs>) returns (edges: seq<Obs>)
    ensures edges == Edges(ids, obs, points, bad, |obs|)
  {
    edges := [];
    var seen: set<(nat, nat)> := {};
    for n := 0 to |obs|
      invariant edges == Edges(ids, obs, points, bad, n) && seen == Slots(ids, obs, bad, n)
    {
      var o := obs[n];
      if o.keyframe in ids && o !in bad {
        if (o.keyframe, o.feature) !in seen && o.point in points {
          edges := edges + [o];
        }
        seen := seen + {(o.keyframe, o.feature)};
      }
    }
  }

  /** Seen from at least three different keyframes. */
  predicate Wide(frames: seq<nat>) {
    |SetOf(frames)| >= 3
  }

  function SetOf(frames: seq<nat>): set<nat> {
    set f | f in frames
  }

  /** That is, three of them differ. */
  lemma {:induction false} WideMeansThree(frames: seq<nat>)
    ensures Wide(frames) <==> exists a, b, c :: ThreeOf(frames, a, b, c)
  {
    if Wide(frames) {
      var seen := SetOf(frames);
      var a :| a in seen;
      var two := seen - {a};
      assert |two| == |seen| - 1;
      var b :| b in two;
      var one := two - {b};
      assert |one| == |two| - 1;
      var c :| c in one;
      assert ThreeOf(frames, a, b, c);
    }
    forall a, b, c | ThreeOf(frames, a, b, c)
      ensures Wide(frames)
    {
      ThreeAreWide(frames, a, b, c);
    }
  }

  predicate ThreeOf(frames: seq<nat>, a: nat, b: nat, c: nat) {
    a in frames && b in frames && c in frames && a != b && a != c && b != c
  }

  lemma ThreeAreWide(frames: seq<nat>, a: nat, b: nat, c: nat)
    requires ThreeOf(frames, a, b, c)
    ensures Wide(frames)
  {
    var seen, three := SetOf(frames), {a, b, c};
    assert |three| == 3;
    var rest := seen - three;
    assert seen == three + rest;
    assert |three + rest| == |three| + |rest|;
  }

  /** With too many points the most observed ones are selected, ties in any order; a cap of zero selects none. */
  ghost predicate Selects(groups: map<nat, seq<nat>>, maxPoints: nat, selected: set<nat>) {
    && (|groups| <= maxPoints ==> selected == {})
    && (|groups| > maxPoints ==>
          && selected <= groups.Keys && |selected| == maxPoints
          && forall p, q :: p in selected && q in groups && q !in selected ==> |groups[p]| >= |groups[q]|)
  }

  method SelectPoints(groups: map<nat, seq<nat>>, maxPoints: nat) returns (selected: set<nat>)
    ensures Selects(groups, maxPoints, selected)
  {
    selected := {};
    if |groups| > maxPoints && maxPoints > 0 {
      var counts := map p | p in groups :: |groups[p]|;
      var all := CollectLandmarks(groups.Keys, counts, 0);
      var kept := Cap(all, maxPoints);
      selected := IdsOf(kept);
      assert counts.Keys == groups.Keys;
      AllCollected(groups.Keys, counts, all);
      CappedSelects(groups, counts, all, kept, maxPoints);
    }
  }

  /** One landmark per key. */
  lemma AllCollected(keys: set<nat>, counts: map<nat, nat>, all: seq<Landmark>)
    requires keys == counts.Keys && Sorting.Distinct(all)
    requires forall l :: l in all <==> l.id in keys && l.observations == counts[l.id] && counts[l.id] >= 0
    ensures |all| == |keys|
  {
    IdsCount(all, counts);
    assert IdsOf(all) == keys by {
      forall id | id in keys
        ensures id in IdsOf(all)
      {
        assert Landmark(id, counts[id]) in all;
        var i :| 0 <= i < |all| && all[i] == Landmark(id, counts[id]);
      }
      forall id | id in IdsOf(all)
        ensures id in keys
      {
        var i :| 0 <= i < |all| && all[i].id == id;
        assert all[i] in all;
      }
    }
  }

  lemma {:induction false} IdsCount(s: seq<Landmark>, counts: map<nat, nat>)
    requires Sorting.Distinct(s) && forall l :: l in s ==> l.id in counts && l.observations == counts[l.id]
    ensures |IdsOf(s)| == |s|
  {
    hide IdsOf, Sorting.Distinct;
    if s == [] {
      NoIds();
    } else {
      var n := |s| - 1;
      assert forall l :: l in s[..n] ==> l in s;
      LastIdIsNew(s, counts);
      IdsCount(s[..n], counts);
    }
  }

  lemma NoIds()
    ensures IdsOf([]) == {}
  {
  }

  lemma LastIdIsNew(s: seq<Landmark>, counts: map<nat, nat>)
    requires s != [] && Sorting.Distinct(s) && forall l :: l in s ==> l.id in counts && l.observations == counts[l.id]
    ensures var n := |s| - 1;
            Sorting.Distinct(s[..n]) && s[n].id !in IdsOf(s[..n]) && IdsOf(s) == IdsOf(s[..n]) + {s[n].id}
  {
    var n := |s| - 1;
    forall i | 0 <= i < n
      ensures s[i].id != s[n].id
    {
      assert s[i] in s && s[n] in s && s[i] != s[n];
    }
  }

  lemma CappedSelects(groups: map<nat, seq<nat>>, counts: map<nat, nat>, all: seq<Landmark>, kept: seq<Landmark>,
                      maxPoints: nat)
    requires counts == map p | p in groups :: |groups[p]|
    requires |groups| > maxPoints > 0 && |all| == |groups.Keys| && Capped(all, kept, maxPoints)
    requires Sorting.Distinct(kept)
    requires forall l :: l in all <==> l.id in groups && l.observations == counts[l.id]
    ensures Selects(groups, maxPoints, IdsOf(kept))
  {
    hide Sorting.Distinct;
    var selected := IdsOf(kept);
    IdsCount(kept, counts);
    KeysSize(groups);
    forall p | p in selected
      ensures p in groups && Landmark(p, counts[p]) in kept
    {
      var i :| 0 <= i < |kept| && kept[i].id == p;
      assert kept[i] in kept && kept[i] in all;
    }
    forall p, q | p in selected && q in groups && q !in selected
      ensures |groups[p]| >= |groups[q]|
    {
      assert Landmark(q, counts[q]) in all && Landmark(q, counts[q]) !in kept;
      assert Prefers(Landmark(p, counts[p]), Landmark(q, counts[q]));
    }
  }

  lemma KeysSize(groups: map<nat, seq<nat>>)
    ensures |groups.Keys| == |groups|
  {
  }

  /** A point that connects its keyframes: wide, and among the selected ones if a selection was made. */
  predicate Connects(groups: map<nat, seq<nat>>, selected: set<nat>, p: nat) {
    p in groups && Wide(groups[p]) && (selected == {} || p in selected)
  }

  /** i and j are keyframes of one connecting point. */
  ghost predicate Tied(groups: map<nat, seq<nat>>, selected: set<nat>, i: nat, j: nat) {
    exists p :: Connects(groups, selected, p) && i in groups[p] && j in groups[p]
  }

  method ConnectingLists(groups: map<nat, seq<nat>>, selected: set<nat>) returns (lists: seq<seq<nat>>)
    ensures forall list :: list in lists ==> exists p :: Connects(groups, selected, p) && list == groups[p]
    ensures forall p :: Connects(groups, selected, p) ==> groups[p] in lists
  {
    hide Wide;
    lists := [];
    var todo := groups.Keys;
    while todo != {}
      invariant todo <= groups.Keys
      invariant forall list :: list in lists ==> exists p :: Connects(groups, selected, p) && list == groups[p]
      invariant forall p :: Connects(groups, selected, p) && p !in todo ==> groups[p] in lists
      decreases todo
    {
      var p :| p in todo;
      if Wide(groups[p]) && (selected == {} || p in selected) {
        assert Connects(groups, selected, p);
        lists := lists + [groups[p]];
      }
      todo := todo - {p};
    }
  }

  lemma ListsTie(groups: map<nat, seq<nat>>, selected: set<nat>, lists: seq<seq<nat>>, i: nat, j: nat)
    requires forall list :: list in lists ==> exists p :: Connects(groups, selected, p) && list == groups[p]
    requires forall p :: Connects(groups, selected, p) ==> groups[p] in lists
    ensures (i, j) in ListLinks(lists) <==> Tied(groups, selected, i, j)
  {
    hide Wide;
    if (i, j) in ListLinks(lists) {
      var k, a, b :| 0 <= k < |lists| && 0 <= a < |lists[k]| && 0 <= b < |lists[k]| &&
                      (lists[k][a], lists[k][b]) == (i, j);
      assert lists[k] in lists;
      var p :| Connects(groups, selected, p) && lists[k] == groups[p];
    }
    if Tied(groups, selected, i, j) {
      var p :| Connects(groups, selected, p) && i in groups[p] && j in groups[p];
      var k :| 0 <= k < |lists| && lists[k] == groups[p];
      var a :| 0 <= a < |lists[k]| && lists[k][a] == i;
      var b :| 0 <= b < |lists[k]| && lists[k][b] == j;
      InLists(lists, k, a, b);
    }
  }

  lemma ListsBelow(groups: map<nat, seq<nat>>, selected: set<nat>, lists: seq<seq<nat>>, n: nat)
    requires forall list :: list in lists ==> exists p :: Connects(groups, selected, p) && list == groups[p]
    requires forall p, i :: p in groups && 0 <= i < |groups[p]| ==> groups[p][i] < n
    ensures Below(lists, n)
  {
    hide Wide;
    forall k, i | 0 <= k < |lists| && 0 <= i < |lists[k]|
      ensures lists[k][i] < n
    {
      assert lists[k] in lists;
      var p :| Connects(groups, selected, p) && lists[k] == groups[p];
    }
  }

  /** The relation the poses are connected by. */
  ghost function TiedPairs(groups: map<nat, seq<nat>>, selected: set<nat>, n: nat): Links {
    set i, j | 0 <= i < n && 0 <= j < n && Tied(groups, selected, i, j) :: (i, j)
  }

  /**
   * Every component of the tied poses gets exactly min(2, size) fixed ones, requested ones first, and no other is
   * fixed.
   */
  ghost predicate Gauged(n: nat, links: Links, requested: set<nat>, fixed: set<nat>) {
    && (forall j :: j in fixed ==> j < n)
    && forall j :: 0 <= j < n ==> TwoOf(Component(links, n, j), requested, fixed * Component(links, n, j))
  }

  /** The poses connected with pose j. */
  ghost function Component(links: Links, n: nat, j: nat): set<nat> {
    set i | 0 <= i < n && Joined(links, j, i)
  }

  /** From the snapshot's observations to the fixed poses. */
  method FixGauge(ids: seq<nat>, obs: seq<Obs>, points: set<nat>, bad: set<Obs>, maxPoints: nat, requestedIds: set<nat>)
    returns (fixed: set<nat>, ghost groups: map<nat, seq<nat>>, ghost selected: set<nat>)
    ensures var edges := Edges(ids, obs, points, bad, |obs|);
            && (forall p :: p in groups <==> FramesOf(ids, edges, |edges|, p) != [])
            && (forall p :: p in groups ==> groups[p] == FramesOf(ids, edges, |edges|, p))
    ensures Selects(groups, maxPoints, selected)
    ensures Gauged(|ids|, TiedPairs(groups, selected, |ids|), (set i | 0 <= i < |ids| && ids[i] in requestedIds), fixed)
  {
    hide Edges, FramesOf, Selects, Connects, Tied, Below, ListLinks, TwoOf, Represents, LinksInside, Joined, Gauged,
         TiedPairs;
    var edges := CollectEdges(ids, obs, points, bad);
    var byPoint := GroupByPoint(ids, edges);
    groups := byPoint;
    var chosen := SelectPoints(byPoint, maxPoints);
    selected := chosen;
    var lists := ConnectingLists(byPoint, chosen);
    GroupsBelow(ids, edges, byPoint);
    ListsBelow(byPoint, chosen, lists, |ids|);
    var requested := set i | 0 <= i < |ids| && ids[i] in requestedIds;
    ghost var root;
    fixed, root := ChooseFixed(|ids|, lists, requested);
    SameLinks(byPoint, chosen, lists, |ids|);
    GaugeRead(|ids|, root, TiedPairs(byPoint, chosen, |ids|), requested, fixed);
  }

  lemma GroupsBelow(ids: seq<nat>, edges: seq<Obs>, groups: map<nat, seq<nat>>)
    requires forall p :: p in groups ==> groups[p] == FramesOf(ids, edges, |edges|, p)
    ensures forall p, i :: p in groups && 0 <= i < |groups[p]| ==> groups[p][i] < |ids|
  {
  }

  lemma SameLinks(groups: map<nat, seq<nat>>, selected: set<nat>, lists: seq<seq<nat>>, n: nat)
    requires forall list :: list in lists ==> exists p :: Connects(groups, selected, p) && list == groups[p]
    requires forall p :: Connects(groups, selected, p) ==> groups[p] in lists
    requires Below(lists, n)
    ensures ListLinks(lists) == TiedPairs(groups, selected, n)
  {
    hide Connects, Tied;
    forall i: nat, j: nat
      ensures (i, j) in ListLinks(lists) <==> (i, j) in TiedPairs(groups, selected, n)
    {
      ListsTie(groups, selected, lists, i, j);
    }
  }

  lemma GaugeRead(n: nat, root: seq<nat>, links: Links, requested: set<nat>, fixed: set<nat>)
    requires |root| == n && LinksInside(links, n) && Represents(root, links) && forall j :: j in fixed ==> j < n
    requires forall j :: 0 <= j < n ==> TwoOf(ClassOf(root, root[j]), requested, fixed * ClassOf(root, root[j]))
    ensures Gauged(n, links, requested, fixed)
  {
    hide LinksInside, Represents, TwoOf, Component, ClassOf;
    forall j | 0 <= j < n
      ensures Component(links, n, j) == ClassOf(root, root[j])
    {
      ClassIsComponent(n, root, links, j);
    }
  }

  lemma ClassIsComponent(n: nat, root: seq<nat>, links: Links, j: nat)
    requires |root| == n && LinksInside(links, n) && Represents(root, links) && j < n
    ensures Component(links, n, j) == ClassOf(root, root[j])
  {
    hide LinksInside, Represents, Joined, ClassOf;
    ClassIsConnected(root, links, j);
    ClassIsBelow(root, root[j]);
  }

  lemma ClassIsBelow(root: seq<nat>, r: nat)
    ensures forall i :: i in ClassOf(root, r) ==> i < |root|
  {
  }
}
