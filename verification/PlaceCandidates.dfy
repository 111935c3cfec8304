/** Ranking the retrieved places, merging in position priors, and the bounds on what a query returns. */
module PlaceCandidates {
  import opened Sorting
  import opened Ordering
  import opened PlaceClusters
  import opened RigidMotion
  import LoopIndex

  const MAX_PLACES: nat := 12
  const MAX_PRIORS: nat := 4

  datatype Candidate = Candidate(place: Cluster, support: nat, prior: bool)

  /** Support, then similarity, then submap and id. */
  predicate RanksBefore(a: Candidate, b: Candidate) {
    || a.support > b.support
    || (a.support == b.support &&
         (|| a.place.best.score > b.place.best.score
          || (a.place.best.score == b.place.best.score && InOrder(a.place.best, b.place.best))))
  }

  /** Distance, then submap and first id. */
  predicate Nearer(a: Cluster, b: Cluster) {
    || a.best.score < b.best.score
    || (a.best.score == b.best.score &&
         (a.best.submap < b.best.submap || (a.best.submap == b.best.submap && a.lo <= b.lo)))
  }

  /** More support ranks first, then more similarity. */
  lemma RanksByEvidence(a: Candidate, b: Candidate)
    ensures a.support > b.support ==> RanksBefore(a, b) && !RanksBefore(b, a)
    ensures a.support == b.support && a.place.best.score > b.place.best.score ==>
      RanksBefore(a, b) && !RanksBefore(b, a)
  {
  }

  lemma NearerComesFirst(a: Cluster, b: Cluster)
    ensures a.best.score < b.best.score ==> Nearer(a, b) && !Nearer(b, a)
  {
  }

  lemma InOrderOrders()
    ensures Orders(InOrder)
  {
  }

  lemma NearerOrders()
    ensures Orders(Nearer)
  {
  }

  lemma RanksOrder()
    ensures Orders(RanksBefore)
  {
    forall a, b, c | RanksBefore(a, b) && RanksBefore(b, c)
      ensures RanksBefore(a, c)
    {
    }
  }

  // ---- ordering the hits ---------------------------------------------------------------

  lemma DistinctIds(s: seq<Found>)
    requires forall i, j :: 0 <= i < j < |s| ==> s[i].id != s[j].id
    ensures Distinct(s)
  {
  }

  lemma SortedIds(s: seq<Found>, r: seq<Found>)
    requires (forall i, j :: 0 <= i < j < |s| ==> s[i].id != s[j].id) && SameElements(s, r) && SortedBy(r, InOrder)
    ensures Ordered(r) && forall i, j :: 0 <= i < j < |r| ==> r[i].id != r[j].id
  {
    DistinctIds(s);
    forall i, j | 0 <= i < j < |r|
      ensures r[i].id != r[j].id
    {
      assert r[i] in s && r[j] in s;
    }
  }

  // ---- separation survives sorting and choosing ------------------------------------------

  ghost predicate Proper(cs: seq<Cluster>) {
    forall i :: 0 <= i < |cs| ==> cs[i].lo <= cs[i].best.id <= cs[i].hi
  }

  function PlacesOf(cs: seq<Candidate>): (r: seq<Cluster>)
    ensures |r| == |cs| && forall i :: 0 <= i < |cs| ==> r[i] == cs[i].place
  {
    seq(|cs|, i requires 0 <= i < |cs| => cs[i].place)
  }

  /** Apart is symmetric, and no place is apart from itself. */
  lemma ApartFacts(a: Cluster, b: Cluster, gap: nat)
    ensures Apart(a, b, gap) <==> Apart(b, a, gap)
    ensures a.lo <= a.hi ==> !Apart(a, a, gap)
  {
  }

  /** Any list of different elements taken from separated places is separated. */
  lemma {:induction false} ApartSurvives(s: seq<Cluster>, r: seq<Cluster>, gap: nat)
    requires AllApart(s, gap) && Distinct(r) && forall x :: x in r ==> x in s
    ensures AllApart(r, gap)
  {
    forall i, j | 0 <= i < j < |r|
      ensures Apart(r[i], r[j], gap)
    {
      assert r[i] in s && r[j] in s && r[i] != r[j];
      var k :| 0 <= k < |s| && s[k] == r[i];
      var m :| 0 <= m < |s| && s[m] == r[j];
      ApartFacts(s[k], s[m], gap);
    }
  }

  lemma ApartIsDistinct(s: seq<Cluster>, gap: nat)
    requires AllApart(s, gap) && Proper(s)
    ensures Distinct(s)
  {
    forall i, j | 0 <= i < j < |s|
      ensures s[i] != s[j]
    {
      ApartFacts(s[i], s[j], gap);
      assert s[i].lo <= s[i].hi;
    }
  }

  // ---- ranking ------------------------------------------------------------------------------

  method Annotate(clusters: seq<Cluster>, supports: seq<nat>) returns (cs: seq<Candidate>)
    requires |supports| == |clusters|
    ensures |cs| == |clusters| && forall i :: 0 <= i < |cs| ==> cs[i] == Candidate(clusters[i], supports[i], false)
  {
    cs := [];
    for i := 0 to |clusters|
      invariant |cs| == i && forall j :: 0 <= j < i ==> cs[j] == Candidate(clusters[j], supports[j], false)
    {
      cs := cs + [Candidate(clusters[i], supports[i], false)];
    }
  }

  /** The places of a query, best ranked first, at most twelve of them. */
  method RankPlaces(clusters: seq<Cluster>, supports: seq<nat>, gap: nat) returns (ranked: seq<Candidate>)
    requires |supports| == |clusters| && AllApart(clusters, gap) && Proper(clusters)
    ensures |ranked| <= MAX_PLACES && SortedBy(ranked, RanksBefore) && AllApart(PlacesOf(ranked), gap)
    ensures forall c :: c in ranked ==> !c.prior && c.place in clusters && Annotated(c, clusters, supports)
    ensures |clusters| <= MAX_PLACES ==> |ranked| == |clusters|
    ensures forall i :: 0 <= i < |clusters| ==> RankedOrWorse(Candidate(clusters[i], supports[i], false), ranked)
  {
    hide RanksBefore, AllApart, Proper, SortedBy, SameElements, Orders, RankedOrWorse, Annotated;
    RanksOrder();
    var annotated := Annotate(clusters, supports);
    var sorted := SortBy(annotated, RanksBefore);
    RankedParts(clusters, annotated, sorted, gap);
    ranked := if |sorted| > MAX_PLACES then sorted[..MAX_PLACES] else sorted;
    RankedPrefix(sorted, |ranked|, gap);
    BestAreKept(annotated, sorted, ranked);
    RankedAreAnnotated(clusters, supports, annotated, sorted, ranked);
  }

  /** A place with the support it was given. */
  ghost predicate Annotated(c: Candidate, clusters: seq<Cluster>, supports: seq<nat>)
    requires |supports| == |clusters|
  {
    exists i :: 0 <= i < |clusters| && c == Candidate(clusters[i], supports[i], false)
  }

  lemma RankedAreAnnotated(clusters: seq<Cluster>, supports: seq<nat>, annotated: seq<Candidate>,
                           sorted: seq<Candidate>,
                           ranked: seq<Candidate>)
    requires |supports| == |clusters| == |annotated| && SameElements(annotated, sorted)
    requires forall i :: 0 <= i < |annotated| ==> annotated[i] == Candidate(clusters[i], supports[i], false)
    requires forall c :: c in ranked ==> c in sorted
    ensures forall c :: c in ranked ==> Annotated(c, clusters, supports)
  {
    forall c | c in ranked
      ensures Annotated(c, clusters, supports)
    {
      assert c in annotated;
      var i :| 0 <= i < |annotated| && annotated[i] == c;
    }
  }

  lemma BestAreKept(annotated: seq<Candidate>, sorted: seq<Candidate>, ranked: seq<Candidate>)
    requires SameElements(annotated, sorted) && SortedBy(sorted, RanksBefore)
    requires ranked == if |sorted| > MAX_PLACES then sorted[..MAX_PLACES] else sorted
    ensures forall i :: 0 <= i < |annotated| ==> RankedOrWorse(annotated[i], ranked)
  {
    hide RanksBefore, RankedOrWorse, SortedBy, SameElements;
    assert ranked == sorted[..|ranked|];
    forall i | 0 <= i < |annotated|
      ensures RankedOrWorse(annotated[i], ranked)
    {
      assert annotated[i] in annotated;
      ElementsStay(annotated, sorted, annotated[i]);
      PrefixIsBest(sorted, |ranked|, annotated[i]);
    }
  }

  /** c made it into the list, or the list is full of candidates that rank at least as high. */
  ghost predicate RankedOrWorse(c: Candidate, ranked: seq<Candidate>) {
    c in ranked || (|ranked| == MAX_PLACES && forall r :: r in ranked ==> RanksBefore(r, c))
  }

  lemma ElementsStay(s: seq<Candidate>, r: seq<Candidate>, c: Candidate)
    requires SameElements(s, r) && c in s
    ensures c in r
  {
  }

  lemma PrefixIsBest(s: seq<Candidate>, n: nat, c: Candidate)
    requires SortedBy(s, RanksBefore) && c in s && n <= |s| && (n == |s| || n == MAX_PLACES)
    ensures RankedOrWorse(c, s[..n])
  {
    hide RanksBefore;
    var k :| 0 <= k < |s| && s[k] == c;
    if k < n {
      assert s[..n][k] == c;
    } else {
      forall r | r in s[..n]
        ensures RanksBefore(r, c)
      {
        var m :| 0 <= m < n && s[..n][m] == r;
      }
    }
  }

  lemma RankedParts(clusters: seq<Cluster>, annotated: seq<Candidate>, sorted: seq<Candidate>, gap: nat)
    requires AllApart(clusters, gap) && Proper(clusters) && |annotated| == |clusters|
    requires forall i :: 0 <= i < |annotated| ==> annotated[i].place == clusters[i] && !annotated[i].prior
    requires SameElements(annotated, sorted)
    ensures |sorted| == |clusters| && AllApart(PlacesOf(sorted), gap)
    ensures forall c :: c in sorted ==> !c.prior && c.place in clusters
  {
    ApartIsDistinct(clusters, gap);
    forall i, j | 0 <= i < j < |annotated|
      ensures annotated[i] != annotated[j]
    {
      assert clusters[i] != clusters[j];
    }
    forall c | c in sorted
      ensures !c.prior && c.place in clusters && exists i :: 0 <= i < |clusters| && c == annotated[i]
    {
      assert c in annotated;
    }
    PlacesDistinct(clusters, annotated, sorted);
    ApartSurvives(clusters, PlacesOf(sorted), gap);
  }

  lemma PlacesDistinct(clusters: seq<Cluster>, annotated: seq<Candidate>, sorted: seq<Candidate>)
    requires Distinct(clusters) && Distinct(sorted) && |annotated| == |clusters|
    requires forall i :: 0 <= i < |annotated| ==> annotated[i].place == clusters[i]
    requires forall c :: c in sorted ==> exists i :: 0 <= i < |clusters| && c == annotated[i]
    ensures Distinct(PlacesOf(sorted))
  {
    forall i, j | 0 <= i < j < |sorted|
      ensures sorted[i].place != sorted[j].place
    {
      assert sorted[i] in sorted && sorted[j] in sorted;
      var k :| 0 <= k < |clusters| && sorted[i] == annotated[k];
      var m :| 0 <= m < |clusters| && sorted[j] == annotated[m];
      assert clusters[k] == sorted[i].place && clusters[m] == sorted[j].place;
    }
  }

  lemma RankedPrefix(s: seq<Candidate>, n: nat, gap: nat)
    requires n <= |s| && SortedBy(s, RanksBefore) && AllApart(PlacesOf(s), gap)
    ensures SortedBy(s[..n], RanksBefore) && AllApart(PlacesOf(s[..n]), gap)
    ensures forall c :: c in s[..n] ==> c in s
  {
    hide RanksBefore, Apart;
    assert PlacesOf(s[..n]) == PlacesOf(s)[..n];
  }

  // ---- priors ------------------------------------------------------------------------------------

  /** A prior place that merges with a retrieved one would be the same place. */
  method Duplicates(p: Cluster, bow: seq<Candidate>, gap: nat) returns (dup: bool)
    ensures dup <==> exists i :: 0 <= i < |bow| && !Apart(bow[i].place, p, gap)
  {
    for i := 0 to |bow|
      invariant forall j :: 0 <= j < i ==> Apart(bow[j].place, p, gap)
    {
      if bow[i].place.best.submap == p.best.submap && p.lo <= bow[i].place.hi + gap && bow[i].place.lo <= p.hi + gap {
        return true;
      }
    }
    return false;
  }

  /** A prior place is a candidate of its own unless a retrieved place covers it. */
  ghost predicate Served(bow: seq<Candidate>, priors: seq<Candidate>, place: Cluster, gap: nat) {
    Candidate(place, 1, true) in priors || exists i :: 0 <= i < |bow| && !Apart(bow[i].place, place, gap)
  }

  ghost predicate ApartFrom(bow: seq<Candidate>, priors: seq<Candidate>, gap: nat) {
    forall i, j {:trigger bow[i], priors[j]} :: 0 <= i < |bow| && 0 <= j < |priors| ==>
      Apart(bow[i].place, priors[j].place, gap)
  }

  /** The priors chosen so far are places at ascending positions. */
  ghost predicate ChosenAt(places: seq<Cluster>, priors: seq<Candidate>, at: seq<nat>, n: nat) {
    && |at| == |priors| && Increasing(at)
    && forall j :: 0 <= j < |at| ==> at[j] < n && at[j] < |places| && priors[j] == Candidate(places[at[j]], 1, true)
  }

  /** The nearest prior places that no retrieved place covers, at most four. */
  method ChoosePriors(bow: seq<Candidate>, places: seq<Cluster>,
                      gap: nat) returns (priors: seq<Candidate>, ghost upto: nat)
    requires AllApart(places, gap)
    ensures |priors| <= MAX_PRIORS && AllApart(PlacesOf(priors), gap)
    ensures forall c :: c in priors ==> c.prior && c.place in places
    ensures ApartFrom(bow, priors, gap)
    ensures upto <= |places| && (upto == |places| || |priors| == MAX_PRIORS)
    ensures forall n :: 0 <= n < upto ==> Served(bow, priors, places[n], gap)
    ensures SortedBy(places, Nearer) ==> NearestFirst(priors, places, upto)
  {
    hide Apart, AllApart, ApartFrom, Served, ChosenAt, NearestFirst, SortedBy, Nearer;
    priors, upto := [], 0;
    ghost var at: seq<nat> := [];
    NothingChosen(bow, places, gap);
    for n := 0 to |places|
      invariant |priors| <= MAX_PRIORS && upto == n && ChosenAt(places, priors, at, n) && ApartFrom(bow, priors, gap)
      invariant forall k :: 0 <= k < upto ==> Served(bow, priors, places[k], gap)
    {
      if |priors| >= MAX_PRIORS {
        break;
      }
      var dup := Duplicates(places[n], bow, gap);
      ChooseOrNot(bow, places, priors, at, n, gap, dup);
      if !dup {
        priors, at := priors + [Candidate(places[n], 1, true)], at + [n];
      }
      upto := n + 1;
    }
    ChosenApart(places, priors, at, upto, gap);
    if SortedBy(places, Nearer) {
      ChosenNearestFirst(places, priors, at, upto);
    }
  }

  /** The priors come nearest first, and none of the places from position n on is nearer than one of them. */
  ghost predicate NearestFirst(priors: seq<Candidate>, places: seq<Cluster>, n: nat)
    requires n <= |places|
  {
    && (forall c :: c in priors ==> c.support == 1)
    && (forall i, j :: 0 <= i < j < |priors| ==> Nearer(priors[i].place, priors[j].place))
    && (forall i, k :: 0 <= i < |priors| && n <= k < |places| ==> Nearer(priors[i].place, places[k]))
  }

  lemma ChosenNearestFirst(places: seq<Cluster>, priors: seq<Candidate>, at: seq<nat>, n: nat)
    requires n <= |places| && ChosenAt(places, priors, at, n) && SortedBy(places, Nearer)
    ensures NearestFirst(priors, places, n)
  {
    hide Nearer, Increasing;
    forall i, j | 0 <= i < j < |priors|
      ensures Nearer(priors[i].place, priors[j].place)
    {
      IncreasingOrder(at, i, j);
      assert at[i] < at[j];
    }
  }

  lemma NothingChosen(bow: seq<Candidate>, places: seq<Cluster>, gap: nat)
    ensures ChosenAt(places, [], [], 0) && ApartFrom(bow, [], gap)
  {
  }

  lemma ChooseNext(places: seq<Cluster>, priors: seq<Candidate>, at: seq<nat>, n: nat)
    requires n < |places| && ChosenAt(places, priors, at, n)
    ensures ChosenAt(places, priors, at, n + 1)
    ensures ChosenAt(places, priors + [Candidate(places[n], 1, true)], at + [n], n + 1)
  {
    hide Increasing;
    forall x | x in at
      ensures x < n
    {
      var j :| 0 <= j < |at| && at[j] == x;
    }
    IncreasingAppend(at, n);
  }

  lemma ApartFromNext(bow: seq<Candidate>, priors: seq<Candidate>, c: Candidate, gap: nat)
    requires ApartFrom(bow, priors, gap) && forall i :: 0 <= i < |bow| ==> Apart(bow[i].place, c.place, gap)
    ensures ApartFrom(bow, priors + [c], gap)
  {
    hide Apart;
  }

  lemma ServedStill(bow: seq<Candidate>, priors: seq<Candidate>, c: Candidate, place: Cluster, gap: nat)
    requires Served(bow, priors, place, gap)
    ensures Served(bow, priors + [c], place, gap)
  {
    hide Apart;
  }

  lemma ServedNow(bow: seq<Candidate>, priors: seq<Candidate>, place: Cluster, gap: nat)
    ensures Served(bow, priors + [Candidate(place, 1, true)], place, gap)
    ensures (exists i :: 0 <= i < |bow| && !Apart(bow[i].place, place, gap)) ==> Served(bow, priors, place, gap)
  {
    hide Apart;
    assert (priors + [Candidate(place, 1, true)])[|priors|] == Candidate(place, 1, true);
  }

  lemma ChooseOrNot(bow: seq<Candidate>, places: seq<Cluster>, priors: seq<Candidate>, at: seq<nat>, n: nat, gap: nat,
                    dup: bool)
    requires n < |places| && ChosenAt(places, priors, at, n) && ApartFrom(bow, priors, gap)
    requires dup <==> exists i :: 0 <= i < |bow| && !Apart(bow[i].place, places[n], gap)
    requires forall k :: 0 <= k < n ==> Served(bow, priors, places[k], gap)
    ensures var next := if dup then priors else priors + [Candidate(places[n], 1, true)];
            && ChosenAt(places, next, if dup then at else at + [n], n + 1) && ApartFrom(bow, next, gap)
            && forall k :: 0 <= k < n + 1 ==> Served(bow, next, places[k], gap)
  {
    hide Apart, ChosenAt, ApartFrom, Served;
    var c := Candidate(places[n], 1, true);
    ChooseNext(places, priors, at, n);
    ServedNow(bow, priors, places[n], gap);
    if !dup {
      ApartFromNext(bow, priors, c, gap);
      forall k | 0 <= k < n
        ensures Served(bow, priors + [c], places[k], gap)
      {
        ServedStill(bow, priors, c, places[k], gap);
      }
    }
  }

  lemma ChosenApart(places: seq<Cluster>, priors: seq<Candidate>, at: seq<nat>, n: nat, gap: nat)
    requires AllApart(places, gap) && ChosenAt(places, priors, at, n)
    ensures AllApart(PlacesOf(priors), gap) && forall c :: c in priors ==> c.prior && c.place in places
  {
    hide Apart;
  }

  /** Join the two lists: the last retrieved places give way to the priors. */
  method Merge(bow: seq<Candidate>, priors: seq<Candidate>, gap: nat) returns (out: seq<Candidate>, keep: nat)
    requires |bow| <= MAX_PLACES && |priors| <= MAX_PRIORS
    requires AllApart(PlacesOf(bow), gap) && AllApart(PlacesOf(priors), gap) && ApartFrom(bow, priors, gap)
    ensures |out| <= MAX_PLACES && AllApart(PlacesOf(out), gap)
    ensures keep <= |bow| && out == bow[..keep] + priors && (keep == |bow| || keep + |priors| == MAX_PLACES)
  {
    hide Apart;
    keep := if |bow| < MAX_PLACES - |priors| then |bow| else MAX_PLACES - |priors|;
    out := bow[..keep] + priors;
    forall i, j | 0 <= i < j < |out|
      ensures Apart(out[i].place, out[j].place, gap)
    {
      if j < keep {
        assert Apart(PlacesOf(bow)[i], PlacesOf(bow)[j], gap);
      } else if i >= keep {
        assert Apart(PlacesOf(priors)[i - keep], PlacesOf(priors)[j - keep], gap);
      }
    }
  }

  /** Where a cached keyframe lies now: in the newest anchor of its submap, else in the one it was indexed with. */
  function WorldPosition(c: LoopIndex.Cached, latest: map<nat, SE3>): Vec3 {
    Act(if c.submap in latest then latest[c.submap] else c.T_ws, c.position)
  }

  /** The anchors of a query: its own submap is among them. */
  datatype Here = Here(query: nat, submap: nat, position: Vec3, T_ws: SE3, latest: map<nat, SE3>)

  function Away(c: LoopIndex.Cached, here: Here): real {
    SquaredDistance(WorldPosition(c, here.latest), Act(here.T_ws, here.position))
  }

  /** Inside the query's own submap the prior does not depend on where the submap is anchored. */
  lemma {:induction false} AwayWithinSubmap(c: LoopIndex.Cached, here: Here)
    requires c.submap == here.submap && here.submap in here.latest && here.latest[here.submap] == here.T_ws
    ensures Away(c, here) == SquaredDistance(c.position, here.position)
  {
    hide Act, SquaredDistance;
    ActKeepsDistance(here.T_ws, c.position, here.position);
  }

  /** A keyframe is a prior if it is near the current position and old enough; distances are compared squared. */
  predicate IsPrior(f: Found, cache: map<nat, LoopIndex.Cached>, here: Here, window: nat, limit: real) {
    && f.id in cache && cache[f.id].submap == f.submap && Away(cache[f.id], here) == f.score
    && 0.0 < limit && f.score < limit * limit && Temporal(f, here.query, here.submap, window)
  }

  /** Historical keyframes near the current position, the query's own recent past left out. */
  method PositionPriors(cache: map<nat, LoopIndex.Cached>, here: Here, window: nat,
                        limit: real) returns (priors: seq<Found>)
    ensures forall i, j :: 0 <= i < j < |priors| ==> priors[i].id != priors[j].id
    ensures forall f :: f in priors <==> IsPrior(f, cache, here, window, limit)
  {
    hide Away;
    priors := [];
    if limit <= 0.0 {
      return;
    }
    var bound := limit * limit;
    var todo := cache.Keys;
    while todo != {}
      invariant todo <= cache.Keys
      invariant forall f :: f in priors <==> f.id !in todo && IsPrior(f, cache, here, window, limit)
      invariant forall i, j :: 0 <= i < j < |priors| ==> priors[i].id != priors[j].id
      decreases todo
    {
      var id :| id in todo;
      var f := Found(id, cache[id].submap, Away(cache[id], here));
      if !(f.submap == here.submap && (id >= here.query || here.query - id < window)) && f.score < bound {
        assert forall i :: 0 <= i < |priors| ==> priors[i] in priors && priors[i].id != id;
        priors := priors + [f];
      }
      todo := todo - {id};
    }
  }

  // ---- the whole query ------------------------------------------------------------------------------

  /** Every member of the place obeys the temporal filter. */
  ghost predicate AllTemporal(c: Cluster, query: nat, submap: nat, window: nat) {
    Temporal(c.best, query, submap, window) && forall f :: f in c.members ==> Temporal(f, query, submap, window)
  }

  lemma ComponentsParts(s: seq<Found>, cs: seq<Cluster>, gap: nat, closer: bool)
    requires Components(s, cs, gap, closer)
    ensures Proper(cs) && forall f :: f in s ==> Placed(f, cs)
    ensures forall c :: c in cs ==> c.best in s && forall f :: f in c.members ==> f in s
  {
    hide Placed, IsComponent;
    forall i | 0 <= i < |cs|
      ensures cs[i].lo <= cs[i].best.id <= cs[i].hi
    {
      assert cs[i] in cs && cs[i].best in cs[i].members;
    }
  }

  method RetrievedPlaces(scored: seq<Found>, gap: nat) returns (clusters: seq<Cluster>)
    requires forall i, j :: 0 <= i < j < |scored| ==> scored[i].id != scored[j].id
    ensures AllApart(clusters, gap) && Components(scored, clusters, gap, false)
  {
    hide Ordered, Starts, PlacesUpTo, AllApart, Components, SortedBy, SameElements, Orders, InOrder;
    InOrderOrders();
    var sorted := SortBy(scored, InOrder);
    SortedIds(scored, sorted);
    ghost var starts;
    clusters, starts := ScanPlaces(sorted, gap);
    ScannedPlacesApart(sorted, starts, clusters, gap, false);
    SameMembers(scored, sorted);
    ScanFindsComponents(scored, sorted, starts, clusters, gap, false);
  }

  lemma SameMembers(s: seq<Found>, sorted: seq<Found>)
    requires SameElements(s, sorted)
    ensures forall f :: f in s <==> f in sorted
  {
  }

  method PriorPlaces(priors: seq<Found>, gap: nat) returns (places: seq<Cluster>)
    requires forall i, j :: 0 <= i < j < |priors| ==> priors[i].id != priors[j].id
    ensures AllApart(places, gap) && SortedBy(places, Nearer) && Components(priors, places, gap, true)
  {
    hide Ordered, Starts, PlacesUpTo, AllApart, Components, SortedBy, SameElements, Orders, InOrder, Nearer;
    InOrderOrders();
    NearerOrders();
    var sorted := SortBy(priors, InOrder);
    SortedIds(priors, sorted);
    var found, starts := ScanPriors(sorted, gap);
    ScannedPlacesApart(sorted, starts, found, gap, true);
    SameMembers(priors, sorted);
    ScanFindsComponents(priors, sorted, starts, found, gap, true);
    places := SortBy(found, Nearer);
    NearestApart(priors, found, places, gap);
  }

  lemma NearestApart(priors: seq<Found>, found: seq<Cluster>, places: seq<Cluster>, gap: nat)
    requires AllApart(found, gap) && Components(priors, found, gap, true) && SameElements(found, places)
    ensures AllApart(places, gap) && Components(priors, places, gap, true)
  {
    hide Components, AllApart, Proper, Apart, Distinct;
    ComponentsParts(priors, found, gap, true);
    ApartIsDistinct(found, gap);
    ApartSurvives(found, places, gap);
    ComponentsStay(priors, found, places, gap);
  }

  lemma ComponentsStay(priors: seq<Found>, found: seq<Cluster>, places: seq<Cluster>, gap: nat)
    requires Components(priors, found, gap, true) && forall c :: c in places <==> c in found
    ensures Components(priors, places, gap, true)
  {
    hide IsComponent, Spans, IsBest;
    forall f | f in priors
      ensures Placed(f, places)
    {
      var c :| c in found && f in c.members;
      assert c in places;
    }
  }

  function SubmapOf(cache: map<nat, LoopIndex.Cached>): map<nat, nat> {
    map id | id in cache :: cache[id].submap
  }

  function AsPlace(c: Cluster): LoopIndex.Place {
    LoopIndex.Place(c.best.id, c.best.submap, c.best.score)
  }

  /** The support of the first hypothesis the place belongs to, one if there is none. */
  function SupportOf(hs: seq<LoopIndex.Hypothesis>, c: Cluster, gap: nat): (support: nat)
    ensures (forall i :: 0 <= i < |hs| ==> !LoopIndex.SamePlace(hs[i], AsPlace(c), gap)) ==> support == 1
    ensures forall i :: 0 <= i < |hs| && LoopIndex.SamePlace(hs[i], AsPlace(c), gap)
                        && (forall j :: 0 <= j < i ==> !LoopIndex.SamePlace(hs[j], AsPlace(c), gap)) ==>
              support == hs[i].support
  {
    if hs == [] then 1
    else if LoopIndex.SamePlace(hs[0], AsPlace(c), gap) then hs[0].support
    else SupportOf(hs[1..], c, gap)
  }

  function Gap(window: nat): nat {
    if window > 1 then window else 1
  }

  /** Steps 1 to 4 of a query: the eligible hits, gathered into places. */
  method Retrieve(hits: seq<(nat, real)>, cache: map<nat, LoopIndex.Cached>, here: Here, window: nat, minScore: real,
                  top: nat)
    returns (clusters: seq<Cluster>, ghost scored: seq<Found>, ghost upto: nat)
    requires top >= 1 && forall i, j :: 0 <= i < j < |hits| ==> hits[i].0 != hits[j].0
    ensures AllApart(clusters, Gap(window)) && Components(scored, clusters, Gap(window), false)
    ensures upto <= |hits| && (upto == |hits| || |scored| == top)
    ensures ListsEligible(scored, hits[..upto], SubmapOf(cache), here.query, here.submap, window, minScore)
    ensures forall f :: f in scored ==> f.id in cache && Temporal(f, here.query, here.submap, window)
  {
    hide AllApart, Components, Temporal, ListsEligible, Eligible;
    var eligible;
    eligible, upto := FilterHits(hits, SubmapOf(cache), here.query, here.submap, window, minScore, top);
    scored := eligible;
    ScoredAreTemporal(scored, hits[..upto], SubmapOf(cache), here.query, here.submap, window, minScore);
    clusters := RetrievedPlaces(eligible, Gap(window));
  }

  /** A retrieved place as a candidate, with the support of its hypothesis. */
  function AsCandidate(c: Cluster, hypotheses: seq<LoopIndex.Hypothesis>, gap: nat): Candidate {
    Candidate(c, SupportOf(hypotheses, c, gap), false)
  }

  /** The best ranked retrieved places, best first, twelve of them if there are as many. */
  ghost predicate Ranking(ranked: seq<Candidate>, clusters: seq<Cluster>, hypotheses: seq<LoopIndex.Hypothesis>,
                          gap: nat) {
    && |ranked| <= MAX_PLACES && SortedBy(ranked, RanksBefore)
    && (forall c :: c in ranked ==> c.place in clusters && c == AsCandidate(c.place, hypotheses, gap))
    && (forall c :: c in clusters ==> RankedOrWorse(AsCandidate(c, hypotheses, gap), ranked))
  }

  /** The first are the best ranked, as many as there are or as the priors leave room for; the rest are the priors. */
  ghost predicate Joined(out: seq<Candidate>, keep: nat, ranked: seq<Candidate>) {
    && keep <= |ranked| && keep <= |out| <= MAX_PLACES && out[..keep] == ranked[..keep]
    && (keep == |ranked| || |out| == MAX_PLACES)
  }

  /**
   * The place of f is a prior of its own, or a retrieved place covers it, or there are four priors at least as near.
   */
  ghost predicate Settled(f: Found, priors: seq<Candidate>, ranked: seq<Candidate>, places: seq<Cluster>, gap: nat) {
    exists p :: p in places && f in p.members
                && (Served(ranked, priors, p, gap)
                    || (|priors| == MAX_PRIORS && forall c :: c in priors ==> Nearer(c.place, p)))
  }

  /** priors are the nearest places of near that no ranked place covers, nearest first, at most four. */
  ghost predicate Nearest(priors: seq<Candidate>, ranked: seq<Candidate>, near: seq<Found>, places: seq<Cluster>,
                          gap: nat) {
    && Components(near, places, gap, true) && SortedBy(PlacesOf(priors), Nearer) && ApartFrom(ranked, priors, gap)
    && |priors| <= MAX_PRIORS && (forall c :: c in priors ==> c.place in places && c == Candidate(c.place, 1, true))
    && (forall f :: f in near ==> Settled(f, priors, ranked, places, gap))
  }

  /** Step 6: the places ranked by their support. */
  method RankRetrieved(clusters: seq<Cluster>, hypotheses: seq<LoopIndex.Hypothesis>, gap: nat)
    returns (ranked: seq<Candidate>)
    requires AllApart(clusters, gap) && Proper(clusters)
    ensures Ranking(ranked, clusters, hypotheses, gap) && AllApart(PlacesOf(ranked), gap)
  {
    hide AllApart, Proper, SortedBy, RanksBefore, SupportOf, RankedOrWorse;
    var supports := seq(|clusters|, i requires 0 <= i < |clusters| => SupportOf(hypotheses, clusters[i], gap));
    ranked := RankPlaces(clusters, supports, gap);
    RankingOf(ranked, clusters, supports, hypotheses, gap);
  }

  lemma RankingOf(ranked: seq<Candidate>, clusters: seq<Cluster>, supports: seq<nat>,
                  hypotheses: seq<LoopIndex.Hypothesis>, gap: nat)
    requires |supports| == |clusters| && |ranked| <= MAX_PLACES && SortedBy(ranked, RanksBefore)
    requires forall i :: 0 <= i < |clusters| ==> supports[i] == SupportOf(hypotheses, clusters[i], gap)
    requires forall c :: c in ranked ==> Annotated(c, clusters, supports)
    requires forall i :: 0 <= i < |clusters| ==> RankedOrWorse(Candidate(clusters[i], supports[i], false), ranked)
    ensures Ranking(ranked, clusters, hypotheses, gap)
  {
    hide SortedBy, RanksBefore, SupportOf, RankedOrWorse;
    forall c | c in ranked
      ensures c.place in clusters && c == AsCandidate(c.place, hypotheses, gap)
    {
      var i :| 0 <= i < |clusters| && c == Candidate(clusters[i], supports[i], false);
    }
    forall c | c in clusters
      ensures RankedOrWorse(AsCandidate(c, hypotheses, gap), ranked)
    {
      var i :| 0 <= i < |clusters| && clusters[i] == c;
    }
  }

  /** Step 7, first half: the position priors no ranked place covers. */
  method NearestPriors(ranked: seq<Candidate>, near: seq<Found>, gap: nat)
    returns (priors: seq<Candidate>, ghost places: seq<Cluster>)
    requires forall i, j :: 0 <= i < j < |near| ==> near[i].id != near[j].id
    ensures Nearest(priors, ranked, near, places, gap) && AllApart(PlacesOf(priors), gap)
  {
    hide AllApart, Components, SortedBy, Nearer, ApartFrom, Served, NearestFirst;
    var found := PriorPlaces(near, gap);
    places := found;
    ghost var upto;
    priors, upto := ChoosePriors(ranked, found, gap);
    NearestOf(priors, ranked, near, places, upto, gap);
  }

  lemma NearestOf(priors: seq<Candidate>, ranked: seq<Candidate>, near: seq<Found>, places: seq<Cluster>, upto: nat,
                  gap: nat)
    requires Components(near, places, gap, true) && ApartFrom(ranked, priors, gap) && |priors| <= MAX_PRIORS
    requires upto <= |places| && (upto == |places| || |priors| == MAX_PRIORS) && NearestFirst(priors, places, upto)
    requires forall c :: c in priors ==> c.prior && c.place in places
    requires forall n :: 0 <= n < upto ==> Served(ranked, priors, places[n], gap)
    ensures Nearest(priors, ranked, near, places, gap)
  {
    hide Components, Nearer, ApartFrom, Served;
    ComponentsParts(near, places, gap, true);
    forall f | f in near
      ensures Settled(f, priors, ranked, places, gap)
    {
      var p :| p in places && f in p.members;
      var n :| 0 <= n < |places| && places[n] == p;
    }
  }

  /** Steps 6 and 7: the places ranked by their support, and the position priors joined to them. */
  method Candidates(clusters: seq<Cluster>, ghost scored: seq<Found>, hypotheses: seq<LoopIndex.Hypothesis>,
                    cache: map<nat, LoopIndex.Cached>, here: Here, window: nat, priorWindow: nat, priorLimit: real)
    returns (out: seq<Candidate>, keep: nat, ghost ranked: seq<Candidate>, ghost near: seq<Found>,
             ghost places: seq<Cluster>)
    requires AllApart(clusters, Gap(window)) && Components(scored, clusters, Gap(window), false)
    requires forall f :: f in scored ==> f.id in cache && Temporal(f, here.query, here.submap, window)
    ensures Ranking(ranked, clusters, hypotheses, Gap(window)) && Joined(out, keep, ranked)
    ensures forall f :: f in near <==> IsPrior(f, cache, here, priorWindow, priorLimit)
    ensures Nearest(out[keep..], ranked, near, places, Gap(window))
    ensures AllApart(PlacesOf(out), Gap(window))
    ensures keep <= |out| <= keep + MAX_PRIORS && forall i :: 0 <= i < |out| ==> (out[i].prior <==> i >= keep)
    ensures forall c :: c in out ==> Allowed(c, cache, here, window, priorWindow)
    ensures |out| < MAX_PLACES ==> forall f :: f in scored ==> Placed(f, PlacesOf(out[..keep]))
  {
    hide AllApart, Proper, Components, Ranking, Nearest, Apart, Placed, Temporal, IsPrior, Allowed;
    var gap := Gap(window);
    ComponentsParts(scored, clusters, gap, false);
    var best := RankRetrieved(clusters, hypotheses, gap);
    ranked := best;
    var found := PositionPriors(cache, here, priorWindow, priorLimit);
    near := found;
    var priors;
    priors, places := NearestPriors(best, found, gap);
    NearestParts(priors, ranked, near, places, gap);
    RankingParts(ranked, clusters, hypotheses, gap);
    out, keep := Merge(best, priors, gap);
    assert out[keep..] == priors;
    OutcomeComplete(scored, clusters, hypotheses, ranked, priors, out, keep, gap);
    PriorsAreTemporal(near, cache, here, priorWindow, priorLimit);
    OutcomeAllowed(scored, clusters, ranked, near, places, priors, out, cache, here, window, priorWindow);
    OutcomeShape(ranked, priors, out, keep);
  }

  lemma NearestParts(priors: seq<Candidate>, ranked: seq<Candidate>, near: seq<Found>, places: seq<Cluster>, gap: nat)
    requires Nearest(priors, ranked, near, places, gap)
    ensures |priors| <= MAX_PRIORS && ApartFrom(ranked, priors, gap)
    ensures forall c :: c in priors ==> c.prior && c.place in places
    ensures forall c :: c in places ==> c.best in near && forall f :: f in c.members ==> f in near
  {
    hide Components, Nearer, ApartFrom, Settled, Placed;
    ComponentsParts(near, places, gap, true);
  }

  lemma RankingParts(ranked: seq<Candidate>, clusters: seq<Cluster>, hypotheses: seq<LoopIndex.Hypothesis>, gap: nat)
    requires Ranking(ranked, clusters, hypotheses, gap)
    ensures |ranked| <= MAX_PLACES && forall c :: c in ranked ==> !c.prior && c.place in clusters
  {
    hide RanksBefore, SupportOf, RankedOrWorse;
  }

  /** Every member obeys the temporal filter of its kind, and the place is named by an indexed keyframe. */
  ghost predicate Allowed(c: Candidate, cache: map<nat, LoopIndex.Cached>, here: Here, window: nat, priorWindow: nat) {
    AllTemporal(c.place, here.query, here.submap, if c.prior then priorWindow else window) && c.place.best.id in cache
  }

  /** The places of a query as the hypotheses take them up. */
  function AsPlaces(clusters: seq<Cluster>): seq<LoopIndex.Place> {
    seq(|clusters|, i requires 0 <= i < |clusters| => AsPlace(clusters[i]))
  }

  /** What a query finds on its way: eligible hits, their places, the ranked ones, and the position priors. */
  datatype Findings = Findings(scored: seq<Found>, upto: nat, clusters: seq<Cluster>, ranked: seq<Candidate>,
                               near: seq<Found>, places: seq<Cluster>)

  /**
   * The whole query, from the backend's hits on: places, then hypotheses, then at most twelve candidates to verify.
   */
  method DetectLoop(index: LoopIndex.Index, hits: seq<(nat, real)>, here: Here, window: nat, minScore: real, top: nat,
                    priorWindow: nat, priorLimit: real)
    returns (out: seq<Candidate>, keep: nat, ghost steps: Findings)
    requires index.Valid() && top >= 1 && forall i, j :: 0 <= i < j < |hits| ==> hits[i].0 != hits[j].0
    modifies index`store, index`querySerial
    ensures index.Valid() && index.querySerial == old(index.querySerial) + 1
    ensures index.store == old(index.store).(hypotheses := index.store.hypotheses)
    // the eligible hits and their places, folded into the hypotheses
    ensures steps.upto <= |hits| && (steps.upto == |hits| || |steps.scored| == top)
    ensures ListsEligible(steps.scored, hits[..steps.upto], SubmapOf(index.store.cache), here.query, here.submap,
                          window, minScore)
    ensures Components(steps.scored, steps.clusters, Gap(window), false)
    ensures var seen := LoopIndex.ObservedAll(old(index.store.hypotheses), AsPlaces(steps.clusters), here.query,
                                              index.querySerial, Gap(window));
            LoopIndex.KeptBest(LoopIndex.Recent(seen, index.querySerial), index.store.hypotheses)
    // the candidates: the best ranked places, and the nearest priors none of them covers
    ensures Ranking(steps.ranked, steps.clusters, index.store.hypotheses, Gap(window))
    ensures Joined(out, keep, steps.ranked)
    ensures forall f :: f in steps.near <==> IsPrior(f, index.store.cache, here, priorWindow, priorLimit)
    ensures Nearest(out[keep..], steps.ranked, steps.near, steps.places, Gap(window))
    ensures AllApart(PlacesOf(out), Gap(window))
    ensures keep <= |out| <= keep + MAX_PRIORS && forall i :: 0 <= i < |out| ==> (out[i].prior <==> i >= keep)
    ensures forall c :: c in out ==> Allowed(c, index.store.cache, here, window, priorWindow)
    ensures |out| < MAX_PLACES ==> forall f :: f in steps.scored ==> Placed(f, PlacesOf(out[..keep]))
  {
    hide AllApart, Components, Placed, Temporal, ListsEligible, Allowed, LoopIndex.Index.Valid, LoopIndex.KeptBest,
         LoopIndex.Recent, LoopIndex.ObservedAll, SubmapOf, Ranking, Nearest, Joined, IsPrior, Proper;
    var clusters;
    ghost var scored, upto, ranked, near, places;
    clusters, scored, upto := Retrieve(hits, index.store.cache, here, window, minScore, top);
    ComponentsParts(scored, clusters, Gap(window), false);
    var seen := AsPlaces(clusters);
    assert forall i :: 0 <= i < |seen| ==> clusters[i] in clusters && seen[i].id == clusters[i].best.id;
    index.ObservePlaces(here.query, seen, Gap(window));
    out, keep, ranked, near, places := Candidates(clusters, scored, index.store.hypotheses, index.store.cache, here,
                                                  window, priorWindow, priorLimit);
    steps := Findings(scored, upto, clusters, ranked, near, places);
  }

  lemma PriorsAreTemporal(near: seq<Found>, cache: map<nat, LoopIndex.Cached>, here: Here, window: nat, limit: real)
    requires forall f :: f in near ==> IsPrior(f, cache, here, window, limit)
    ensures forall f :: f in near ==> f.id in cache && Temporal(f, here.query, here.submap, window)
  {
    hide Temporal, Away;
  }

  lemma ScoredAreTemporal(scored: seq<Found>, hits: seq<(nat, real)>, submapOf: map<nat, nat>, query: nat, submap: nat,
                          window: nat, minScore: real)
    requires ListsEligible(scored, hits, submapOf, query, submap, window, minScore)
    ensures forall f :: f in scored ==> f.id in submapOf && Temporal(f, query, submap, window)
  {
    hide Temporal;
  }

  lemma OutcomeComplete(scored: seq<Found>, clusters: seq<Cluster>, hypotheses: seq<LoopIndex.Hypothesis>,
                        ranked: seq<Candidate>, priors: seq<Candidate>, out: seq<Candidate>, keep: nat, gap: nat)
    requires Ranking(ranked, clusters, hypotheses, gap) && keep <= |ranked|
    requires out == ranked[..keep] + priors && (keep == |ranked| || keep + |priors| == MAX_PLACES)
    requires forall f :: f in scored ==> Placed(f, clusters)
    ensures keep <= |out|
    ensures |out| < MAX_PLACES ==> forall f :: f in scored ==> Placed(f, PlacesOf(out[..keep]))
  {
    hide RanksBefore, SupportOf, SortedBy;
    if |out| < MAX_PLACES {
      assert out[..keep] == ranked;
      forall f | f in scored
        ensures Placed(f, PlacesOf(ranked))
      {
        var c :| c in clusters && f in c.members;
        var k :| 0 <= k < |ranked| && ranked[k] == AsCandidate(c, hypotheses, gap);
        assert PlacesOf(ranked)[k] == c;
      }
    }
  }

  lemma OutcomeShape(ranked: seq<Candidate>, priors: seq<Candidate>, out: seq<Candidate>, keep: nat)
    requires |priors| <= MAX_PRIORS && keep <= |ranked| && out == ranked[..keep] + priors
    requires (forall c :: c in ranked ==> !c.prior) && (forall c :: c in priors ==> c.prior)
    ensures keep <= |out| <= keep + MAX_PRIORS && forall i :: 0 <= i < |out| ==> (out[i].prior <==> i >= keep)
  {
    forall i | 0 <= i < |out|
      ensures out[i].prior <==> i >= keep
    {
      if i < keep {
        assert out[i] == ranked[i] && ranked[i] in ranked;
      } else {
        assert out[i] == priors[i - keep] && priors[i - keep] in priors;
      }
    }
  }

  lemma OutcomeAllowed(scored: seq<Found>, clusters: seq<Cluster>, ranked: seq<Candidate>,
                       near: seq<Found>, places: seq<Cluster>, priors: seq<Candidate>, out: seq<Candidate>,
                       cache: map<nat, LoopIndex.Cached>, here: Here, window: nat, priorWindow: nat)
    requires forall f :: f in scored ==> f.id in cache && Temporal(f, here.query, here.submap, window)
    requires forall f :: f in near ==> f.id in cache && Temporal(f, here.query, here.submap, priorWindow)
    requires forall c :: c in clusters ==> c.best in scored && forall f :: f in c.members ==> f in scored
    requires forall c :: c in places ==> c.best in near && forall f :: f in c.members ==> f in near
    requires forall c :: c in ranked ==> !c.prior && c.place in clusters
    requires forall c :: c in priors ==> c.prior && c.place in places
    requires forall c :: c in out ==> c in ranked || c in priors
    ensures forall c :: c in out ==> Allowed(c, cache, here, window, priorWindow)
  {
    hide Temporal;
  }
}
