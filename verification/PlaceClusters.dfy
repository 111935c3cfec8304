/** From retrieval hits to bounded, well separated place candidates. */
module PlaceClusters {
  /** A historical keyframe with its similarity, or its distance when it comes from the position prior. */
  datatype Found = Found(id: nat, submap: nat, score: real)

  predicate Linked(a: Found, b: Found, gap: nat) {
    a.submap == b.submap && (if a.id <= b.id then b.id - a.id <= gap else a.id - b.id <= gap)
  }

  predicate InOrder(a: Found, b: Found) {
    a.submap < b.submap || (a.submap == b.submap && a.id <= b.id)
  }

  ghost predicate Ordered(s: seq<Found>) {
    forall i, j :: 0 <= i < j < |s| ==> InOrder(s[i], s[j])
  }

  // ---- filtering -------------------------------------------------------------------

  /** Inside one submap a candidate must lie at least window frames back; across submaps ids are not compared. */
  predicate Temporal(f: Found, query: nat, submap: nat, window: nat) {
    f.submap == submap ==> f.id < query && query - f.id >= window
  }

  /** A hit the query may return: similar enough, cached, and outside the temporal window. */
  predicate Eligible(hit: (nat, real), submapOf: map<nat, nat>, query: nat, submap: nat, window: nat, minScore: real) {
    hit.1 >= minScore && hit.0 in submapOf && Temporal(Found(hit.0, submapOf[hit.0], hit.1), query, submap, window)
  }

  /** scored lists exactly the eligible ones among these hits. */
  ghost predicate ListsEligible(scored: seq<Found>, hits: seq<(nat, real)>, submapOf: map<nat, nat>, query: nat,
                                submap: nat,
                                window: nat, minScore: real) {
    && (forall f :: f in scored ==>
          && (f.id, f.score) in hits && f.id in submapOf && submapOf[f.id] == f.submap
          && Eligible((f.id, f.score), submapOf, query, submap, window, minScore))
    && (forall h :: h in hits && Eligible(h, submapOf, query, submap, window, minScore) ==>
          Found(h.0, submapOf[h.0], h.1) in scored)
  }

  /** The eligible hits, from the front until top of them are found. */
  method FilterHits(hits: seq<(nat, real)>, submapOf: map<nat, nat>, query: nat, submap: nat,
                    window: nat, minScore: real, top: nat) returns (scored: seq<Found>, ghost upto: nat)
    requires top >= 1 && forall i, j :: 0 <= i < j < |hits| ==> hits[i].0 != hits[j].0
    ensures |scored| <= top && forall i, j :: 0 <= i < j < |scored| ==> scored[i].id != scored[j].id
    ensures upto <= |hits| && (upto == |hits| || |scored| == top)
    ensures ListsEligible(scored, hits[..upto], submapOf, query, submap, window, minScore)
  {
    scored, upto := [], 0;
    for i := 0 to |hits|
      invariant |scored| < top && upto == i
      invariant ListsEligible(scored, hits[..i], submapOf, query, submap, window, minScore)
      invariant forall j, k :: 0 <= j < k < |scored| ==> scored[j].id != scored[k].id
    {
      var (id, score) := hits[i];
      assert hits[..i + 1] == hits[..i] + [hits[i]];
      upto := i + 1;
      if score >= minScore && id in submapOf {
        var f := Found(id, submapOf[id], score);
        if !(f.submap == submap && (id >= query || query - id < window)) {
          NewId(hits, i, scored);
          scored := scored + [f];
          if |scored| >= top {
            return;
          }
        }
      }
    }
    assert hits[..|hits|] == hits;
  }

  lemma NewId(hits: seq<(nat, real)>, i: nat, scored: seq<Found>)
    requires i < |hits| && forall j, k :: 0 <= j < k < |hits| ==> hits[j].0 != hits[k].0
    requires forall f :: f in scored ==> (f.id, f.score) in hits[..i]
    ensures forall j :: 0 <= j < |scored| ==> scored[j].id != hits[i].0
  {
    forall j | 0 <= j < |scored|
      ensures scored[j].id != hits[i].0
    {
      assert scored[j] in scored;
      var k :| 0 <= k < i && hits[..i][k] == (scored[j].id, scored[j].score);
      assert hits[k] == hits[..i][k];
    }
  }

  // ---- cutting an ordered list into places ---------------------------------------------

  /**
   * cuts are the places' start positions plus the end: a position is a cut exactly if it is not linked to the one
   * before.
   */
  ghost predicate CutsOf(s: seq<Found>, cuts: seq<nat>, gap: nat) {
    && cuts != [] && cuts[0] == 0 && cuts[|cuts| - 1] == |s|
    && (forall i, j :: 0 <= i < j < |cuts| ==> cuts[i] < cuts[j])
    && (forall p: nat {:trigger p in cuts} :: 0 < p < |s| ==> (p in cuts <==> !Linked(s[p - 1], s[p], gap)))
  }

  /** No cut separates positions p and q. */
  ghost predicate SamePlace(cuts: seq<nat>, p: nat, q: nat) {
    forall c :: c in cuts ==> !(p < c <= q) && !(q < c <= p)
  }

  ghost predicate IsPath(s: seq<Found>, gap: nat, path: seq<nat>, p: nat, q: nat) {
    && path != [] && path[0] == p && path[|path| - 1] == q
    && (forall i :: 0 <= i < |path| ==> path[i] < |s|)
    && (forall i :: 0 < i < |path| ==> Linked(s[path[i - 1]], s[path[i]], gap))
  }

  /** p and q are connected by keyframes that are pairwise no further than gap apart in one submap. */
  ghost predicate Connected(s: seq<Found>, gap: nat, p: nat, q: nat) {
    exists path :: IsPath(s, gap, path, p, q)
  }

  lemma NoLinkAcross(s: seq<Found>, gap: nat, p: nat, c: nat, q: nat)
    requires Ordered(s) && p < c <= q < |s| && !Linked(s[c - 1], s[c], gap)
    ensures !Linked(s[p], s[q], gap) && !Linked(s[q], s[p], gap)
  {
    OrderedAt(s, p, c - 1);
    OrderedAt(s, c - 1, c);
    OrderedAt(s, c, q);
  }

  lemma OrderedAt(s: seq<Found>, i: nat, j: nat)
    requires Ordered(s) && i <= j < |s|
    ensures InOrder(s[i], s[j])
  {
  }

  lemma {:induction false} PathStays(s: seq<Found>, cuts: seq<nat>, gap: nat, path: seq<nat>, p: nat, q: nat)
    requires Ordered(s) && CutsOf(s, cuts, gap) && IsPath(s, gap, path, p, q)
    ensures SamePlace(cuts, p, q)
    decreases |path|
  {
    if |path| > 1 {
      var n := |path| - 1;
      var m := path[n - 1];
      assert Linked(s[m], s[q], gap);
      assert IsPath(s, gap, path[..n], p, m);
      PathStays(s, cuts, gap, path[..n], p, m);
      StepStays(s, cuts, gap, m, q);
    }
  }

  lemma StepStays(s: seq<Found>, cuts: seq<nat>, gap: nat, m: nat, q: nat)
    requires Ordered(s) && CutsOf(s, cuts, gap) && m < |s| && q < |s| && Linked(s[m], s[q], gap)
    ensures SamePlace(cuts, m, q)
  {
    forall c | c in cuts
      ensures !(m < c <= q) && !(q < c <= m)
    {
      if m < c <= q {
        NoLinkAcross(s, gap, m, c, q);
      } else if q < c <= m {
        NoLinkAcross(s, gap, q, c, m);
      }
    }
  }

  lemma {:induction false} WalkConnects(s: seq<Found>, cuts: seq<nat>, gap: nat, p: nat, q: nat)
    requires CutsOf(s, cuts, gap) && p <= q < |s| && SamePlace(cuts, p, q)
    ensures Connected(s, gap, p, q)
    decreases q - p
  {
    if p == q {
      assert IsPath(s, gap, [p], p, q);
    } else {
      WalkConnects(s, cuts, gap, p, q - 1);
      var path :| IsPath(s, gap, path, p, q - 1);
      assert q !in cuts;
      assert IsPath(s, gap, path + [q], p, q);
    }
  }

  lemma {:induction false} PathReverses(s: seq<Found>, gap: nat, p: nat, q: nat)
    requires Connected(s, gap, p, q)
    ensures Connected(s, gap, q, p)
  {
    var path :| IsPath(s, gap, path, p, q);
    var back := seq(|path|, i requires 0 <= i < |path| => path[|path| - 1 - i]);
    assert IsPath(s, gap, back, q, p);
  }

  /** The places are exactly the connected components of "same submap, ids at most gap apart". */
  lemma {:induction false} PlacesAreComponents(s: seq<Found>, cuts: seq<nat>, gap: nat, p: nat, q: nat)
    requires Ordered(s) && CutsOf(s, cuts, gap) && p < |s| && q < |s|
    ensures SamePlace(cuts, p, q) <==> Connected(s, gap, p, q)
  {
    if SamePlace(cuts, p, q) {
      if p <= q {
        WalkConnects(s, cuts, gap, p, q);
      } else {
        WalkConnects(s, cuts, gap, q, p);
        PathReverses(s, gap, q, p);
      }
    }
    if Connected(s, gap, p, q) {
      var path :| IsPath(s, gap, path, p, q);
      PathStays(s, cuts, gap, path, p, q);
    }
  }

  // ---- the two scans ---------------------------------------------------------------------

  /** A place: its representative, its members in order, and the interval of their ids. */
  datatype Cluster = Cluster(best: Found, members: seq<Found>, lo: nat, hi: nat)

  /** Start positions of the places met in the first i elements. */
  ghost predicate Starts(s: seq<Found>, i: nat, starts: seq<nat>, gap: nat)
    requires i <= |s|
  {
    && (i == 0 <==> starts == []) && (i > 0 ==> starts[0] == 0)
    && (forall j, k :: 0 <= j < k < |starts| ==> starts[j] < starts[k])
    && (forall j :: 0 <= j < |starts| ==> starts[j] < i)
    && (forall p: nat {:trigger p in starts} :: 0 < p < i ==> (p in starts <==> !Linked(s[p - 1], s[p], gap)))
  }

  lemma StartsStep(s: seq<Found>, i: nat, starts: seq<nat>, gap: nat)
    requires i < |s| && Starts(s, i, starts, gap)
    ensures i == 0 || !Linked(s[i - 1], s[i], gap) ==> Starts(s, i + 1, starts + [i], gap)
    ensures i > 0 && Linked(s[i - 1], s[i], gap) ==> Starts(s, i + 1, starts, gap)
  {
    hide Linked;
  }

  lemma StartsAreCuts(s: seq<Found>, starts: seq<nat>, gap: nat)
    requires Starts(s, |s|, starts, gap)
    ensures CutsOf(s, starts + [|s|], gap)
  {
    hide Linked;
  }

  /** Where place k ends when i elements have been read. */
  function EndOf(starts: seq<nat>, i: nat, k: nat): nat
    requires k < |starts|
  {
    if k + 1 < |starts| then starts[k + 1] else i
  }

  ghost predicate IsPlace(s: seq<Found>, from: nat, to: nat, c: Cluster, closer: bool) {
    && from < to <= |s| && c.members == s[from..to] && c.lo == s[from].id && c.hi == s[to - 1].id
    && IsBest(c.best, c.members, closer)
  }

  /** Best score, or smallest distance when closer; among equals the smaller id. */
  ghost predicate IsBest(b: Found, members: seq<Found>, closer: bool) {
    && b in members
    && forall m :: m in members ==>
      && (if closer then b.score <= m.score else b.score >= m.score) && (b.score == m.score ==> b.id <= m.id)
  }

  predicate Beats(a: Found, b: Found, closer: bool) {
    if closer then a.score < b.score else a.score > b.score
  }

  ghost predicate PlacesUpTo(s: seq<Found>, i: nat, starts: seq<nat>, clusters: seq<Cluster>, closer: bool)
    requires i <= |s|
  {
    |clusters| == |starts| && forall k {:trigger clusters[k]} :: 0 <= k < |clusters| ==>
      IsPlace(s, starts[k], EndOf(starts, i, k), clusters[k], closer)
  }

  lemma PlaceAt(s: seq<Found>, i: nat, starts: seq<nat>, clusters: seq<Cluster>, gap: nat, closer: bool, k: nat)
    requires i <= |s| && Starts(s, i, starts, gap) && PlacesUpTo(s, i, starts, clusters, closer) && k < |clusters|
    ensures |clusters| == |starts| && IsPlace(s, starts[k], EndOf(starts, i, k), clusters[k], closer)
  {
    hide IsPlace, Linked;
  }

  lemma SamePlaces(s: seq<Found>, i: nat, starts: seq<nat>, clusters: seq<Cluster>, gap: nat, closer: bool)
    requires i <= |s| && Starts(s, i, starts, gap) && PlacesUpTo(s, i, starts, clusters, closer)
    ensures |clusters| == |starts| && (clusters == [] <==> i == 0)
  {
    hide IsPlace, Linked;
  }

  lemma SingletonPlace(s: seq<Found>, i: nat, closer: bool)
    requires i < |s|
    ensures IsPlace(s, i, i + 1, Cluster(s[i], [s[i]], s[i].id, s[i].id), closer)
  {
    assert s[i..i + 1] == [s[i]];
  }

  lemma NewPlace(s: seq<Found>, i: nat, starts: seq<nat>, clusters: seq<Cluster>, gap: nat, closer: bool)
    requires i < |s| && Starts(s, i, starts, gap) && PlacesUpTo(s, i, starts, clusters, closer)
    ensures PlacesUpTo(s, i + 1, starts + [i], clusters + [Cluster(s[i], [s[i]], s[i].id, s[i].id)], closer)
  {
    hide IsPlace, Linked, Starts;
    SingletonPlace(s, i, closer);
  }

  function Extended(c: Cluster, f: Found, closer: bool): Cluster {
    Cluster(if Beats(f, c.best, closer) || (f.score == c.best.score && f.id < c.best.id) then f else c.best,
            c.members + [f], c.lo, f.id)
  }

  lemma ExtendPlace(s: seq<Found>, from: nat, i: nat, c: Cluster, closer: bool)
    requires i < |s| && IsPlace(s, from, i, c, closer)
    ensures IsPlace(s, from, i + 1, Extended(c, s[i], closer), closer)
  {
    assert s[from..i + 1] == s[from..i] + [s[i]];
  }

  lemma LongerPlace(s: seq<Found>, i: nat, starts: seq<nat>, clusters: seq<Cluster>, gap: nat, closer: bool)
    requires 0 < i < |s| && Starts(s, i, starts, gap) && PlacesUpTo(s, i, starts, clusters, closer)
    ensures var n := |clusters| - 1;
            n >= 0 && PlacesUpTo(s, i + 1, starts, clusters[n := Extended(clusters[n], s[i], closer)], closer)
  {
    hide IsPlace, Linked, Starts, Extended;
    SamePlaces(s, i, starts, clusters, gap, closer);
    var n := |clusters| - 1;
    ExtendPlace(s, starts[n], i, clusters[n], closer);
  }

  /** The retrieval scan: extend the last place or open the next one. */
  method ScanPlaces(s: seq<Found>, gap: nat) returns (clusters: seq<Cluster>, ghost starts: seq<nat>)
    requires Ordered(s) && forall i, j :: 0 <= i < j < |s| ==> s[i].id != s[j].id
    ensures Starts(s, |s|, starts, gap) && PlacesUpTo(s, |s|, starts, clusters, false)
  {
    hide Starts, PlacesUpTo, Linked, Ordered;
    clusters, starts := [], [];
    NothingScanned(s, gap);
    for i := 0 to |s|
      invariant Starts(s, i, starts, gap) && PlacesUpTo(s, i, starts, clusters, false)
    {
      StartsStep(s, i, starts, gap);
      LastPlace(s, i, starts, clusters, gap);
      if i > 0 {
        OrderedAt(s, i - 1, i);
        LinkedInOrder(s[i - 1], s[i], gap);
      }
      var f := s[i];
      if clusters == [] || clusters[|clusters| - 1].best.submap != f.submap
         || (f.id > clusters[|clusters| - 1].hi && f.id - clusters[|clusters| - 1].hi > gap) {
        NewPlace(s, i, starts, clusters, gap, false);
        clusters, starts := clusters + [Cluster(f, [f], f.id, f.id)], starts + [i];
      } else {
        LongerPlace(s, i, starts, clusters, gap, false);
        clusters := clusters[|clusters| - 1 := Extended(clusters[|clusters| - 1], f, false)];
      }
    }
  }

  lemma LinkedInOrder(a: Found, b: Found, gap: nat)
    requires InOrder(a, b)
    ensures Linked(a, b, gap) <==> a.submap == b.submap && !(b.id > a.id && b.id - a.id > gap)
  {
  }

  lemma NothingScanned(s: seq<Found>, gap: nat)
    ensures Starts(s, 0, [], gap) && PlacesUpTo(s, 0, [], [], false) && PlacesUpTo(s, 0, [], [], true)
  {
  }

  /** The last place ends with the element just read, and all of it lies in that element's submap. */
  lemma LastPlace(s: seq<Found>, i: nat, starts: seq<nat>, clusters: seq<Cluster>, gap: nat)
    requires i < |s| && Starts(s, i, starts, gap) && PlacesUpTo(s, i, starts, clusters, false)
    ensures clusters == [] <==> i == 0
    ensures i > 0 ==>
      clusters[|clusters| - 1].hi == s[i - 1].id && clusters[|clusters| - 1].best.submap == s[i - 1].submap
  {
    hide IsPlace, Linked, Starts, PlacesUpTo;
    SamePlaces(s, i, starts, clusters, gap, false);
    if i > 0 {
      var n := |clusters| - 1;
      PlaceAt(s, i, starts, clusters, gap, false, n);
      var p := BestPosition(s, starts[n], i, clusters[n], false);
      OneSubmap(s, i, starts, gap, p);
    }
  }

  lemma BestPosition(s: seq<Found>, from: nat, to: nat, c: Cluster, closer: bool) returns (p: nat)
    requires IsPlace(s, from, to, c, closer)
    ensures from <= p < to <= |s| && s[p] == c.best && c.lo == s[from].id && c.hi == s[to - 1].id
  {
    var k :| 0 <= k < |c.members| && c.members[k] == c.best;
    p := from + k;
  }

  lemma {:induction false} OneSubmap(s: seq<Found>, i: nat, starts: seq<nat>, gap: nat, p: nat)
    requires 0 < i <= |s| && Starts(s, i, starts, gap) && starts[|starts| - 1] <= p < i
    ensures s[p].submap == s[i - 1].submap
    decreases i - p
  {
    if p + 1 < i {
      assert p + 1 !in starts by {
        LaterThanLast(starts, p + 1);
      }
      OneSubmap(s, i, starts, gap, p + 1);
    }
  }

  lemma LaterThanLast(starts: seq<nat>, p: nat)
    requires starts != [] && starts[|starts| - 1] < p
    requires forall j, k :: 0 <= j < k < |starts| ==> starts[j] < starts[k]
    ensures p !in starts
  {
  }

  /** The position scan: the running place is emitted when the next element does not continue it. */
  method ScanPriors(s: seq<Found>, gap: nat) returns (places: seq<Cluster>, ghost starts: seq<nat>)
    requires Ordered(s)
    ensures Starts(s, |s|, starts, gap) && PlacesUpTo(s, |s|, starts, places, true)
  {
    hide Starts, PlacesUpTo, Linked, Ordered, Extended;
    places, starts := [], [];
    NothingScanned(s, gap);
    if s == [] {
      return;
    }
    StartsStep(s, 0, [], gap);
    NewPlace(s, 0, [], [], gap, true);
    starts := [0];
    assert [] + [0] == [0];
    var running := Cluster(s[0], [s[0]], s[0].id, s[0].id);
    assert places + [running] == [running];
    var i := 1;
    while i < |s|
      invariant 1 <= i <= |s|
      invariant Starts(s, i, starts, gap) && PlacesUpTo(s, i, starts, places + [running], true)
    {
      StartsStep(s, i, starts, gap);
      OrderedAt(s, i - 1, i);
      LinkedInOrder(s[i - 1], s[i], gap);
      var connected := s[i].submap == s[i - 1].submap && s[i].id >= s[i - 1].id && s[i].id - s[i - 1].id <= gap;
      if !connected {
        NewPlace(s, i, starts, places + [running], gap, true);
        places, starts := places + [running], starts + [i];
        running := Cluster(s[i], [s[i]], s[i].id, s[i].id);
      } else {
        LongerPlace(s, i, starts, places + [running], gap, true);
        assert (places + [running])[|places| := Extended(running, s[i], true)]
               == places + [Extended(running, s[i], true)];
        running := Extended(running, s[i], true);
      }
      i := i + 1;
    }
    places := places + [running];
  }

  // ---- the places found are the components ---------------------------------------------------

  /** Elements at other positions serve as well. */
  lemma OtherEnds(s: seq<Found>, gap: nat, p: nat, q: nat, p1: nat, q1: nat)
    requires Connected(s, gap, p1, q1) && p < |s| && q < |s| && p1 < |s| && q1 < |s|
    requires s[p] == s[p1] && s[q] == s[q1]
    ensures Connected(s, gap, p, q)
  {
    var path :| IsPath(s, gap, path, p1, q1);
    if |path| == 1 {
      assert IsPath(s, gap, [p, q], p, q);
    } else {
      assert IsPath(s, gap, path[0 := p][|path| - 1 := q], p, q);
    }
  }

  lemma PlaceIsBetweenCuts(s: seq<Found>, starts: seq<nat>, gap: nat, k: nat, p: nat, q: nat)
    requires Starts(s, |s|, starts, gap) && k < |starts| && starts[k] <= p < EndOf(starts, |s|, k) <= |s| && q < |s|
    ensures SamePlace(starts + [|s|], p, q) <==> starts[k] <= q < EndOf(starts, |s|, k)
  {
    hide Linked;
    var cuts, to := starts + [|s|], EndOf(starts, |s|, k);
    assert cuts[k] == starts[k] && cuts[k + 1] == to;
    assert starts[k] in cuts && to in cuts;
    forall c | c in cuts
      ensures c <= starts[k] || to <= c
    {
      var i :| 0 <= i < |cuts| && cuts[i] == c;
    }
  }

  /** Whichever scan found them: a place holds exactly the elements connected with any one of its members. */
  lemma {:induction false} ClustersAreComponents(s: seq<Found>, starts: seq<nat>, clusters: seq<Cluster>, gap: nat,
                                                 closer: bool, k: nat, p: nat, q: nat)
    requires Ordered(s) && Starts(s, |s|, starts, gap) && PlacesUpTo(s, |s|, starts, clusters, closer)
    requires k < |clusters| && p < |s| && q < |s| && s[p] in clusters[k].members
    ensures s[q] in clusters[k].members <==> Connected(s, gap, p, q)
  {
    hide Ordered, Starts, PlacesUpTo, Connected, SamePlace, Linked, IsBest;
    PlaceAt(s, |s|, starts, clusters, gap, closer, k);
    StartsAreCuts(s, starts, gap);
    var from, to, cuts := starts[k], EndOf(starts, |s|, k), starts + [|s|];
    var p1 := PositionIn(s, from, to, s[p]);
    if s[q] in clusters[k].members {
      var q1 := PositionIn(s, from, to, s[q]);
      PlaceIsBetweenCuts(s, starts, gap, k, p1, q1);
      PlacesAreComponents(s, cuts, gap, p1, q1);
      OtherEnds(s, gap, p, q, p1, q1);
    }
    if Connected(s, gap, p, q) {
      OtherEnds(s, gap, p1, q, p, q);
      PlacesAreComponents(s, cuts, gap, p1, q);
      PlaceIsBetweenCuts(s, starts, gap, k, p1, q);
      assert s[from..to][q - from] == s[q];
    }
  }

  lemma PositionIn(s: seq<Found>, from: nat, to: nat, f: Found) returns (p: nat)
    requires from <= to <= |s| && f in s[from..to]
    ensures from <= p < to && s[p] == f
  {
    var i :| 0 <= i < to - from && s[from..to][i] == f;
    p := from + i;
  }

  // ---- separation ----------------------------------------------------------------------------

  /** Two places lie in different submaps or their id intervals are more than gap apart. */
  predicate Apart(a: Cluster, b: Cluster, gap: nat) {
    a.best.submap != b.best.submap || b.lo > a.hi + gap || a.lo > b.hi + gap
  }

  ghost predicate AllApart(cs: seq<Cluster>, gap: nat) {
    forall i, j :: 0 <= i < j < |cs| ==> Apart(cs[i], cs[j], gap)
  }

  lemma PlaceBounds(s: seq<Found>, starts: seq<nat>, clusters: seq<Cluster>, gap: nat, closer: bool, k: nat)
    requires Ordered(s) && Starts(s, |s|, starts, gap) && PlacesUpTo(s, |s|, starts, clusters, closer) && k < |clusters|
    ensures IsPlace(s, starts[k], EndOf(starts, |s|, k), clusters[k], closer)
    ensures clusters[k].best.submap == s[starts[k]].submap == s[EndOf(starts, |s|, k) - 1].submap
    ensures clusters[k].lo <= clusters[k].best.id <= clusters[k].hi
  {
    hide IsPlace, Linked, Starts, PlacesUpTo, Ordered;
    PlaceAt(s, |s|, starts, clusters, gap, closer, k);
    var from, to := starts[k], EndOf(starts, |s|, k);
    var p := BestPosition(s, from, to, clusters[k], closer);
    WithinPlace(s, starts, gap, from, to - 1, k);
    WithinPlace(s, starts, gap, p, to - 1, k);
    OrderedAt(s, from, p);
    OrderedAt(s, p, to - 1);
  }

  lemma {:induction false} WithinPlace(s: seq<Found>, starts: seq<nat>, gap: nat, p: nat, q: nat, k: nat)
    requires Starts(s, |s|, starts, gap) && k < |starts| && starts[k] <= p <= q < EndOf(starts, |s|, k) <= |s|
    ensures s[p].submap == s[q].submap
    decreases q - p
  {
    if p < q {
      assert p + 1 !in starts by {
        BetweenStarts(starts, k, p + 1, EndOf(starts, |s|, k));
      }
      WithinPlace(s, starts, gap, p + 1, q, k);
    }
  }

  lemma BetweenStarts(starts: seq<nat>, k: nat, p: nat, end: nat)
    requires k < |starts| && starts[k] < p < end && (k + 1 < |starts| ==> end == starts[k + 1])
    requires forall i, j :: 0 <= i < j < |starts| ==> starts[i] < starts[j]
    ensures p !in starts
  {
    assert forall m :: 0 <= m < |starts| ==> starts[m] <= starts[k] || starts[m] >= end;
  }

  lemma LaterStart(s: seq<Found>, starts: seq<nat>, gap: nat, i: nat, j: nat)
    requires Starts(s, |s|, starts, gap) && i < j < |starts|
    ensures 0 <= starts[i] < starts[i + 1] <= starts[j] < |s| && !Linked(s[starts[i + 1] - 1], s[starts[i + 1]], gap)
  {
    hide Linked;
    assert starts[i + 1] in starts;
  }

  lemma {:induction false} TwoPlacesApart(s: seq<Found>, starts: seq<nat>, clusters: seq<Cluster>, gap: nat,
                                          closer: bool,
                                          i: nat, j: nat)
    requires Ordered(s) && Starts(s, |s|, starts, gap) && PlacesUpTo(s, |s|, starts, clusters, closer)
    requires i < j < |clusters| == |starts|
    ensures Apart(clusters[i], clusters[j], gap)
  {
    hide PlacesUpTo, Ordered, Starts, IsBest;
    PlaceBounds(s, starts, clusters, gap, closer, i);
    PlaceBounds(s, starts, clusters, gap, closer, j);
    LaterStart(s, starts, gap, i, j);
    var c := starts[i + 1];
    NoLinkAcross(s, gap, c - 1, c, starts[j]);
    OrderedAt(s, c - 1, starts[j]);
  }

  lemma {:induction false} ScannedPlacesApart(s: seq<Found>, starts: seq<nat>, clusters: seq<Cluster>, gap: nat,
                                              closer: bool)
    requires Ordered(s) && Starts(s, |s|, starts, gap) && PlacesUpTo(s, |s|, starts, clusters, closer)
    ensures AllApart(clusters, gap)
  {
    hide PlacesUpTo, Ordered, Starts, Apart;
    SameCount(s, starts, clusters, closer);
    forall i, j | 0 <= i < j < |clusters|
      ensures Apart(clusters[i], clusters[j], gap)
    {
      TwoPlacesApart(s, starts, clusters, gap, closer, i, j);
    }
  }

  /** Every element lies in one of the places. */
  lemma {:induction false} EveryoneIsPlaced(s: seq<Found>, starts: seq<nat>, clusters: seq<Cluster>, gap: nat,
                                            closer: bool, f: Found)
    requires Starts(s, |s|, starts, gap) && PlacesUpTo(s, |s|, starts, clusters, closer) && f in s
    ensures exists c :: c in clusters && f in c.members
  {
    hide Linked, IsBest;
    var p :| 0 <= p < |s| && s[p] == f;
    SamePlaces(s, |s|, starts, clusters, gap, closer);
    var k := |starts| - 1;
    while starts[k] > p
      invariant 0 <= k < |starts| && p < EndOf(starts, |s|, k)
    {
      k := k - 1;
    }
    PlaceAt(s, |s|, starts, clusters, gap, closer, k);
    assert clusters[k].members[p - starts[k]] == f;
    assert clusters[k] in clusters;
  }

  lemma SameCount(s: seq<Found>, starts: seq<nat>, clusters: seq<Cluster>, closer: bool)
    requires PlacesUpTo(s, |s|, starts, clusters, closer)
    ensures |clusters| == |starts|
  {
  }

  // ---- the places of any list -------------------------------------------------------------------

  ghost predicate Placed(f: Found, clusters: seq<Cluster>) {
    exists c :: c in clusters && f in c.members
  }

  /** With one element the place holds exactly those connected with it. */
  ghost predicate IsComponent(s: seq<Found>, c: Cluster, gap: nat) {
    forall p: nat, q: nat {:trigger Connected(s, gap, p, q)} :: p < |s| && q < |s| && s[p] in c.members ==>
      (s[q] in c.members <==> Connected(s, gap, p, q))
  }

  /** All lie in one submap, and lo and hi are the least and the greatest id among them. */
  ghost predicate Spans(c: Cluster) {
    && (forall f :: f in c.members ==> f.submap == c.best.submap && c.lo <= f.id <= c.hi)
    && (exists f :: f in c.members && f.id == c.lo) && (exists f :: f in c.members && f.id == c.hi)
  }

  /** The places of a list, in whatever order: its connected components, each with its best element and its interval. */
  ghost predicate Components(s: seq<Found>, cs: seq<Cluster>, gap: nat, closer: bool) {
    && (forall f :: f in s ==> Placed(f, cs))
    && (forall c :: c in cs ==>
          && IsBest(c.best, c.members, closer) && Spans(c) && IsComponent(s, c, gap)
          && forall f :: f in c.members ==> f in s)
  }

  ghost function PositionOf(s: seq<Found>, f: Found): (p: nat)
    requires f in s
    ensures p < |s| && s[p] == f
  {
    var p: nat :| p < |s| && s[p] == f;
    p
  }

  /** Connection does not depend on the order of a list. */
  lemma {:induction false} ConnectedAlike(s: seq<Found>, r: seq<Found>, gap: nat, p: nat, q: nat, p1: nat, q1: nat)
    requires Connected(s, gap, p, q) && forall f :: f in s ==> f in r
    requires p < |s| && q < |s| && p1 < |r| && q1 < |r| && s[p] == r[p1] && s[q] == r[q1]
    ensures Connected(r, gap, p1, q1)
  {
    hide Linked;
    var path :| IsPath(s, gap, path, p, q);
    forall i | 0 <= i < |path|
      ensures s[path[i]] in r
    {
      assert s[path[i]] in s;
    }
    var there := seq(|path|, i requires 0 <= i < |path| => PositionOf(r, s[path[i]]));
    assert IsPath(r, gap, there, PositionOf(r, s[p]), PositionOf(r, s[q]));
    OtherEnds(r, gap, p1, q1, PositionOf(r, s[p]), PositionOf(r, s[q]));
  }

  /** A scan of the sorted list finds the places of the list. */
  lemma {:induction false} ScanFindsComponents(s: seq<Found>, sorted: seq<Found>, starts: seq<nat>,
                                               clusters: seq<Cluster>,
                                               gap: nat, closer: bool)
    requires Ordered(sorted) && (forall f :: f in s <==> f in sorted)
    requires Starts(sorted, |sorted|, starts, gap) && PlacesUpTo(sorted, |sorted|, starts, clusters, closer)
    ensures Components(s, clusters, gap, closer)
  {
    hide Ordered, Starts, PlacesUpTo, IsBest, Spans, Connected, IsComponent;
    forall f | f in s
      ensures Placed(f, clusters)
    {
      EveryoneIsPlaced(sorted, starts, clusters, gap, closer, f);
    }
    forall c | c in clusters
      ensures IsBest(c.best, c.members, closer) && Spans(c) && IsComponent(s, c, gap)
      ensures forall f :: f in c.members ==> f in s
    {
      var k :| 0 <= k < |clusters| && clusters[k] == c;
      PlaceAt(sorted, |sorted|, starts, clusters, gap, closer, k);
      PlaceSpans(sorted, starts, clusters, gap, closer, k);
      ComponentOf(s, sorted, starts, clusters, gap, closer, k);
    }
  }

  lemma PlaceSpans(s: seq<Found>, starts: seq<nat>, clusters: seq<Cluster>, gap: nat, closer: bool, k: nat)
    requires Ordered(s) && Starts(s, |s|, starts, gap) && PlacesUpTo(s, |s|, starts, clusters, closer) && k < |clusters|
    ensures Spans(clusters[k])
  {
    hide Ordered, Starts, PlacesUpTo, IsBest, Linked;
    SameCount(s, starts, clusters, closer);
    PlaceBounds(s, starts, clusters, gap, closer, k);
    var c, from, to := clusters[k], starts[k], EndOf(starts, |s|, k);
    assert s[from..to][0].id == c.lo && s[from..to][to - 1 - from].id == c.hi;
    forall f | f in c.members
      ensures f.submap == c.best.submap && c.lo <= f.id <= c.hi
    {
      var p := PositionIn(s, from, to, f);
      WithinPlace(s, starts, gap, from, p, k);
      OrderedAt(s, from, p);
      OrderedAt(s, p, to - 1);
    }
  }

  lemma ComponentOf(s: seq<Found>, sorted: seq<Found>, starts: seq<nat>, clusters: seq<Cluster>, gap: nat,
                    closer: bool, k: nat)
    requires Ordered(sorted) && (forall f :: f in s <==> f in sorted) && k < |clusters|
    requires Starts(sorted, |sorted|, starts, gap) && PlacesUpTo(sorted, |sorted|, starts, clusters, closer)
    ensures IsComponent(s, clusters[k], gap)
  {
    hide Ordered, Starts, PlacesUpTo, Connected;
    forall p: nat, q: nat | p < |s| && q < |s| && s[p] in clusters[k].members
      ensures s[q] in clusters[k].members <==> Connected(s, gap, p, q)
    {
      assert s[p] in s && s[q] in s;
      var p1, q1 := PositionOf(sorted, s[p]), PositionOf(sorted, s[q]);
      ClustersAreComponents(sorted, starts, clusters, gap, closer, k, p1, q1);
      if Connected(s, gap, p, q) {
        ConnectedAlike(s, sorted, gap, p, q, p1, q1);
      }
      if Connected(sorted, gap, p1, q1) {
        ConnectedAlike(sorted, s, gap, p1, q1, p, q);
      }
    }
  }
}
