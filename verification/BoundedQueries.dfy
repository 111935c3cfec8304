/** Queries of the two bounded backends: score every keyframe that may be returned, sort, cut at the pool. */
module BoundedQueries {
  import opened BowVectors
  import opened Scoring
  import opened Sorting
  import opened PlaceClusters
  import opened LoopIndex

  type Answer = (nat, real)

  /** Higher score first, then the smaller id. */
  predicate NotAfter(a: Answer, b: Answer) {
    a.1 > b.1 || (a.1 == b.1 && a.0 <= b.0)
  }

  lemma AnswersOrder()
    ensures Orders(NotAfter)
  {
  }

  /** hits are the best of the scored ids, in order, as many as the pool holds. */
  ghost predicate BestOf(hits: seq<Answer>, scores: map<nat, real>, pool: nat) {
    && |hits| == (if |scores| > pool then pool else |scores|)
    && (forall h :: h in hits ==> h.0 in scores && h.1 == scores[h.0])
    && (forall i, j :: 0 <= i < j < |hits| ==> hits[i].0 != hits[j].0 && NotAfter(hits[i], hits[j]))
    && (forall id, h :: id in scores && (id, scores[id]) !in hits && h in hits ==> NotAfter(h, (id, scores[id])))
  }

  /** There is one such list. */
  lemma {:induction false} BestIsUnique(a: seq<Answer>, b: seq<Answer>, scores: map<nat, real>, pool: nat)
    requires BestOf(a, scores, pool) && BestOf(b, scores, pool)
    ensures a == b
  {
    var n := 0;
    while n < |a|
      invariant n <= |a| && a[..n] == b[..n]
    {
      NextIsSame(a, b, scores, pool, n);
      NextIsSame(b, a, scores, pool, n);
      assert a[n] == b[n];
      assert a[..n + 1] == a[..n] + [a[n]] && b[..n + 1] == b[..n] + [b[n]];
      n := n + 1;
    }
    assert a[..n] == a && b[..n] == b;
  }

  lemma NextIsSame(a: seq<Answer>, b: seq<Answer>, scores: map<nat, real>, pool: nat, n: nat)
    requires BestOf(a, scores, pool) && BestOf(b, scores, pool) && n < |a| && a[..n] == b[..n]
    ensures NotAfter(a[n], b[n])
  {
    var x := b[n];
    assert x in b;
    if x in a {
      assert forall k :: 0 <= k < n ==> a[k] == a[..n][k] == b[..n][k] == b[k] != b[n];
      var i :| 0 <= i < |a| && a[i] == x;
    } else {
      assert a[n] in a;
      assert (x.0, scores[x.0]) == x;
    }
  }

  /** All scored ids with their scores, in any order. */
  method Listed(scores: map<nat, real>) returns (all: seq<Answer>)
    ensures |all| == |scores| && Distinct(all)
    ensures forall h: Answer :: h in all <==> h.0 in scores && h.1 == scores[h.0]
  {
    all := [];
    var todo := scores.Keys;
    while todo != {}
      invariant todo <= scores.Keys && |all| + |todo| == |scores| && Distinct(all)
      invariant forall h: Answer :: h in all <==> h.0 in scores && h.0 !in todo && h.1 == scores[h.0]
      decreases todo
    {
      var id :| id in todo;
      NewAnswer(all, (id, scores[id]));
      all, todo := all + [(id, scores[id])], todo - {id};
    }
  }

  lemma NewAnswer(all: seq<Answer>, h: Answer)
    requires Distinct(all) && h !in all
    ensures Distinct(all + [h])
  {
    assert forall i :: 0 <= i < |all| ==> all[i] in all;
  }

  /** Sort best first and cut at the pool. */
  method RankAndCut(scores: map<nat, real>, pool: nat) returns (hits: seq<Answer>)
    ensures BestOf(hits, scores, pool)
  {
    hide NotAfter, Orders, SortedBy, SameElements, Distinct;
    AnswersOrder();
    var all := Listed(scores);
    var sorted := SortBy(all, NotAfter);
    hits := if |sorted| > pool then sorted[..pool] else sorted;
    CutIsBest(scores, all, sorted, hits, pool);
  }

  lemma CutIsBest(scores: map<nat, real>, all: seq<Answer>, sorted: seq<Answer>, hits: seq<Answer>, pool: nat)
    requires |all| == |scores| && Distinct(all) && SortedBy(sorted, NotAfter) && SameElements(all, sorted)
    requires forall h: Answer :: h in all <==> h.0 in scores && h.1 == scores[h.0]
    requires hits == if |sorted| > pool then sorted[..pool] else sorted
    ensures BestOf(hits, scores, pool)
  {
    hide NotAfter;
    assert forall i :: 0 <= i < |hits| ==> hits[i] == sorted[i] && hits[i] in hits && sorted[i] in sorted;
    forall id, h | id in scores && (id, scores[id]) !in hits && h in hits
      ensures NotAfter(h, (id, scores[id]))
    {
      var x: Answer := (id, scores[id]);
      assert x in all && x in sorted;
      var i :| 0 <= i < |sorted| && sorted[i] == x;
      var j :| 0 <= j < |hits| && hits[j] == h;
    }
  }

  /** A keyframe the query may return. */
  predicate MayReturn(cache: map<nat, Cached>, id: nat, query: nat, submap: nat, window: nat) {
    id in cache && Temporal(Found(id, cache[id].submap, 0.0), query, submap, window)
  }

  ghost function CompactScores(index: Index, similarity: nat -> real, query: nat, submap: nat,
                               window: nat): map<nat, real>
    reads index
  {
    map id | id in index.store.signatures && MayReturn(index.store.cache, id, query, submap, window) ::
      similarity(index.store.signatures[id])
  }

  /** The compact query; similarity compares a stored signature with the query's. */
  method QueryCompact(index: Index, similarity: nat -> real, query: nat, submap: nat, window: nat,
                      pool: nat) returns (hits: seq<Answer>)
    requires index.Valid() && index.backend == Compact
    ensures BestOf(hits, CompactScores(index, similarity, query, submap, window), pool)
  {
    hide Index.Valid, BestOf, MayReturn;
    var scores: map<nat, real> := map[];
    var todo := index.store.signatures.Keys;
    while todo != {}
      invariant todo <= index.store.signatures.Keys
      invariant scores == map id | id in CompactScores(index, similarity, query, submap, window) && id !in todo ::
                            CompactScores(index, similarity, query, submap, window)[id]
      decreases todo
    {
      var id :| id in todo;
      if MayReturn(index.store.cache, id, query, submap, window) {
        scores := scores[id := similarity(index.store.signatures[id])];
      }
      todo := todo - {id};
    }
    assert scores == CompactScores(index, similarity, query, submap, window);
    hits := RankAndCut(scores, pool);
  }

  ghost function FlatScores(index: Index, q: seq<Entry>, query: nat, submap: nat, window: nat): map<nat, real>
    reads index
  {
    map id | id in index.store.flatBows && MayReturn(index.store.cache, id, query, submap, window) ::
      Clamp01(MinSum(BagOf(q), BagOf(index.store.flatBows[id])))
  }

  /** The flat query. */
  method QueryFlat(index: Index, q: seq<Entry>, query: nat, submap: nat, window: nat,
                   pool: nat) returns (hits: seq<Answer>)
    requires index.Valid() && index.backend == Flat && WordsIncrease(q)
    ensures BestOf(hits, FlatScores(index, q, query, submap, window), pool)
  {
    hide Index.Valid, BestOf, MayReturn, BagOf, MinSum, Clamp01, WordsIncrease;
    FlatBags(index);
    var scores: map<nat, real> := map[];
    var todo := index.store.flatBows.Keys;
    while todo != {}
      invariant todo <= index.store.flatBows.Keys
      invariant scores == map id | id in FlatScores(index, q, query, submap, window) && id !in todo ::
                            FlatScores(index, q, query, submap, window)[id]
      decreases todo
    {
      var id :| id in todo;
      if MayReturn(index.store.cache, id, query, submap, window) {
        var score := FlatScore(q, index.store.flatBows[id]);
        scores := scores[id := score];
      }
      todo := todo - {id};
    }
    assert scores == FlatScores(index, q, query, submap, window);
    hits := RankAndCut(scores, pool);
  }

  lemma FlatBags(index: Index)
    requires index.Valid()
    ensures forall id :: id in index.store.flatBows ==> WordsIncrease(index.store.flatBows[id])
  {
  }
}
