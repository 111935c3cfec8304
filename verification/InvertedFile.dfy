/** The inverted file of the map backend: entries filed by word, L1 queries accumulated row by row. */
module InvertedFile {
  import opened Ordering
  import opened RealSums
  import opened BowVectors
  import opened Scoring

  datatype Posting = Posting(entry: nat, weight: real)

  /** The row of word w after the first n entries: ascending entry ids with their weights. */
  ghost function RowOf(entries: seq<Table>, w: nat, n: nat): seq<Posting>
    requires n <= |entries|
  {
    if n == 0 then [] else
      var before := RowOf(entries, w, n - 1);
      if w in entries[n - 1] then before + [Posting(n - 1, entries[n - 1][w])] else before
  }

  /** Row n is row n - 1, or that with one posting for entry n - 1. */
  lemma RowGrows(entries: seq<Table>, w: nat, n: nat)
    requires 0 < n <= |entries|
    ensures RowOf(entries, w, n) == RowOf(entries, w, n - 1)
         + if w in entries[n - 1] then [Posting(n - 1, entries[n - 1][w])] else []
  {
  }

  lemma {:induction false} RowIsTrue(entries: seq<Table>, w: nat, n: nat)
    requires n <= |entries|
    ensures var row := RowOf(entries, w, n);
            forall i :: 0 <= i < |row| ==>
              row[i].entry < n && w in entries[row[i].entry] && row[i].weight == entries[row[i].entry][w]
  {
    if n > 0 {
      hide RowOf;
      RowIsTrue(entries, w, n - 1);
      RowGrows(entries, w, n);
    }
  }

  lemma {:induction false} RowAscends(entries: seq<Table>, w: nat, n: nat)
    requires n <= |entries|
    ensures var row := RowOf(entries, w, n);
            forall i, j {:trigger row[i], row[j]} :: 0 <= i < j < |row| ==> row[i].entry < row[j].entry
  {
    if n > 0 {
      hide RowOf;
      RowAscends(entries, w, n - 1);
      RowIsTrue(entries, w, n - 1);
      RowGrows(entries, w, n);
    }
  }

  lemma {:induction false} RowIsComplete(entries: seq<Table>, w: nat, n: nat, e: nat)
    requires e < n <= |entries| && w in entries[e]
    ensures exists i :: 0 <= i < |RowOf(entries, w, n)| && RowOf(entries, w, n)[i].entry == e
  {
    hide RowOf;
    RowGrows(entries, w, n);
    var row := RowOf(entries, w, n);
    if e == n - 1 {
      assert row[|row| - 1].entry == e;
    } else {
      RowIsComplete(entries, w, n - 1, e);
      var i :| 0 <= i < |RowOf(entries, w, n - 1)| && RowOf(entries, w, n - 1)[i].entry == e;
      assert row[i] == RowOf(entries, w, n - 1)[i];
    }
  }

  /** Posting j of a row: an entry holding the word, not met in the row before. */
  lemma RowAt(entries: seq<Table>, w: nat, n: nat, row: seq<Posting>, j: nat)
    requires n <= |entries| && row == RowOf(entries, w, n) && j < |row|
    ensures row[j].entry < n && w in entries[row[j].entry] && row[j].weight == entries[row[j].entry][w]
    ensures row[j].entry !in set k | 0 <= k < j :: row[k].entry
  {
    hide RowOf;
    RowIsTrue(entries, w, n);
    RowAscends(entries, w, n);
  }

  /** Together the postings of a row name every entry holding the word. */
  lemma RowCovers(entries: seq<Table>, w: nat, n: nat, row: seq<Posting>)
    requires n <= |entries| && row == RowOf(entries, w, n)
    ensures forall e :: 0 <= e < n && w in entries[e] ==> e in set k | 0 <= k < |row| :: row[k].entry
  {
    hide RowOf;
    forall e | 0 <= e < n && w in entries[e]
      ensures e in set k | 0 <= k < |row| :: row[k].entry
    {
      RowIsComplete(entries, w, n, e);
      var i :| 0 <= i < |row| && row[i].entry == e;
    }
  }

  lemma {:induction false} RowPrefix(entries: seq<Table>, more: Table, w: nat, n: nat)
    requires n <= |entries|
    ensures RowOf(entries + [more], w, n) == RowOf(entries, w, n)
  {
    if n > 0 {
      RowPrefix(entries, more, w, n - 1);
    }
  }

  function RowIn(rows: map<nat, seq<Posting>>, w: nat): seq<Posting> {
    if w in rows then rows[w] else []
  }

  datatype Hit = Hit(entry: nat, score: real)

  ghost predicate Eligible(entry: nat, maxId: int) {
    entry < maxId || maxId == -1
  }

  ghost predicate SharesWord(a: Table, b: Table) {
    exists w :: w in a && w in b
  }

  /** What the accumulator holds for the query words in q: the L1 terms of every eligible entry sharing one of them. */
  ghost predicate Accumulated(pairs: Table, q: Table, entries: seq<Table>, maxId: int) {
    && (forall e: nat :: e in pairs <==> e < |entries| && Eligible(e, maxId) && SharesWord(q, entries[e]))
    && (forall e :: e in pairs ==> pairs[e] == Total(L1Terms(q, entries[e])))
  }

  /** The same while the row of word w is being read: the entries in done already include it. */
  ghost predicate Accumulating(pairs: Table, q: Table, w: nat, x: real, done: set<nat>, entries: seq<Table>,
                               maxId: int) {
    && (forall e: nat :: e in pairs <==>
          e < |entries| && Eligible(e, maxId) && (SharesWord(q, entries[e]) || (e in done && w in entries[e])))
    && (forall e :: e in pairs ==>
         pairs[e] == if e in done then Total(L1Terms(q[w := x], entries[e])) else Total(L1Terms(q, entries[e])))
  }

  /** One posting adds its term to its entry. */
  lemma PostingStep(pairs: Table, q: Table, w: nat, x: real, done: set<nat>, entries: seq<Table>, maxId: int, e: nat)
    requires w !in q && e < |entries| && e !in done && w in entries[e] && Eligible(e, maxId)
    requires Accumulating(pairs, q, w, x, done, entries, maxId)
    ensures var value := L1Term(x, entries[e][w]);
            Accumulating(pairs[e := if e in pairs then pairs[e] + value else value], q, w, x, done + {e}, entries,
                         maxId)
  {
    hide L1Term, Total;
    L1TermAdded(q, w, x, entries[e]);
    if e !in pairs {
      assert L1Terms(q, entries[e]) == map[];
      EmptyTotal();
    }
  }

  lemma EmptyTotal()
    ensures Total(map[]) == 0.0
  {
  }

  lemma L1TermAdded(q: Table, w: nat, x: real, b: Table)
    requires w !in q && w in b
    ensures Total(L1Terms(q[w := x], b)) == Total(L1Terms(q, b)) + L1Term(x, b[w])
  {
    hide L1Term;
    assert L1Terms(q[w := x], b) == L1Terms(q, b)[w := L1Term(x, b[w])];
    TotalAdds(L1Terms(q, b), w, L1Term(x, b[w]));
  }

  /** An ineligible entry changes nothing. */
  lemma IneligibleStep(pairs: Table, q: Table, w: nat, x: real, done: set<nat>, entries: seq<Table>, maxId: int, e: nat)
    requires !Eligible(e, maxId) && Accumulating(pairs, q, w, x, done, entries, maxId)
    ensures Accumulating(pairs, q, w, x, done + {e}, entries, maxId)
  {
    hide L1Terms, Total;
  }

  lemma RowStarts(pairs: Table, q: Table, w: nat, x: real, entries: seq<Table>, maxId: int)
    requires Accumulated(pairs, q, entries, maxId)
    ensures Accumulating(pairs, q, w, x, {}, entries, maxId)
  {
    hide L1Terms, Total;
  }

  /** After the whole row the word has become part of the query. */
  lemma RowEnds(pairs: Table, q: Table, w: nat, x: real, done: set<nat>, entries: seq<Table>, maxId: int)
    requires w !in q && Accumulating(pairs, q, w, x, done, entries, maxId)
    requires forall e :: 0 <= e < |entries| && w in entries[e] ==> e in done
    ensures Accumulated(pairs, q[w := x], entries, maxId)
  {
    hide Total;
    forall e: nat | e < |entries|
      ensures SharesWord(q[w := x], entries[e]) <==> SharesWord(q, entries[e]) || w in entries[e]
      ensures w !in entries[e] ==> L1Terms(q[w := x], entries[e]) == L1Terms(q, entries[e])
    {
      SharesMore(q, w, x, entries[e]);
    }
  }

  lemma SharesMore(q: Table, w: nat, x: real, b: Table)
    requires w !in q
    ensures SharesWord(q[w := x], b) <==> SharesWord(q, b) || w in b
    ensures w !in b ==> L1Terms(q[w := x], b) == L1Terms(q, b)
  {
    hide L1Term;
    if SharesWord(q, b) {
      var v :| v in q && v in b;
      assert v in q[w := x];
    }
    if w in b {
      assert w in q[w := x];
    }
  }

  // ---- sorting and cutting -----------------------------------------------------------

  predicate ScoresAscend(s: seq<Hit>) {
    forall i, j :: 0 <= i < j < |s| ==> s[i].score <= s[j].score
  }

  method InsertHit(s: seq<Hit>, h: Hit) returns (r: seq<Hit>)
    requires ScoresAscend(s)
    ensures ScoresAscend(r) && multiset(r) == multiset(s) + multiset{h}
  {
    var i := 0;
    while i < |s| && s[i].score <= h.score
      invariant 0 <= i <= |s| && forall j :: 0 <= j < i ==> s[j].score <= h.score
    {
      i := i + 1;
    }
    r := s[..i] + [h] + s[i..];
    assert s == s[..i] + s[i..];
  }

  /** Some order of the hits with ascending scores; equal scores may come in any order. */
  method SortHits(s: seq<Hit>) returns (r: seq<Hit>)
    ensures ScoresAscend(r) && multiset(r) == multiset(s)
  {
    hide ScoresAscend;
    r := [];
    EmptyAscends();
    for i := 0 to |s|
      invariant ScoresAscend(r) && multiset(r) == multiset(s[..i])
    {
      r := InsertHit(r, s[i]);
      assert s[..i + 1] == s[..i] + [s[i]];
    }
    assert s[..|s|] == s;
  }

  lemma EmptyAscends()
    ensures ScoresAscend([])
  {
  }

  /** The first limit hits, or all of them if limit is not positive. */
  method Cut(s: seq<Hit>, limit: int) returns (r: seq<Hit>)
    ensures r <= s && (|r| == |s| || (0 < limit == |r| < |s|))
  {
    r := if limit > 0 && |s| > limit then s[..limit] else s;
  }

  // ---- the database -------------------------------------------------------------------

  /** A finished answer: entries sharing a word with q, scored, best first; what was cut scores no better. */
  ghost predicate Answers(ret: seq<Hit>, q: Table, entries: seq<Table>, limit: int, maxId: int) {
    && (forall i :: 0 <= i < |ret| ==>
          && ret[i].entry < |entries| && Eligible(ret[i].entry, maxId) && SharesWord(q, entries[ret[i].entry])
          && ret[i].score == L1Score(q, entries[ret[i].entry]))
    && (forall i, j :: 0 <= i < j < |ret| ==> ret[i].score >= ret[j].score && ret[i].entry != ret[j].entry)
    && (forall e: nat :: e < |entries| && Eligible(e, maxId) && SharesWord(q, entries[e]) ==>
          || (exists i :: 0 <= i < |ret| && ret[i].entry == e)
          || (0 < limit == |ret| && forall i :: 0 <= i < |ret| ==> ret[i].score >= L1Score(q, entries[e])))
  }

  /** Unscaled hits, each entry of pairs once. */
  ghost predicate ListsPairs(s: seq<Hit>, pairs: Table) {
    && (forall i :: 0 <= i < |s| ==> s[i].entry in pairs && s[i].score == pairs[s[i].entry])
    && (forall i, j :: 0 <= i < j < |s| ==> s[i].entry != s[j].entry)
    && (forall e :: e in pairs ==> exists i :: 0 <= i < |s| && s[i].entry == e)
  }

  method HitsOf(pairs: Table) returns (s: seq<Hit>)
    ensures ListsPairs(s, pairs)
  {
    hide Increasing, Front;
    var ids := Ascending(pairs.Keys);
    FrontIsAll(ids, pairs.Keys);
    s := [];
    for n := 0 to |ids|
      invariant |s| == n
      invariant forall i :: 0 <= i < n ==> ids[i] in pairs && s[i] == Hit(ids[i], pairs[ids[i]])
    {
      FrontGrows(ids, n);
      s := s + [Hit(ids[n], pairs[ids[n]])];
    }
    HitsComplete(s, ids, pairs);
  }

  lemma HitsComplete(s: seq<Hit>, ids: seq<nat>, pairs: Table)
    requires Increasing(ids) && (forall x :: x in ids <==> x in pairs) && |s| == |ids|
    requires forall i :: 0 <= i < |ids| ==> ids[i] in pairs && s[i] == Hit(ids[i], pairs[ids[i]])
    ensures ListsPairs(s, pairs)
  {
    hide Increasing;
    forall i, j | 0 <= i < j < |s|
      ensures s[i].entry != s[j].entry
    {
      IncreasingDistinct(ids, i, j);
    }
    forall e | e in pairs
      ensures exists i :: 0 <= i < |s| && s[i].entry == e
    {
      assert e in ids;
      var i :| 0 <= i < |ids| && ids[i] == e;
      assert s[i].entry == e;
    }
  }

  class Database {
    var rows: map<nat, seq<Posting>>
    var count: nat
    ghost var entries: seq<Table>  // the bag of every entry id

    ghost predicate Valid()
      reads this
    {
      count == |entries| && forall w: nat :: RowIn(rows, w) == RowOf(entries, w, count)
    }

    constructor ()
      ensures Valid() && entries == []
    {
      rows, count, entries := map[], 0, [];
    }

    method Clear()
      modifies this
      ensures Valid() && entries == []
    {
      rows, count, entries := map[], 0, [];
    }

    /** File a bag under the next entry id. */
    method Add(v: seq<Entry>) returns (id: nat)
      requires Valid() && WordsIncrease(v)
      modifies this
      ensures Valid() && id == |old(entries)| && entries == old(entries) + [BagOf(v)]
    {
      hide BagOf, RowOf, WordsIncrease;
      id := count;
      count := count + 1;
      ghost var bag := BagOf(v);
      ghost var before := rows;
      EmptyBag(v);
      var i := 0;
      while i < |v|
        invariant 0 <= i <= |v| && count == id + 1 && entries == old(entries)
        invariant forall w: nat :: RowIn(rows, w) == RowIn(before, w) + NewPosting(BagOf(v[..i]), w, id)
      {
        ghost var now := rows;
        PrefixBag(v, i);
        rows := rows[v[i].word := RowIn(rows, v[i].word) + [Posting(id, v[i].weight)]];
        i := i + 1;
      }
      assert v[..i] == v;
      entries := entries + [bag];
      forall w: nat
        ensures RowIn(rows, w) == RowOf(entries, w, count)
      {
        NewRow(old(entries), bag, w);
      }
    }

    /** Score every entry sharing a word with the query. */
    method QueryL1(q: seq<Entry>, limit: int, maxId: int) returns (ret: seq<Hit>)
      requires Valid() && WordsIncrease(q)
      ensures Answers(ret, BagOf(q), entries, limit, maxId)
    {
      hide Valid, Accumulated, ListsPairs, ScoresAscend, Answers, BagOf, WordsIncrease;
      var pairs := Accumulate(q, maxId);
      var hits := HitsOf(pairs);
      var sorted := SortHits(hits);
      var kept := Cut(sorted, limit);
      ret := ScaleHits(kept);
      FinishedAnswer(pairs, hits, sorted, kept, ret, BagOf(q), entries, limit, maxId);
    }

    method Accumulate(q: seq<Entry>, maxId: int) returns (pairs: Table)
      requires Valid() && WordsIncrease(q)
      ensures Accumulated(pairs, BagOf(q), entries, maxId)
    {
      hide Valid, Accumulated, BagOf, WordsIncrease;
      pairs := map[];
      NothingAccumulated(entries, maxId, q);
      for i := 0 to |q|
        invariant Accumulated(pairs, BagOf(q[..i]), entries, maxId)
      {
        PrefixBag(q, i);
        pairs := ReadRow(q[i], BagOf(q[..i]), pairs, maxId);
      }
      assert q[..|q|] == q;
    }

    method ReadRow(e: Entry, ghost q: Table, pairs0: Table, maxId: int) returns (pairs: Table)
      requires Valid() && e.word !in q && Accumulated(pairs0, q, entries, maxId)
      ensures Accumulated(pairs, q[e.word := e.weight], entries, maxId)
    {
      hide Accumulated, Accumulating, L1Term, RowOf;
      pairs := pairs0;
      var row := RowIn(rows, e.word);
      assert row == RowOf(entries, e.word, count);
      RowStarts(pairs, q, e.word, e.weight, entries, maxId);
      ghost var done: set<nat> := {};
      for j := 0 to |row|
        invariant done == set k | 0 <= k < j :: row[k].entry
        invariant Accumulating(pairs, q, e.word, e.weight, done, entries, maxId)
      {
        RowAt(entries, e.word, count, row, j);
        var id, weight := row[j].entry, row[j].weight;
        if id < maxId || maxId == -1 {
          PostingStep(pairs, q, e.word, e.weight, done, entries, maxId, id);
          var value := L1Term(e.weight, weight);
          pairs := pairs[id := if id in pairs then pairs[id] + value else value];
        } else {
          IneligibleStep(pairs, q, e.word, e.weight, done, entries, maxId, id);
        }
        done := done + {id};
      }
      RowCovers(entries, e.word, count, row);
      RowEnds(pairs, q, e.word, e.weight, done, entries, maxId);
    }
  }

  ghost function NewPosting(bag: Table, w: nat, id: nat): seq<Posting> {
    if w in bag then [Posting(id, bag[w])] else []
  }

  lemma EmptyBag(v: seq<Entry>)
    ensures BagOf(v[..0]) == map[]
  {
  }

  lemma PrefixBag(v: seq<Entry>, i: nat)
    requires WordsIncrease(v) && i < |v|
    ensures BagOf(v[..i + 1]) == BagOf(v[..i])[v[i].word := v[i].weight] && v[i].word !in BagOf(v[..i])
  {
    hide BagOf;
    PrefixIncreases(v, i + 1);
    BeforeLast(v[..i + 1]);
    assert v[..i + 1][..i] == v[..i];
    BagUnfolds(v[..i + 1]);
  }

  lemma BagUnfolds(s: seq<Entry>)
    requires s != []
    ensures BagOf(s) == BagOf(s[..|s| - 1])[s[|s| - 1].word := s[|s| - 1].weight]
  {
  }

  lemma NewRow(entries: seq<Table>, bag: Table, w: nat)
    ensures RowOf(entries + [bag], w, |entries| + 1) == RowOf(entries, w, |entries|) + NewPosting(bag, w, |entries|)
  {
    RowPrefix(entries, bag, w, |entries|);
  }

  lemma NothingAccumulated(entries: seq<Table>, maxId: int, q: seq<Entry>)
    ensures Accumulated(map[], BagOf(q[..0]), entries, maxId)
  {
    assert BagOf(q[..0]) == map[];
  }

  method ScaleHits(s: seq<Hit>) returns (r: seq<Hit>)
    ensures |r| == |s| && forall i :: 0 <= i < |s| ==> r[i] == Hit(s[i].entry, -s[i].score / 2.0)
  {
    r := [];
    for i := 0 to |s|
      invariant |r| == i && forall j :: 0 <= j < i ==> r[j] == Hit(s[j].entry, -s[j].score / 2.0)
    {
      r := r + [Hit(s[i].entry, -s[i].score / 2.0)];
    }
  }

  /** Sorting ascending by the negative terms, cutting and scaling leaves the best entries, best first. */
  lemma FinishedAnswer(pairs: Table, hits: seq<Hit>, sorted: seq<Hit>, kept: seq<Hit>, ret: seq<Hit>,
                       q: Table, entries: seq<Table>, limit: int, maxId: int)
    requires Accumulated(pairs, q, entries, maxId) && ListsPairs(hits, pairs)
    requires ScoresAscend(sorted) && multiset(sorted) == multiset(hits)
    requires kept <= sorted && (|kept| == |sorted| || (0 < limit == |kept| < |sorted|))
    requires |ret| == |kept| && forall i :: 0 <= i < |kept| ==> ret[i] == Hit(kept[i].entry, -kept[i].score / 2.0)
    ensures Answers(ret, q, entries, limit, maxId)
  {
    SortedListsPairs(hits, sorted, pairs);
    AnswerHits(pairs, sorted, kept, ret, q, entries, maxId);
    AnswerOrder(pairs, sorted, kept, ret);
    AnswerComplete(pairs, sorted, kept, ret, q, entries, limit, maxId);
  }

  /** The three scoring paths: what the inverted file reports is the flat score of the two bags. */
  lemma {:induction false} QueryAgreesWithFlat(ret: seq<Hit>, q: Table, entries: seq<Table>, limit: int, maxId: int,
                                               i: nat)
    requires Answers(ret, q, entries, limit, maxId) && i < |ret|
    requires NonNegative(q) && Norm(q) <= 1.0 && forall e :: 0 <= e < |entries| ==> NonNegative(entries[e])
    ensures ret[i].score == Clamp01(MinSum(q, entries[ret[i].entry]))
  {
    hide MinSum, L1Score, Norm, NonNegative, SharesWord;
    FlatScoreIsL1Score(q, entries[ret[i].entry]);
  }

  lemma AnswerHits(pairs: Table, sorted: seq<Hit>, kept: seq<Hit>, ret: seq<Hit>, q: Table, entries: seq<Table>,
                   maxId: int)
    requires Accumulated(pairs, q, entries, maxId) && ListsPairs(sorted, pairs) && kept <= sorted
    requires |ret| == |kept| && forall i :: 0 <= i < |kept| ==> ret[i] == Hit(kept[i].entry, -kept[i].score / 2.0)
    ensures forall i :: 0 <= i < |ret| ==>
      && ret[i].entry < |entries| && Eligible(ret[i].entry, maxId) && SharesWord(q, entries[ret[i].entry])
      && ret[i].score == L1Score(q, entries[ret[i].entry])
  {
    hide Total, L1Terms, SharesWord, Eligible;
    forall i | 0 <= i < |ret|
      ensures ret[i].entry in pairs && ret[i].score == -pairs[ret[i].entry] / 2.0
    {
      assert kept[i] == sorted[i];
    }
  }

  lemma AnswerOrder(pairs: Table, sorted: seq<Hit>, kept: seq<Hit>, ret: seq<Hit>)
    requires ListsPairs(sorted, pairs) && ScoresAscend(sorted) && kept <= sorted
    requires |ret| == |kept| && forall i :: 0 <= i < |kept| ==> ret[i] == Hit(kept[i].entry, -kept[i].score / 2.0)
    ensures forall i, j :: 0 <= i < j < |ret| ==> ret[i].score >= ret[j].score && ret[i].entry != ret[j].entry
  {
    forall i, j | 0 <= i < j < |ret|
      ensures ret[i].score >= ret[j].score && ret[i].entry != ret[j].entry
    {
      assert kept[i] == sorted[i] && kept[j] == sorted[j];
    }
  }

  lemma AnswerComplete(pairs: Table, sorted: seq<Hit>, kept: seq<Hit>, ret: seq<Hit>,
                       q: Table, entries: seq<Table>, limit: int, maxId: int)
    requires Accumulated(pairs, q, entries, maxId) && ListsPairs(sorted, pairs) && ScoresAscend(sorted)
    requires kept <= sorted && (|kept| == |sorted| || (0 < limit == |kept| < |sorted|))
    requires |ret| == |kept| && forall i :: 0 <= i < |kept| ==> ret[i] == Hit(kept[i].entry, -kept[i].score / 2.0)
    ensures forall e: nat :: e < |entries| && Eligible(e, maxId) && SharesWord(q, entries[e]) ==>
      || (exists i :: 0 <= i < |ret| && ret[i].entry == e)
      || (0 < limit == |ret| && forall i :: 0 <= i < |ret| ==> ret[i].score >= L1Score(q, entries[e]))
  {
    hide Total, L1Terms, SharesWord, Eligible;
    forall e: nat | e < |entries| && Eligible(e, maxId) && SharesWord(q, entries[e])
      ensures || (exists i :: 0 <= i < |ret| && ret[i].entry == e)
              || (0 < limit == |ret| && forall i :: 0 <= i < |ret| ==> ret[i].score >= L1Score(q, entries[e]))
    {
      assert e in pairs;
      var k :| 0 <= k < |sorted| && sorted[k].entry == e;
      if k < |ret| {
        assert kept[k] == sorted[k];
        assert ret[k].entry == e;
      } else {
        KeptAreBetter(sorted, kept, ret, k);
      }
    }
  }

  lemma KeptAreBetter(sorted: seq<Hit>, kept: seq<Hit>, ret: seq<Hit>, k: nat)
    requires ScoresAscend(sorted) && kept <= sorted && |kept| <= k < |sorted|
    requires |ret| == |kept| && forall i :: 0 <= i < |kept| ==> ret[i] == Hit(kept[i].entry, -kept[i].score / 2.0)
    ensures forall i :: 0 <= i < |ret| ==> ret[i].score >= -sorted[k].score / 2.0
  {
    forall i | 0 <= i < |ret|
      ensures ret[i].score >= -sorted[k].score / 2.0
    {
      assert kept[i] == sorted[i];
    }
  }

  lemma SortedListsPairs(hits: seq<Hit>, sorted: seq<Hit>, pairs: Table)
    requires ListsPairs(hits, pairs) && multiset(sorted) == multiset(hits)
    ensures ListsPairs(sorted, pairs)
  {
    forall i | 0 <= i < |sorted|
      ensures sorted[i].entry in pairs && sorted[i].score == pairs[sorted[i].entry]
    {
      assert sorted[i] in multiset(hits);
      assert sorted[i] in hits;
    }
    forall e | e in pairs
      ensures exists i :: 0 <= i < |sorted| && sorted[i].entry == e
    {
      var i :| 0 <= i < |hits| && hits[i].entry == e;
      assert hits[i] in multiset(sorted);
      assert hits[i] in sorted;
    }
    forall i, j | 0 <= i < j < |sorted|
      ensures sorted[i].entry != sorted[j].entry
    {
      if sorted[i].entry == sorted[j].entry {
        assert sorted[i] == sorted[j];
        TwoOccurrences(sorted, i, j);
        OneOccurrence(hits, pairs, sorted[i]);
        assert false;
      }
    }
  }

  lemma TwoOccurrences(s: seq<Hit>, i: nat, j: nat)
    requires i < j < |s| && s[i] == s[j]
    ensures multiset(s)[s[i]] >= 2
  {
    assert s == s[..i] + [s[i]] + s[i + 1..j] + [s[j]] + s[j + 1..];
  }

  lemma {:induction false} OneOccurrence(s: seq<Hit>, pairs: Table, h: Hit)
    requires forall i, j :: 0 <= i < j < |s| ==> s[i].entry != s[j].entry
    ensures multiset(s)[h] <= 1
  {
    if s != [] {
      var n := |s| - 1;
      OneOccurrence(s[..n], pairs, h);
      assert s == s[..n] + [s[n]];
      if s[n] == h {
        assert h !in s[..n];
      }
    }
  }
}
