/** Two ways to score a pair of bags: the flat min-sum merge and the L1 score with skipping iterators. */
module Scoring {
  import opened RealSums
  import opened BowVectors

  function Min(a: real, b: real): real {
    if a < b then a else b
  }

  function Clamp01(x: real): real {
    if x < 0.0 then 0.0 else if x > 1.0 then 1.0 else x
  }

  /** Per shared word, the smaller weight. */
  ghost function Common(a: Table, b: Table): Table {
    map w | w in a && w in b :: Min(a[w], b[w])
  }

  function L1Term(x: real, y: real): real {
    Abs(x - y) - Abs(x) - Abs(y)
  }

  ghost function L1Terms(a: Table, b: Table): Table {
    map w | w in a && w in b :: L1Term(a[w], b[w])
  }

  ghost function MinSum(a: Table, b: Table): real {
    Total(Common(a, b))
  }

  /** One minus half the L1 distance of two bags of norm one, as L1Scoring computes it. */
  ghost function L1Score(a: Table, b: Table): real {
    -Total(L1Terms(a, b)) / 2.0
  }

  // ---- they are the same number on non-negative weights ----------------------------

  lemma {:induction false} L1ScoreIsMinSum(a: Table, b: Table)
    requires NonNegative(a) && NonNegative(b)
    ensures L1Score(a, b) == MinSum(a, b)
  {
    assert L1Terms(a, b) == Scaled(Common(a, b), -2.0);
    TotalScales(Common(a, b), -2.0);
  }

  lemma {:induction false} MinSumBounds(a: Table, b: Table)
    requires NonNegative(a) && NonNegative(b)
    ensures 0.0 <= MinSum(a, b) <= Norm(a)
  {
    assert Magnitudes(a) == a;
    TotalNonNegative(Common(a, b));
    TotalBelow(Common(a, b), a);
  }

  /** On non-negative bags the clamped flat score is the L1 score exactly when that is at most 1. */
  lemma {:induction false} FlatScoreIsL1Score(a: Table, b: Table)
    requires NonNegative(a) && NonNegative(b)
    ensures Clamp01(MinSum(a, b)) == L1Score(a, b) <==> L1Score(a, b) <= 1.0
    ensures Norm(a) <= 1.0 ==> Clamp01(MinSum(a, b)) == L1Score(a, b)
  {
    hide MinSum, L1Score, Norm;
    L1ScoreIsMinSum(a, b);
    MinSumBounds(a, b);
  }

  /** Two equal bags of one word above weight 1: the L1 score is the weight, the flat score stops at 1. */
  lemma {:induction false} FlatScoreStopsAtOne(w: nat, x: real)
    requires x > 1.0
    ensures L1Score(map[w := x], map[w := x]) == x && Clamp01(MinSum(map[w := x], map[w := x])) == 1.0
  {
    var bag: Table := map[w := x];
    SelfScore(bag);
    L1ScoreIsMinSum(bag, bag);
    assert Magnitudes(bag) == map[][w := x];
    TotalAdds(map[], w, x);
  }

  /** Two normalised frames: both backends report the same similarity, between 0 and 1. */
  lemma {:induction false} NormalisedScoresAgree(p: Table, q: Table)
    requires NonNegative(p) && NonNegative(q)
    ensures var a, b := Normalised(p), Normalised(q);
            Clamp01(MinSum(a, b)) == L1Score(a, b) && 0.0 <= L1Score(a, b) <= 1.0
  {
    hide MinSum, L1Score;
    NormalisedIsSmall(p);
    NormalisedIsSmall(q);
    FlatScoreIsL1Score(Normalised(p), Normalised(q));
    MinSumBounds(Normalised(p), Normalised(q));
    L1ScoreIsMinSum(Normalised(p), Normalised(q));
  }

  lemma NormalisedIsSmall(bag: Table)
    requires NonNegative(bag)
    ensures NonNegative(Normalised(bag)) && Norm(Normalised(bag)) <= 1.0
  {
    if Norm(bag) > 0.0 {
      NormalisedHasUnitNorm(bag);
    }
  }

  /** A bag against itself scores its own norm, so 1 once normalised. */
  lemma {:induction false} SelfScore(bag: Table)
    requires NonNegative(bag)
    ensures L1Score(bag, bag) == Norm(bag)
  {
    hide Total;
    L1ScoreIsMinSum(bag, bag);
    assert Common(bag, bag) == bag == Magnitudes(bag);
  }

  // ---- the two loops ----------------------------------------------------------------

  /** The entries from position i on, as a bag. */
  ghost function Rest(s: seq<Entry>, i: nat): Table
    requires i <= |s|
  {
    BagOf(s[i..])
  }

  /** The bag built from the front instead of the back. */
  lemma {:induction false} BagFromFront(s: seq<Entry>)
    requires WordsIncrease(s) && s != []
    ensures BagOf(s) == BagOf(s[1..])[s[0].word := s[0].weight]
  {
    hide WordsIncrease;
    var n := |s| - 1;
    if n > 0 {
      PrefixIncreases(s, n);
      BagFromFront(s[..n]);
      FirstIsLess(s);
      assert s[..n][1..] == s[1..][..n - 1];
      assert s[1..][n - 1] == s[n];
    }
  }

  lemma FirstIsLess(s: seq<Entry>)
    requires WordsIncrease(s) && |s| > 1
    ensures s[0].word < s[|s| - 1].word
  {
  }

  lemma FrontIsLeast(s: seq<Entry>)
    requires WordsIncrease(s) && s != []
    ensures s[0].word !in BagOf(s[1..])
    ensures forall w :: w in BagOf(s) ==> s[0].word <= w
  {
    hide BagOf;
    BagKeys(s);
    BagKeys(s[1..]);
    forall w | w in WordSet(s[1..])
      ensures s[0].word < w
    {
      var i :| 0 <= i < |s| - 1 && s[1..][i].word == w;
      assert s[i + 1].word == w;
    }
  }

  lemma SuffixIncreases(s: seq<Entry>, n: nat)
    requires WordsIncrease(s) && n <= |s|
    ensures WordsIncrease(s[n..])
  {
  }

  lemma RestStep(s: seq<Entry>, i: nat)
    requires WordsIncrease(s) && i < |s|
    ensures Rest(s, i) == Rest(s, i + 1)[s[i].word := s[i].weight]
    ensures s[i].word !in Rest(s, i + 1)
    ensures forall w :: w in Rest(s, i) ==> s[i].word <= w
  {
    hide WordsIncrease, BagOf;
    assert s[i..][1..] == s[i + 1..];
    SuffixIncreases(s, i);
    BagFromFront(s[i..]);
    FrontIsLeast(s[i..]);
  }

  lemma RestEnds(s: seq<Entry>)
    ensures Rest(s, 0) == BagOf(s) && Rest(s, |s|) == map[]
  {
    assert s[0..] == s && s[|s|..] == [];
  }

  lemma BothStep(a: Table, b: Table, a': Table, b': Table, w: nat, x: real, y: real)
    requires w !in a' && w !in b' && a == a'[w := x] && b == b'[w := y]
    ensures Total(Common(a, b)) == Total(Common(a', b')) + Min(x, y)
    ensures Total(L1Terms(a, b)) == Total(L1Terms(a', b')) + L1Term(x, y)
  {
    hide Min, L1Term;
    assert Common(a, b) == Common(a', b')[w := Min(x, y)];
    assert L1Terms(a, b) == L1Terms(a', b')[w := L1Term(x, y)];
    TotalAdds(Common(a', b'), w, Min(x, y));
    TotalAdds(L1Terms(a', b'), w, L1Term(x, y));
  }

  /** A word before everything left on the other side contributes nothing. */
  lemma SkipLeft(a: Table, a': Table, b: Table, w: nat, x: real)
    requires a == a'[w := x] && w !in b
    ensures Common(a, b) == Common(a', b) && L1Terms(a, b) == L1Terms(a', b)
  {
    hide Min, L1Term;
  }

  lemma SkipRight(a: Table, b: Table, b': Table, w: nat, x: real)
    requires b == b'[w := x] && w !in a
    ensures Common(a, b) == Common(a, b') && L1Terms(a, b) == L1Terms(a, b')
  {
    hide Min, L1Term;
  }

  lemma NothingShared(a: Table, b: Table)
    requires a == map[] || b == map[]
    ensures Total(Common(a, b)) == 0.0 && Total(L1Terms(a, b)) == 0.0
  {
    assert Common(a, b) == map[] && L1Terms(a, b) == map[];
  }

  /** The two-index merge of the flat backend. */
  method FlatScore(a: seq<Entry>, b: seq<Entry>) returns (score: real)
    requires WordsIncrease(a) && WordsIncrease(b)
    ensures score == Clamp01(MinSum(BagOf(a), BagOf(b)))
  {
    hide Common, Total, Rest, WordsIncrease, BagOf;
    var result := 0.0;
    var ia, ib := 0, 0;
    RestEnds(a);
    RestEnds(b);
    while ia < |a| && ib < |b|
      invariant 0 <= ia <= |a| && 0 <= ib <= |b|
      invariant result + Total(Common(Rest(a, ia), Rest(b, ib))) == MinSum(BagOf(a), BagOf(b))
      decreases |a| - ia + |b| - ib
    {
      RestStep(a, ia);
      RestStep(b, ib);
      if a[ia].word == b[ib].word {
        BothStep(Rest(a, ia), Rest(b, ib), Rest(a, ia + 1), Rest(b, ib + 1), a[ia].word, a[ia].weight, b[ib].weight);
        result := result + Min(a[ia].weight, b[ib].weight);
        ia, ib := ia + 1, ib + 1;
      } else if a[ia].word < b[ib].word {
        SkipLeft(Rest(a, ia), Rest(a, ia + 1), Rest(b, ib), a[ia].word, a[ia].weight);
        ia := ia + 1;
      } else {
        SkipRight(Rest(a, ia), Rest(b, ib), Rest(b, ib + 1), b[ib].word, b[ib].weight);
        ib := ib + 1;
      }
    }
    NothingShared(Rest(a, ia), Rest(b, ib));
    score := Clamp01(result);
  }

  /** lower_bound: the first position whose word is not below w. */
  method LowerBound(s: seq<Entry>, w: nat) returns (i: nat)
    ensures i <= |s| && (forall j :: 0 <= j < i ==> s[j].word < w) && (i < |s| ==> s[i].word >= w)
  {
    i := 0;
    while i < |s| && s[i].word < w
      invariant i <= |s| && forall j :: 0 <= j < i ==> s[j].word < w
    {
      i := i + 1;
    }
  }

  /** Entries whose words lie below everything left on the other side may be jumped over. */
  lemma {:induction false} JumpStep(s: seq<Entry>, i: nat, j: nat, b: Table, w: nat)
    requires WordsIncrease(s) && i <= j <= |s| && (forall k :: i <= k < j ==> s[k].word < w)
    requires (forall x :: x in b ==> w <= x)
    ensures L1Terms(Rest(s, i), b) == L1Terms(Rest(s, j), b) && L1Terms(b, Rest(s, i)) == L1Terms(b, Rest(s, j))
    decreases j - i
  {
    if i < j {
      RestStep(s, i);
      SkipLeft(Rest(s, i), Rest(s, i + 1), b, s[i].word, s[i].weight);
      SkipRight(b, Rest(s, i), Rest(s, i + 1), s[i].word, s[i].weight);
      JumpStep(s, i + 1, j, b, w);
    }
  }

  lemma LaterPosition(s: seq<Entry>, i: nat, j: nat, w: nat)
    requires WordsIncrease(s) && i < |s| && j <= |s| && s[i].word < w && (j < |s| ==> s[j].word >= w)
    ensures i < j
  {
  }

  /** The score of the map backend: iterators jump to the other side's word. */
  method ScoreL1(a: seq<Entry>, b: seq<Entry>) returns (score: real)
    requires WordsIncrease(a) && WordsIncrease(b)
    ensures score == L1Score(BagOf(a), BagOf(b))
  {
    hide L1Terms, L1Term, Total, Rest, WordsIncrease, BagOf;
    var sum := 0.0;
    var ia, ib := 0, 0;
    RestEnds(a);
    RestEnds(b);
    while ia < |a| && ib < |b|
      invariant 0 <= ia <= |a| && 0 <= ib <= |b|
      invariant sum + Total(L1Terms(Rest(a, ia), Rest(b, ib))) == Total(L1Terms(BagOf(a), BagOf(b)))
      decreases |a| - ia + |b| - ib
    {
      var x, y := a[ia], b[ib];
      RestStep(a, ia);
      RestStep(b, ib);
      if x.word == y.word {
        BothStep(Rest(a, ia), Rest(b, ib), Rest(a, ia + 1), Rest(b, ib + 1), x.word, x.weight, y.weight);
        sum := sum + L1Term(x.weight, y.weight);
        ia, ib := ia + 1, ib + 1;
      } else if x.word < y.word {
        var next := LowerBound(a, y.word);
        LaterPosition(a, ia, next, y.word);
        JumpStep(a, ia, next, Rest(b, ib), y.word);
        ia := next;
      } else {
        var next := LowerBound(b, x.word);
        LaterPosition(b, ib, next, x.word);
        JumpStep(b, ib, next, Rest(a, ia), x.word);
        ib := next;
      }
    }
    NothingShared(Rest(a, ia), Rest(b, ib));
    score := -sum / 2.0;
  }
}
