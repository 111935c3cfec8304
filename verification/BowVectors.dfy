/**
 * Bags of visual words: the map built one weight at a time, and the flat vector sorted, merged and normalised in place.
 */
module BowVectors {
  import opened RealSums

  datatype Entry = Entry(word: nat, weight: real)

  // ---- the reference: folding addWeight ---------------------------------------

  function AddWeight(bag: Table, e: Entry): Table {
    bag[e.word := if e.word in bag then bag[e.word] + e.weight else e.weight]
  }

  function Fold(items: seq<Entry>): Table {
    if items == [] then map[] else AddWeight(Fold(items[..|items| - 1]), items[|items| - 1])
  }

  /** Total weight of one word. */
  function WeightOf(items: seq<Entry>, w: nat): real {
    if items == [] then 0.0
    else WeightOf(items[..|items| - 1], w) + Share(items[|items| - 1], w)
  }

  function Share(e: Entry, w: nat): real {
    if e.word == w then e.weight else 0.0
  }

  function WordSet(items: seq<Entry>): set<nat> {
    set i | 0 <= i < |items| :: items[i].word
  }

  lemma WordSetGrows(items: seq<Entry>, e: Entry)
    ensures WordSet(items + [e]) == WordSet(items) + {e.word}
  {
    assert (items + [e])[..|items|] == items;
    forall w | w in WordSet(items)
      ensures w in WordSet(items + [e])
    {
      var i :| 0 <= i < |items| && items[i].word == w;
      assert (items + [e])[i] == items[i];
    }
    assert (items + [e])[|items|] == e;
  }

  lemma {:induction false} FoldMeans(items: seq<Entry>)
    ensures Fold(items).Keys == WordSet(items)
    ensures forall w :: w in Fold(items) ==> Fold(items)[w] == WeightOf(items, w)
    ensures forall w :: w !in Fold(items) ==> WeightOf(items, w) == 0.0
  {
    if items != [] {
      var n := |items| - 1;
      FoldMeans(items[..n]);
      assert items == items[..n] + [items[n]];
      WordSetGrows(items[..n], items[n]);
    }
  }

  lemma {:induction false} WeightWithout(b: seq<Entry>, j: nat, w: nat)
    requires j < |b|
    ensures WeightOf(b, w) == WeightOf(b[..j] + b[j + 1..], w) + Share(b[j], w)
    decreases |b|
  {
    var n := |b| - 1;
    if j == n {
      assert b[..j] + b[j + 1..] == b[..n];
    } else {
      WeightWithout(b[..n], j, w);
      var rest := b[..j] + b[j + 1..];
      assert rest[..|rest| - 1] == b[..n][..j] + b[..n][j + 1..];
      assert rest[|rest| - 1] == b[n];
    }
  }

  function Drop(b: seq<Entry>, j: nat): seq<Entry>
    requires j < |b|
  {
    b[..j] + b[j + 1..]
  }

  /** The last item of a occurs in b; without it the two still hold the same items. */
  lemma FindLast(a: seq<Entry>, b: seq<Entry>) returns (j: nat)
    requires a != [] && multiset(a) == multiset(b)
    ensures j < |b| && b[j] == a[|a| - 1] && multiset(Drop(b, j)) == multiset(a[..|a| - 1])
  {
    var n := |a| - 1;
    assert a == a[..n] + [a[n]];
    assert a[n] in multiset(b);
    j :| 0 <= j < |b| && b[j] == a[n];
    DropOne(b, j);
    DropOne(a, n);
    assert Drop(a, n) == a[..n];
    CancelOne(multiset(Drop(b, j)), multiset(a[..n]), a[n]);
  }

  lemma CancelOne(x: multiset<Entry>, y: multiset<Entry>, e: Entry)
    requires x + multiset{e} == y + multiset{e}
    ensures x == y
  {
    assert x == (x + multiset{e}) - multiset{e};
    assert y == (y + multiset{e}) - multiset{e};
  }

  lemma DropOne(b: seq<Entry>, j: nat)
    requires j < |b|
    ensures multiset(b) == multiset(Drop(b, j)) + multiset{b[j]}
  {
    assert b == b[..j] + [b[j]] + b[j + 1..];
  }

  /** The order of the features does not matter. */
  lemma {:induction false} WeightPermutes(a: seq<Entry>, b: seq<Entry>, w: nat)
    requires multiset(a) == multiset(b)
    ensures WeightOf(a, w) == WeightOf(b, w)
  {
    if a == [] {
      assert |multiset(b)| == 0;
    } else {
      var j := FindLast(a, b);
      WeightPermutes(a[..|a| - 1], Drop(b, j), w);
      WeightWithout(b, j, w);
    }
  }

  lemma {:induction false} FoldPermutes(a: seq<Entry>, b: seq<Entry>)
    requires multiset(a) == multiset(b)
    ensures Fold(a) == Fold(b)
  {
    FoldMeans(a);
    FoldMeans(b);
    SameWords(a, b);
    SameWords(b, a);
    forall w | w in Fold(a)
      ensures Fold(a)[w] == Fold(b)[w]
    {
      WeightPermutes(a, b, w);
    }
  }

  lemma SameWords(a: seq<Entry>, b: seq<Entry>)
    requires multiset(a) == multiset(b)
    ensures WordSet(a) <= WordSet(b)
  {
    forall w | w in WordSet(a)
      ensures w in WordSet(b)
    {
      var i :| 0 <= i < |a| && a[i].word == w;
      assert a[i] in multiset(b);
      var j :| 0 <= j < |b| && b[j] == a[i];
    }
  }

  // ---- L1 norm -------------------------------------------------------------------

  function Abs(x: real): real {
    if x < 0.0 then -x else x
  }

  ghost function Magnitudes(bag: Table): Table {
    map w | w in bag :: Abs(bag[w])
  }

  ghost function Norm(bag: Table): real {
    Total(Magnitudes(bag))
  }

  ghost function Normalised(bag: Table): Table {
    if Norm(bag) > 0.0 then Scaled(bag, 1.0 / Norm(bag)) else bag
  }

  lemma DivideIsScale(x: real, n: real)
    requires n > 0.0
    ensures x / n == Product(x, 1.0 / n)
  {
  }

  ghost predicate NonNegative(bag: Table) {
    forall w :: w in bag ==> bag[w] >= 0.0
  }

  /** A bag with positive norm is normalised to norm 1, and stays non-negative. */
  lemma {:induction false} NormalisedHasUnitNorm(bag: Table)
    requires NonNegative(bag) && Norm(bag) > 0.0
    ensures NonNegative(Normalised(bag)) && Norm(Normalised(bag)) == 1.0
  {
    var n := Norm(bag);
    forall w | w in bag
      ensures Product(bag[w], 1.0 / n) >= 0.0
    {
      Positive(bag[w], n);
    }
    assert Magnitudes(bag) == bag;
    assert Magnitudes(Normalised(bag)) == Normalised(bag);
    TotalScales(bag, 1.0 / n);
    DivideIsScale(n, n);
  }

  lemma Positive(x: real, n: real)
    requires x >= 0.0 && n > 0.0
    ensures Product(x, 1.0 / n) >= 0.0
  {
    assert 1.0 / n > 0.0;
  }

  // ---- the flat vector --------------------------------------------------------------

  predicate WordsIncrease(s: seq<Entry>) {
    forall i, j :: 0 <= i < j < |s| ==> s[i].word < s[j].word
  }

  predicate WordsSorted(s: seq<Entry>) {
    forall i, j :: 0 <= i < j < |s| ==> s[i].word <= s[j].word
  }

  /** The bag a vector with increasing words stands for. */
  function BagOf(s: seq<Entry>): Table {
    if s == [] then map[] else BagOf(s[..|s| - 1])[s[|s| - 1].word := s[|s| - 1].weight]
  }

  /** s lists the bag in ascending order of words. */
  ghost predicate Lists(s: seq<Entry>, bag: Table) {
    WordsIncrease(s) && BagOf(s) == bag
  }

  lemma {:induction false} BagKeys(s: seq<Entry>)
    ensures BagOf(s).Keys == WordSet(s)
  {
    if s != [] {
      var n := |s| - 1;
      BagKeys(s[..n]);
      assert s == s[..n] + [s[n]];
      WordSetGrows(s[..n], s[n]);
    }
  }

  /** An item with the last word adds to it. */
  lemma MergeIntoLast(s: seq<Entry>, bag: Table, e: Entry)
    requires Lists(s, bag) && s != [] && s[|s| - 1].word == e.word
    ensures Lists(s[..|s| - 1] + [Entry(e.word, s[|s| - 1].weight + e.weight)], AddWeight(bag, e))
  {
    var t := s[..|s| - 1] + [Entry(e.word, s[|s| - 1].weight + e.weight)];
    assert t[..|t| - 1] == s[..|s| - 1];
  }

  /** An item with a later word is appended. */
  lemma MergeAsNew(s: seq<Entry>, bag: Table, e: Entry)
    requires Lists(s, bag) && (s != [] ==> s[|s| - 1].word < e.word)
    ensures Lists(s + [e], AddWeight(bag, e))
  {
    AllBelow(s, e.word);
    assert (s + [e])[..|s|] == s;
  }

  lemma AllBelow(s: seq<Entry>, w: nat)
    requires WordsIncrease(s) && (s != [] ==> s[|s| - 1].word < w)
    ensures w !in BagOf(s) && WordsIncrease(s + [Entry(w, 0.0)]) && forall i :: 0 <= i < |s| ==> s[i].word < w
  {
    BagKeys(s);
  }

  /** Merge equal words of a sorted vector in place. */
  method Merge(a: array<Entry>) returns (output: nat)
    requires WordsSorted(a[..])
    modifies a
    ensures output <= a.Length && Lists(a[..output], Fold(old(a[..])))
  {
    hide Lists, WordsSorted, Fold, AddWeight;
    ghost var s := a[..];
    output := 0;
    EmptyLists();
    assert a[..output] == [] && s[..0] == [];
    var i := 0;
    while i < a.Length
      invariant 0 <= output <= i <= a.Length && (output == 0 <==> i == 0)
      invariant a[i..] == s[i..] && Lists(a[..output], Fold(s[..i]))
      invariant output > 0 ==> a[output - 1].word == s[i - 1].word
    {
      var item := a[i];
      assert item == s[i] by {
        assert a[i..][0] == s[i..][0];
      }
      if i > 0 {
        SortedNeighbours(s, i);
      }
      FoldStep(s, i);
      if output > 0 && a[output - 1].word == item.word {
        MergeIntoLast(a[..output], Fold(s[..i]), item);
        ghost var before := a[..output];
        a[output - 1] := Entry(item.word, a[output - 1].weight + item.weight);
        assert a[..output] == before[..output - 1] + [Entry(item.word, before[output - 1].weight + item.weight)];
      } else {
        MergeAsNew(a[..output], Fold(s[..i]), item);
        ghost var before := a[..output];
        a[output] := item;
        output := output + 1;
        assert a[..output] == before + [item];
      }
      i := i + 1;
    }
    assert s[..i] == s;
  }

  lemma FoldStep(s: seq<Entry>, i: nat)
    requires i < |s|
    ensures Fold(s[..i + 1]) == AddWeight(Fold(s[..i]), s[i])
  {
    assert s[..i + 1][..i] == s[..i];
  }

  lemma EmptyLists()
    ensures Lists([], Fold([]))
  {
  }

  lemma SortedNeighbours(s: seq<Entry>, i: nat)
    requires WordsSorted(s) && 0 < i < |s|
    ensures s[i - 1].word <= s[i].word
  {
  }

  // ---- normalising in place ------------------------------------------------------------

  lemma {:induction false} MagnitudesList(s: seq<Entry>)
    requires WordsIncrease(s)
    ensures s != [] ==>
      var n := |s| - 1;
      WordsIncrease(s[..n]) && Norm(BagOf(s)) == Norm(BagOf(s[..n])) + Abs(s[n].weight)
    ensures s == [] ==> Norm(BagOf(s)) == 0.0
  {
    if s == [] {
      assert Magnitudes(BagOf(s)) == map[];
    } else {
      var n := |s| - 1;
      BeforeLast(s);
      var bag := BagOf(s[..n]);
      assert Magnitudes(BagOf(s)) == Magnitudes(bag)[s[n].word := Abs(s[n].weight)];
      TotalAdds(Magnitudes(bag), s[n].word, Abs(s[n].weight));
    }
  }

  lemma BeforeLast(s: seq<Entry>)
    requires WordsIncrease(s) && s != []
    ensures WordsIncrease(s[..|s| - 1]) && s[|s| - 1].word !in BagOf(s[..|s| - 1])
  {
    BagKeys(s[..|s| - 1]);
  }

  lemma PrefixIncreases(s: seq<Entry>, n: nat)
    requires WordsIncrease(s) && n <= |s|
    ensures WordsIncrease(s[..n])
  {
  }

  method NormOf(a: array<Entry>, n: nat) returns (norm: real)
    requires n <= a.Length && WordsIncrease(a[..n])
    ensures norm == Norm(BagOf(a[..n]))
  {
    hide Norm, BagOf, WordsIncrease;
    norm := 0.0;
    ghost var s := a[..n];
    PrefixIncreases(s, 0);
    MagnitudesList(s[..0]);
    for i := 0 to n
      invariant norm == Norm(BagOf(s[..i]))
    {
      PrefixIncreases(s, i + 1);
      MagnitudesList(s[..i + 1]);
      assert s[..i + 1][..i] == s[..i] && s[..i + 1][i] == a[i];
      norm := norm + Abs(a[i].weight);
    }
    assert s[..n] == s;
  }

  function Divided(s: seq<Entry>, norm: real): (r: seq<Entry>)
    requires norm > 0.0
    ensures |r| == |s|
    ensures forall i :: 0 <= i < |s| ==> r[i] == Entry(s[i].word, s[i].weight / norm)
  {
    seq(|s|, i requires 0 <= i < |s| => Entry(s[i].word, s[i].weight / norm))
  }

  lemma {:induction false} DividedBag(s: seq<Entry>, norm: real)
    requires norm > 0.0 && WordsIncrease(s)
    ensures WordsIncrease(Divided(s, norm)) && BagOf(Divided(s, norm)) == Scaled(BagOf(s), 1.0 / norm)
  {
    if s == [] {
      assert BagOf(Divided(s, norm)) == Scaled(BagOf(s), 1.0 / norm);
    } else {
      var n := |s| - 1;
      BeforeLast(s);
      DividedBag(s[..n], norm);
      assert Divided(s, norm)[..n] == Divided(s[..n], norm);
      DivideIsScale(s[n].weight, norm);
      assert BagOf(Divided(s, norm)) == BagOf(Divided(s[..n], norm))[s[n].word := Product(s[n].weight, 1.0 / norm)];
      hide Product;
    }
  }

  method DivideAll(a: array<Entry>, n: nat, norm: real)
    requires n <= a.Length && norm > 0.0
    modifies a
    ensures a[..n] == Divided(old(a[..n]), norm)
  {
    hide Divided;
    ghost var s := a[..n];
    var i := 0;
    while i < n
      invariant 0 <= i <= n
      invariant forall j :: 0 <= j < i ==> a[j] == Entry(s[j].word, s[j].weight / norm)
      invariant forall j :: i <= j < n ==> a[j] == s[j]
    {
      a[i] := Entry(a[i].word, a[i].weight / norm);
      i := i + 1;
    }
  }

  method NormaliseFlat(a: array<Entry>, n: nat)
    requires n <= a.Length && WordsIncrease(a[..n])
    modifies a
    ensures Lists(a[..n], Normalised(BagOf(old(a[..n]))))
  {
    hide Norm, BagOf, WordsIncrease, Divided, Scaled;
    var norm := NormOf(a, n);
    if norm > 0.0 {
      DividedBag(a[..n], norm);
      DivideAll(a, n, norm);
    }
  }

  /** From the features of a frame, sorted by word in whatever order of equal words, to its normalised bag. */
  method FlatTransform(a: array<Entry>, ghost features: seq<Entry>) returns (n: nat)
    requires multiset(a[..]) == multiset(features) && WordsSorted(a[..])
    modifies a
    ensures n <= a.Length && Lists(a[..n], Normalised(Fold(features)))
  {
    hide Normalised, WordsSorted, WordsIncrease, BagOf;
    FoldPermutes(a[..], features);
    n := Merge(a);
    NormaliseFlat(a, n);
  }

  // ---- the map updated in place -----------------------------------------------------------

  class BowVector {
    var words: Table

    constructor ()
      ensures words == map[]
    {
      words := map[];
    }

    method Add(id: nat, v: real)
      modifies this
      ensures words == AddWeight(old(words), Entry(id, v))
    {
      if id in words {
        words := words[id := words[id] + v];
      } else {
        words := words[id := v];
      }
    }

    method Normalise()
      modifies this
      ensures words == Normalised(old(words))
    {
      hide Total;
      ghost var bag := words;
      var norm := 0.0;
      var todo := words.Keys;
      ghost var seen: Table := map[];
      NoMagnitudes();
      while todo != {}
        invariant todo <= words.Keys && words == bag
        invariant seen == map w | w in bag && w !in todo :: bag[w]
        invariant norm == Norm(seen)
        decreases todo
      {
        var w :| w in todo;
        NormTakes(seen, w, bag[w]);
        norm := norm + Abs(words[w]);
        seen := seen[w := bag[w]];
        todo := todo - {w};
      }
      assert seen == bag;
      if norm > 0.0 {
        DivideWords(norm);
      }
    }

    method DivideWords(norm: real)
      requires norm > 0.0
      modifies this
      ensures words == Scaled(old(words), 1.0 / norm)
    {
      ghost var bag := words;
      var todo := words.Keys;
      while todo != {}
        invariant todo <= words.Keys == bag.Keys
        invariant forall w :: w in todo ==> words[w] == bag[w]
        invariant forall w :: w in bag && w !in todo ==> words[w] == Product(bag[w], 1.0 / norm)
        decreases todo
      {
        var w :| w in todo;
        DivideIsScale(words[w], norm);
        words := words[w := words[w] / norm];
        todo := todo - {w};
      }
    }
  }

  lemma NoMagnitudes()
    ensures Norm(map[]) == 0.0
  {
    assert Magnitudes(map[]) == map[];
  }

  lemma NormTakes(bag: Table, w: nat, v: real)
    requires w !in bag
    ensures Norm(bag[w := v]) == Norm(bag) + Abs(v)
  {
    assert Magnitudes(bag[w := v]) == Magnitudes(bag)[w := Abs(v)];
    TotalAdds(Magnitudes(bag), w, Abs(v));
  }

  /** Folding the features into a map and normalising it: the same bag as the flat vector lists. */
  method MapTransform(features: seq<Entry>) returns (v: BowVector)
    ensures fresh(v) && v.words == Normalised(Fold(features))
  {
    hide Normalised;
    v := new BowVector();
    for i := 0 to |features|
      invariant v.words == Fold(features[..i])
      invariant fresh(v)
    {
      assert features[..i + 1][..i] == features[..i];
      v.Add(features[i].word, features[i].weight);
    }
    assert features[..|features|] == features;
    v.Normalise();
  }
}
