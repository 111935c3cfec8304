/** Sorting by a given order; nothing but the order of the result is promised for equal ranks. */
module Sorting {

  ghost predicate Orders<T(!new)>(le: (T, T) -> bool) {
    && (forall a, b :: le(a, b) || le(b, a))
    && (forall a, b, c :: le(a, b) && le(b, c) ==> le(a, c))
  }

  ghost predicate SortedBy<T(!new)>(s: seq<T>, le: (T, T) -> bool) {
    forall i, j :: 0 <= i < j < |s| ==> le(s[i], s[j])
  }

  ghost predicate Distinct<T(!new)>(s: seq<T>) {
    forall i, j :: 0 <= i < j < |s| ==> s[i] != s[j]
  }

  ghost predicate SameElements<T(!new)>(s: seq<T>, r: seq<T>) {
    |s| == |r| && (forall x :: x in s <==> x in r) && (Distinct(s) ==> Distinct(r))
  }

  method Insert<T(!new)>(s: seq<T>, x: T, le: (T, T) -> bool) returns (r: seq<T>)
    requires Orders(le) && SortedBy(s, le)
    ensures SortedBy(r, le) && SameElements(s + [x], r)
  {
    var i := 0;
    while i < |s| && le(s[i], x)
      invariant 0 <= i <= |s| && forall j :: 0 <= j < i ==> le(s[j], x)
    {
      i := i + 1;
    }
    r := s[..i] + [x] + s[i..];
    Inserted(s, x, i, r);
    assert forall j :: i <= j < |s| ==> le(x, s[j]) by {
      if i < |s| {
        assert le(x, s[i]);
      }
    }
  }

  lemma Inserted<T(!new)>(s: seq<T>, x: T, i: nat, r: seq<T>)
    requires i <= |s| && r == s[..i] + [x] + s[i..]
    ensures SameElements(s + [x], r)
  {
    assert s == s[..i] + s[i..];
    forall y | y in s + [x]
      ensures y in r
    {
    }
    if Distinct(s + [x]) {
      forall k | 0 <= k < |s|
        ensures s[k] != x
      {
        assert (s + [x])[k] == s[k] && (s + [x])[|s|] == x;
      }
      forall j, k | 0 <= j < k < |s|
        ensures s[j] != s[k]
      {
        assert (s + [x])[j] == s[j] && (s + [x])[k] == s[k];
      }
    }
  }

  method SortBy<T(!new)>(s: seq<T>, le: (T, T) -> bool) returns (r: seq<T>)
    requires Orders(le)
    ensures SortedBy(r, le) && SameElements(s, r)
  {
    hide SortedBy, SameElements, Orders;
    r := [];
    NothingSorted(le);
    assert s[..0] == [];
    for i := 0 to |s|
      invariant SortedBy(r, le) && SameElements(s[..i], r)
    {
      var next := Insert(r, s[i], le);
      OneMore(s, i, r, next);
      r := next;
    }
    assert s[..|s|] == s;
  }

  lemma NothingSorted<T(!new)>(le: (T, T) -> bool)
    ensures SortedBy([], le) && SameElements<T>([], [])
  {
  }

  lemma OneMore<T(!new)>(s: seq<T>, i: nat, r: seq<T>, next: seq<T>)
    requires i < |s| && SameElements(s[..i], r) && SameElements(r + [s[i]], next)
    ensures SameElements(s[..i + 1], next)
  {
    assert s[..i + 1] == s[..i] + [s[i]];
    if Distinct(s[..i + 1]) {
      assert forall j, k :: 0 <= j < k < i ==> s[..i][j] == s[..i + 1][j] && s[..i][k] == s[..i + 1][k];
      assert Distinct(s[..i]);
      forall j | 0 <= j < |r|
        ensures r[j] != s[i]
      {
        assert r[j] in s[..i];
        var k :| 0 <= k < i && s[..i][k] == r[j];
        assert s[..i + 1][k] == s[..i][k] && s[..i + 1][i] == s[i];
      }
    }
  }
}
