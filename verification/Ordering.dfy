/** Keys in ascending order, the order in which the ordered containers of the program are walked. */
module Ordering {

  predicate IsLeast(m: nat, s: set<nat>) {
    m in s && forall x :: x in s ==> m <= x
  }

  function Least(s: set<nat>): (m: nat)
    requires s != {}
    ensures IsLeast(m, s)
  {
    LeastExists(s);
    var m :| IsLeast(m, s);
    m
  }

  lemma {:induction false} LeastExists(s: set<nat>)
    requires s != {}
    ensures exists m :: IsLeast(m, s)
  {
    var a :| a in s;
    var rest := s - {a};
    if rest == {} {
      OnlyMember(s, a);
    } else {
      LeastExists(rest);
      var b :| IsLeast(b, rest);
      LeastOfMore(s, a, b);
    }
  }

  lemma OnlyMember(s: set<nat>, a: nat)
    requires a in s && s - {a} == {}
    ensures IsLeast(a, s)
  {
    assert forall x :: x in s && x != a ==> x in s - {a};
  }

  lemma LeastOfMore(s: set<nat>, a: nat, b: nat)
    requires a in s && IsLeast(b, s - {a})
    ensures IsLeast(if a < b then a else b, s)
  {
    assert forall x :: x in s && x != a ==> x in s - {a};
  }

  predicate Increasing(a: seq<nat>) {
    forall i, j :: 0 <= i < j < |a| ==> a[i] < a[j]
  }

  function Ascending(s: set<nat>): (r: seq<nat>)
    ensures |r| == |s|
    ensures Increasing(r)
    ensures forall x :: x in r <==> x in s
    decreases |s|
  {
    if s == {} then [] else
      var m := Least(s);
      var rest := Ascending(s - {m});
      Prepended(s, m, rest);
      [m] + rest
  }

  lemma Prepended(s: set<nat>, m: nat, rest: seq<nat>)
    requires IsLeast(m, s) && Increasing(rest) && |rest| == |s - {m}| && forall x :: x in rest <==> x in s - {m}
    ensures |[m] + rest| == |s| && Increasing([m] + rest) && forall x :: x in [m] + rest <==> x in s
  {
    var r := [m] + rest;
    assert s == s - {m} + {m};
    forall i, j | 0 <= i < j < |r|
      ensures r[i] < r[j]
    {
      assert r[j] == rest[j - 1] && rest[j - 1] in rest;
    }
  }

  lemma LastIsGreatest(a: seq<nat>)
    requires Increasing(a) && a != []
    ensures a[|a| - 1] in a && forall x :: x in a ==> x <= a[|a| - 1]
  {
  }

  lemma IncreasingAppend(a: seq<nat>, x: nat)
    requires Increasing(a) && forall y :: y in a ==> y < x
    ensures Increasing(a + [x])
  {
    assert forall i :: 0 <= i < |a| ==> a[i] in a;
  }

  lemma IncreasingOrder(a: seq<nat>, i: nat, j: nat)
    requires Increasing(a) && i < |a| && j < |a|
    ensures a[i] < a[j] <==> i < j
    ensures i + 1 < j ==> a[i + 1] in a && a[i] < a[i + 1] < a[j]
  {
  }

  lemma IncreasingDistinct(a: seq<nat>, i: nat, j: nat)
    requires Increasing(a) && i < j < |a|
    ensures a[i] != a[j]
  {
  }

  /** The first n elements as a set. */
  ghost function Front(a: seq<nat>, n: nat): set<nat>
    requires n <= |a|
  {
    set x | x in a[..n]
  }

  lemma FrontGrows(a: seq<nat>, n: nat)
    requires Increasing(a) && n < |a|
    ensures a[n] in a && a[n] !in Front(a, n) && Front(a, n + 1) == Front(a, n) + {a[n]}
  {
    assert a[..n + 1] == a[..n] + [a[n]];
  }

  lemma FrontMembers(a: seq<nat>, n: nat)
    requires n <= |a|
    ensures forall i :: 0 <= i < n ==> a[i] in Front(a, n)
  {
    forall i | 0 <= i < n
      ensures a[i] in Front(a, n)
    {
      assert a[..n][i] == a[i];
    }
  }

  lemma FrontIsAll(a: seq<nat>, s: set<nat>)
    requires forall x :: x in a <==> x in s
    ensures Front(a, 0) == {} && Front(a, |a|) == s
  {
    assert a[..|a|] == a;
  }

  lemma FrontOfAll(a: seq<nat>)
    ensures Front(a, 0) == {} && forall x :: x in Front(a, |a|) <==> x in a
  {
    assert a[..|a|] == a;
  }

  lemma {:induction false} FrontSize(a: seq<nat>, n: nat)
    requires Increasing(a) && n <= |a|
    ensures |Front(a, n)| == n
  {
    hide Front, Increasing;
    if n == 0 {
      FrontOfAll(a);
    } else {
      FrontSize(a, n - 1);
      FrontGrows(a, n - 1);
    }
  }

  lemma SubsetSize(a: set<nat>, b: set<nat>)
    requires a <= b
    ensures |a| <= |b|
  {
    assert b == a + (b - a);
  }
}
