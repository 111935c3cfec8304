/** The gauge of a bundle adjustment: two fixed poses in every component that the selected points connect. */
module FixedPoses {
  import opened Ordering
  import opened UnionFind

  function Min(a: nat, b: nat): nat {
    if a < b then a else b
  }

  /** The positions connected with position i. */
  ghost function ClassOf(root: seq<nat>, r: nat): set<nat> {
    set j | 0 <= j < |root| && root[j] == r
  }

  lemma Bigger(s: set<nat>, x: nat)
    requires x !in s
    ensures |s + {x}| == |s| + 1
  {
  }

  /** Up to two members: requested ones first, then any. */
  ghost predicate TwoOf(members: set<nat>, requested: set<nat>, chosen: set<nat>) {
    && chosen <= members && |chosen| == Min(2, |members|)
    && |chosen * requested| == Min(2, |members * requested|)
  }

  method ChooseRequested(members: seq<nat>, requested: set<nat>) returns (chosen: set<nat>)
    requires Increasing(members)
    ensures chosen <= Front(members, |members|) * requested
    ensures |chosen| == 2 || (|chosen| < 2 && chosen == Front(members, |members|) * requested)
  {
    hide Increasing, Front;
    chosen := {};
    FrontOfAll(members);
    FrontMembers(members, |members|);
    var i := 0;
    while i < |members|
      invariant 0 <= i <= |members| && |chosen| < 2 && chosen == Front(members, i) * requested
      invariant Front(members, i) <= Front(members, |members|)
    {
      FrontGrows(members, i);
      if members[i] in requested {
        Bigger(chosen, members[i]);
        chosen := chosen + {members[i]};
        if |chosen| == 2 {
          assert chosen <= Front(members, i + 1) * requested;
          return;
        }
      }
      i := i + 1;
    }
  }

  method Complete(members: seq<nat>, first: set<nat>) returns (chosen: set<nat>)
    requires Increasing(members) && first <= Front(members, |members|) && |first| <= 2
    ensures first <= chosen <= Front(members, |members|) && |chosen| <= 2
    ensures |chosen| == 2 || chosen == Front(members, |members|)
    ensures |first| == 2 ==> chosen == first
  {
    hide Increasing, Front;
    chosen := first;
    FrontMembers(members, |members|);
    FrontOfAll(members);
    var i := 0;
    while i < |members| && |chosen| != 2
      invariant 0 <= i <= |members| && first <= chosen && |chosen| <= 2 && Front(members, i) <= chosen
      invariant chosen <= Front(members, |members|) && (|first| == 2 ==> chosen == first)
    {
      FrontGrows(members, i);
      if members[i] !in chosen {
        Bigger(chosen, members[i]);
        chosen := chosen + {members[i]};
      }
      i := i + 1;
    }
  }

  lemma ChosenTwo(members: set<nat>, requested: set<nat>, first: set<nat>, chosen: set<nat>)
    requires first <= members * requested && (|first| == 2 || (|first| < 2 && first == members * requested))
    requires first <= chosen <= members && |chosen| <= 2 && (|chosen| == 2 || chosen == members)
    requires |first| == 2 ==> chosen == first
    ensures TwoOf(members, requested, chosen)
  {
    SubsetSize(chosen, members);
    SubsetSize(first, members * requested);
    if |first| == 2 {
      assert chosen * requested == first;
    } else {
      assert chosen * requested == first;
    }
  }

  method PickTwo(members: seq<nat>, requested: set<nat>) returns (chosen: set<nat>)
    requires Increasing(members)
    ensures TwoOf(Front(members, |members|), requested, chosen)
  {
    hide Increasing, Front, TwoOf;
    var first := ChooseRequested(members, requested);
    chosen := Complete(members, first);
    ChosenTwo(Front(members, |members|), requested, first, chosen);
  }

  /** Every component in ascending order of positions, under its root. */
  ghost predicate Components(root: seq<nat>, n: nat, components: map<nat, seq<nat>>)
    requires n <= |root|
  {
    && (forall r :: r in components <==> exists j :: 0 <= j < n && root[j] == r)
    && (forall r :: r in components ==>
          Increasing(components[r]) && forall j: nat :: j in components[r] <==> j < n && root[j] == r)
  }

  lemma ComponentsMore(root: seq<nat>, n: nat, components: map<nat, seq<nat>>)
    requires n < |root| && Components(root, n, components)
    ensures Components(root, n + 1,
      components[root[n] := (if root[n] in components then components[root[n]] else []) + [n]])
  {
    var r := root[n];
    var members := if r in components then components[r] else [];
    hide Increasing;
    EmptyIncreases();
    IncreasingAppend(members, n);
  }

  lemma EmptyIncreases()
    ensures Increasing([])
  {
  }

  method FindComponents(f: Forest) returns (components: map<nat, seq<nat>>)
    requires f.Valid()
    ensures |f.root| == f.parent.Length && Components(f.root, |f.root|, components)
  {
    hide Components, Represents, LinksInside, Tree;
    f.Sizes();
    components := map[];
    NoComponents(f.root);
    for i := 0 to f.parent.Length
      invariant Components(f.root, i, components)
    {
      var r := f.FindRoot(i);
      ComponentsMore(f.root, i, components);
      components := components[r := (if r in components then components[r] else []) + [i]];
    }
  }

  lemma NoComponents(root: seq<nat>)
    ensures Components(root, 0, map[])
  {
  }

  lemma ComponentIsClass(root: seq<nat>, components: map<nat, seq<nat>>, r: nat)
    requires Components(root, |root|, components) && r in components
    ensures Increasing(components[r]) && Front(components[r], |components[r]|) == ClassOf(root, r)
  {
    hide Increasing;
    assert components[r][..|components[r]|] == components[r];
  }

  /** Fixed so far: two of every finished component, nothing of the others. */
  ghost predicate Fixing(root: seq<nat>, requested: set<nat>, fixed: set<nat>, todo: set<nat>) {
    && (forall j :: j in fixed ==> j < |root| && root[j] !in todo)
    && (forall j :: 0 <= j < |root| && root[j] !in todo ==>
          TwoOf(ClassOf(root, root[j]), requested, fixed * ClassOf(root, root[j])))
  }

  lemma FixingMore(root: seq<nat>, requested: set<nat>, fixed: set<nat>, todo: set<nat>, r: nat, chosen: set<nat>)
    requires Fixing(root, requested, fixed, todo) && r in todo && TwoOf(ClassOf(root, r), requested, chosen)
    ensures Fixing(root, requested, fixed + chosen, todo - {r})
  {
    var next := fixed + chosen;
    forall j | 0 <= j < |root| && root[j] !in todo - {r}
      ensures TwoOf(ClassOf(root, root[j]), requested, next * ClassOf(root, root[j]))
    {
      if root[j] == r {
        assert next * ClassOf(root, r) == chosen;
      } else {
        assert next * ClassOf(root, root[j]) == fixed * ClassOf(root, root[j]);
      }
    }
  }

  /**
   * Positions 0..n-1 are connected by the frame lists of the selected points; every component gets
   * exactly min(2, size) fixed poses, requested ones as far as the component has them.
   */
  method ChooseFixed(n: nat, lists: seq<seq<nat>>, requested: set<nat>) returns (fixed: set<nat>, ghost root: seq<nat>)
    requires Below(lists, n)
    ensures |root| == n && LinksInside(ListLinks(lists), n) && Represents(root, ListLinks(lists))
    ensures forall j :: j in fixed ==> j < n
    ensures forall j :: 0 <= j < n ==> TwoOf(ClassOf(root, root[j]), requested, fixed * ClassOf(root, root[j]))
  {
    hide Components, Represents, LinksInside, Tree, ListLinks, TwoOf, ClassOf, Increasing, Front, Below;
    var f := UniteLists(n, lists);
    root := f.root;
    var components := FindComponents(f);
    fixed := {};
    var todo := components.Keys;
    FixingStarts(root, requested, components);
    while todo != {}
      invariant todo <= components.Keys && Fixing(root, requested, fixed, todo)
      decreases todo
    {
      var r :| r in todo;
      ComponentIsClass(root, components, r);
      var chosen := PickTwo(components[r], requested);
      FixingMore(root, requested, fixed, todo, r, chosen);
      fixed := fixed + chosen;
      todo := todo - {r};
    }
  }

  lemma FixingStarts(root: seq<nat>, requested: set<nat>, components: map<nat, seq<nat>>)
    requires Components(root, |root|, components)
    ensures Fixing(root, requested, {}, components.Keys)
  {
  }

  /** Read through the connectivity itself: the fixed poses among those connected with j. */
  lemma {:induction false} ClassIsConnected(root: seq<nat>, links: Links, j: nat)
    requires j < |root| && Represents(root, links) && LinksInside(links, |root|)
    ensures forall i: nat :: i in ClassOf(root, root[j]) <==> i < |root| && Joined(links, j, i)
  {
    hide Represents, LinksInside, Joined;
    forall i: nat | i < |root|
      ensures root[i] == root[j] <==> Joined(links, j, i)
    {
      RootsDecide(root, links, j, i);
    }
  }
}
