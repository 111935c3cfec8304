/** Disjoint sets in a parent array, and what they mean: connectedness through the united pairs. */
module UnionFind {

  type Links = set<(nat, nat)>

  predicate Adjacent(links: Links, a: nat, b: nat) {
    (a, b) in links || (b, a) in links
  }

  ghost predicate IsPath(links: Links, path: seq<nat>, a: nat, b: nat) {
    && path != [] && path[0] == a && path[|path| - 1] == b
    && forall i :: 0 < i < |path| ==> Adjacent(links, path[i - 1], path[i])
  }

  /** a and b are connected through links. */
  ghost predicate Joined(links: Links, a: nat, b: nat) {
    exists path :: IsPath(links, path, a, b)
  }

  lemma JoinedSelf(links: Links, a: nat)
    ensures Joined(links, a, a)
  {
    assert IsPath(links, [a], a, a);
  }

  lemma JoinedLink(links: Links, a: nat, b: nat)
    requires Adjacent(links, a, b)
    ensures Joined(links, a, b)
  {
    assert IsPath(links, [a, b], a, b);
  }

  lemma JoinedBack(links: Links, a: nat, b: nat)
    requires Joined(links, a, b)
    ensures Joined(links, b, a)
  {
    var path :| IsPath(links, path, a, b);
    var back := seq(|path|, i requires 0 <= i < |path| => path[|path| - 1 - i]);
    assert IsPath(links, back, b, a);
  }

  lemma JoinedOn(links: Links, a: nat, b: nat, c: nat)
    requires Joined(links, a, b) && Joined(links, b, c)
    ensures Joined(links, a, c)
  {
    var p :| IsPath(links, p, a, b);
    var q :| IsPath(links, q, b, c);
    assert IsPath(links, p + q[1..], a, c);
  }

  lemma JoinedMore(links: Links, more: Links, a: nat, b: nat)
    requires Joined(links, a, b) && links <= more
    ensures Joined(more, a, b)
  {
    var path :| IsPath(links, path, a, b);
    assert IsPath(more, path, a, b);
  }

  // ---- the meaning of the roots -------------------------------------------------

  /** Equal roots are exactly the elements connected through links. */
  ghost predicate Represents(root: seq<nat>, links: Links) {
    && (forall a, b :: 0 <= a < |root| && 0 <= b < |root| && Adjacent(links, a, b) ==> root[a] == root[b])
    && (forall a, b {:trigger root[a], root[b]} :: 0 <= a < |root| && 0 <= b < |root| && root[a] == root[b] ==>
          Joined(links, a, b))
  }

  ghost predicate LinksInside(links: Links, n: nat) {
    forall p :: p in links ==> p.0 < n && p.1 < n
  }

  lemma {:induction false} PathKeepsRoot(root: seq<nat>, links: Links, path: seq<nat>, a: nat, b: nat)
    requires Represents(root, links) && LinksInside(links, |root|) && a < |root| && IsPath(links, path, a, b)
    ensures b < |root| && root[a] == root[b]
    decreases |path|
  {
    if |path| > 1 {
      var n := |path| - 1;
      assert IsPath(links, path[..n], a, path[n - 1]);
      PathKeepsRoot(root, links, path[..n], a, path[n - 1]);
      assert Adjacent(links, path[n - 1], path[n]);
    }
  }

  /** So the roots decide connectedness. */
  lemma {:induction false} RootsDecide(root: seq<nat>, links: Links, a: nat, b: nat)
    requires Represents(root, links) && LinksInside(links, |root|) && a < |root| && b < |root|
    ensures root[a] == root[b] <==> Joined(links, a, b)
  {
    if Joined(links, a, b) {
      var path :| IsPath(links, path, a, b);
      PathKeepsRoot(root, links, path, a, b);
    }
  }

  /** The class of b renamed to the class of a. */
  function Merged(root: seq<nat>, a: nat, b: nat): (r: seq<nat>)
    requires a < |root| && b < |root|
    ensures |r| == |root|
    ensures forall x :: 0 <= x < |root| ==> r[x] == if root[x] == root[b] then root[a] else root[x]
  {
    seq(|root|, x requires 0 <= x < |root| => if root[x] == root[b] then root[a] else root[x])
  }

  lemma {:induction false} MergedRepresents(root: seq<nat>, links: Links, a: nat, b: nat)
    requires Represents(root, links) && a < |root| && b < |root|
    ensures Represents(Merged(root, a, b), links + {(a, b)})
  {
    var more := links + {(a, b)};
    var next := Merged(root, a, b);
    forall x, y | 0 <= x < |root| && 0 <= y < |root| && next[x] == next[y]
      ensures Joined(more, x, y)
    {
      MergedJoined(root, links, a, b, x, y);
    }
    forall x, y | 0 <= x < |root| && 0 <= y < |root| && Adjacent(more, x, y)
      ensures next[x] == next[y]
    {
      assert Adjacent(links, x, y) || (x == a && y == b) || (x == b && y == a);
    }
  }

  lemma MergedJoined(root: seq<nat>, links: Links, a: nat, b: nat, x: nat, y: nat)
    requires Represents(root, links) && a < |root| && b < |root| && x < |root| && y < |root|
    requires Merged(root, a, b)[x] == Merged(root, a, b)[y]
    ensures Joined(links + {(a, b)}, x, y)
  {
    hide IsPath;
    var more := links + {(a, b)};
    if root[x] == root[y] {
      assert Joined(links, x, y);
      JoinedMore(links, more, x, y);
    } else if root[x] == root[b] {
      Across(root, links, a, b, x, y);
    } else {
      Across(root, links, a, b, y, x);
      JoinedBack(more, y, x);
    }
  }

  lemma Across(root: seq<nat>, links: Links, a: nat, b: nat, x: nat, y: nat)
    requires Represents(root, links) && a < |root| && b < |root| && x < |root| && y < |root|
    requires root[x] == root[b] && root[y] == root[a]
    ensures Joined(links + {(a, b)}, x, y)
  {
    hide IsPath;
    var more := links + {(a, b)};
    assert Joined(links, x, b) && Joined(links, a, y);
    JoinedMore(links, more, x, b);
    JoinedMore(links, more, a, y);
    JoinedLink(more, b, a);
    JoinedOn(more, x, b, a);
    JoinedOn(more, x, a, y);
  }

  lemma SingletonsRepresent(n: nat, root: seq<nat>)
    requires |root| == n && forall x :: 0 <= x < n ==> root[x] == x
    ensures Represents(root, {})
  {
    forall a, b | 0 <= a < n && 0 <= b < n && root[a] == root[b]
      ensures Joined({}, a, b)
    {
      JoinedSelf({}, a);
    }
  }

  // ---- the parent array ------------------------------------------------------------

  ghost predicate NodeOk(parent: seq<nat>, root: seq<nat>, rank: seq<nat>, x: nat) {
    && |parent| == |root| == |rank| && x < |parent|
    && parent[x] < |parent| && root[x] < |parent| && (parent[x] == x <==> root[x] == x)
    && root[parent[x]] == root[x] && root[root[x]] == root[x]
    && (parent[x] != x ==> rank[parent[x]] < rank[x])
  }

  /** parent is a forest whose trees have these roots; rank grows along every edge away from the root. */
  ghost predicate Tree(parent: seq<nat>, root: seq<nat>, rank: seq<nat>) {
    |parent| == |root| == |rank| && forall x :: 0 <= x < |parent| ==> NodeOk(parent, root, rank, x)
  }

  function Lifted(root: seq<nat>, rank: seq<nat>, rb: nat, lift: nat): (r: seq<nat>)
    requires |root| == |rank|
    ensures |r| == |rank|
    ensures forall x :: 0 <= x < |rank| ==> r[x] == if root[x] == rb then rank[x] + lift else rank[x]
  {
    seq(|rank|, x requires 0 <= x < |rank| => if root[x] == rb then rank[x] + lift else rank[x])
  }

  /** Hanging one root below another gives a forest whose classes are merged. */
  lemma {:induction false} Attached(parent: seq<nat>, root: seq<nat>, rank: seq<nat>, a: nat, b: nat)
    requires Tree(parent, root, rank) && a < |root| && b < |root| && root[a] != root[b]
    ensures root[a] < |root| && root[b] < |root|
    ensures Tree(parent[root[b] := root[a]], Merged(root, a, b), Lifted(root, rank, root[b], rank[root[a]] + 1))
  {
    hide NodeOk, Merged, Lifted;
    NodeFacts(parent, root, rank, a);
    NodeFacts(parent, root, rank, b);
    var next, merged, lifted := parent[root[b] := root[a]], Merged(root, a, b),
                                Lifted(root, rank, root[b], rank[root[a]] + 1);
    forall x: nat | x < |parent|
      ensures NodeOk(next, merged, lifted, x)
    {
      AttachedAt(parent, root, rank, a, b, x);
    }
  }

  lemma NodeFacts(parent: seq<nat>, root: seq<nat>, rank: seq<nat>, x: nat)
    requires Tree(parent, root, rank) && x < |parent|
    ensures parent[x] < |parent| && root[x] < |parent| && root[parent[x]] == root[x] && root[root[x]] == root[x]
    ensures parent[x] == x <==> root[x] == x
    ensures parent[x] != x ==> rank[parent[x]] < rank[x]
  {
    assert NodeOk(parent, root, rank, x);
  }

  lemma AttachedAt(parent: seq<nat>, root: seq<nat>, rank: seq<nat>, a: nat, b: nat, x: nat)
    requires Tree(parent, root, rank) && |parent| == |root| == |rank| && a < |root| && b < |root| && x < |parent|
    requires root[a] < |root| && root[b] < |root| && root[a] != root[b]
    ensures NodeOk(parent[root[b] := root[a]], Merged(root, a, b), Lifted(root, rank, root[b], rank[root[a]] + 1), x)
  {
    hide Tree, Merged, Lifted;
    NodeFacts(parent, root, rank, x);
    NodeFacts(parent, root, rank, a);
    NodeFacts(parent, root, rank, b);
    NodeFacts(parent, root, rank, root[a]);
  }

  class Forest {
    const parent: array<nat>
    ghost var root: seq<nat>  // representative of every element
    ghost var rank: seq<nat>
    ghost var links: Links    // the pairs united so far

    ghost predicate Valid()
      reads this, parent
    {
      Tree(parent[..], root, rank) && LinksInside(links, |root|) && Represents(root, links)
    }

    constructor (n: nat)
      ensures Valid() && fresh(parent) && parent.Length == n && links == {}
    {
      parent := new nat[n](i => i);
      root := seq(n, i requires 0 <= i < n => i);
      rank := seq(n, i requires 0 <= i < n => 0);
      links := {};
      new;
      SingletonsRepresent(n, root);
    }

    method FindRoot(x: nat) returns (r: nat)
      requires Valid() && x < parent.Length
      ensures r < parent.Length && r < |root| && x < |root| && r == root[x]
    {
      hide Represents, LinksInside, Tree;
      Sizes();
      r := x;
      while parent[r] != r
        invariant r < parent.Length && root[r] == root[x]
        decreases rank[r]
      {
        NodeFacts(parent[..], root, rank, r);
        r := parent[r];
      }
      NodeFacts(parent[..], root, rank, r);
    }

    method Unite(a: nat, b: nat)
      requires Valid() && a < parent.Length && b < parent.Length
      modifies this, parent
      ensures Valid() && links == old(links) + {(a, b)}
      ensures a < |old(root)| && b < |old(root)| && root == Merged(old(root), a, b)
    {
      hide Represents, LinksInside, Tree;
      Sizes();
      MergedRepresents(root, links, a, b);
      MoreInside(links, |root|, a, b);
      var ra := FindRoot(a);
      var rb := FindRoot(b);
      if ra != rb {
        Attached(parent[..], root, rank, a, b);
        ghost var before := parent[..];
        parent[rb] := ra;
        assert parent[..] == before[rb := ra];
        rank := Lifted(root, rank, rb, rank[ra] + 1);
      } else {
        NothingToMerge(root, a, b);
      }
      root := Merged(root, a, b);
      links := links + {(a, b)};
    }

    lemma Sizes()
      requires Valid()
      ensures |root| == |rank| == parent.Length && forall x :: 0 <= x < |root| ==> root[x] < |root|
    {
      forall x: nat | x < |root|
        ensures root[x] < |root|
      {
        NodeFacts(parent[..], root, rank, x);
      }
    }
  }

  lemma MoreInside(links: Links, n: nat, a: nat, b: nat)
    requires LinksInside(links, n) && a < n && b < n
    ensures LinksInside(links + {(a, b)}, n)
  {
  }

  lemma NothingToMerge(root: seq<nat>, a: nat, b: nat)
    requires a < |root| && b < |root| && root[a] == root[b]
    ensures Merged(root, a, b) == root
  {
  }

  // ---- uniting whole lists -------------------------------------------------------------

  /** Any two members of one list are linked. */
  ghost function ListLinks(lists: seq<seq<nat>>): Links {
    set k, i, j | 0 <= k < |lists| && 0 <= i < |lists[k]| && 0 <= j < |lists[k]| :: (lists[k][i], lists[k][j])
  }

  ghost predicate Below(lists: seq<seq<nat>>, n: nat) {
    forall k, i :: 0 <= k < |lists| && 0 <= i < |lists[k]| ==> lists[k][i] < n
  }

  /** All members of the list have the root of its first member, for the first m of them. */
  ghost predicate Gathered(root: seq<nat>, list: seq<nat>, m: nat)
    requires m <= |list|
  {
    forall i :: 0 <= i < m ==> list[i] < |root| && list[0] < |root| && root[list[i]] == root[list[0]]
  }

  lemma MergedKeepsGathered(root: seq<nat>, a: nat, b: nat, list: seq<nat>, m: nat)
    requires a < |root| && b < |root| && m <= |list| && Gathered(root, list, m)
    ensures Gathered(Merged(root, a, b), list, m)
  {
  }

  lemma GatherOne(root: seq<nat>, list: seq<nat>, m: nat)
    requires 0 < m < |list| && list[0] < |root| && list[m] < |root| && Gathered(root, list, m)
    ensures Gathered(Merged(root, list[0], list[m]), list, m + 1)
  {
  }

  /** Unite the first member of every list with the others. */
  method UniteLists(n: nat, lists: seq<seq<nat>>) returns (f: Forest)
    requires Below(lists, n)
    ensures fresh(f) && fresh(f.parent) && f.Valid() && f.parent.Length == n == |f.root|
    ensures LinksInside(ListLinks(lists), n) && Represents(f.root, ListLinks(lists))
  {
    hide Represents, LinksInside, Tree, Gathered, ListLinks, Merged;
    f := new Forest(n);
    f.Sizes();
    for k := 0 to |lists|
      invariant fresh(f) && fresh(f.parent) && f.Valid() && f.parent.Length == n == |f.root|
      invariant f.links <= ListLinks(lists)
      invariant forall m :: 0 <= m < k ==> Gathered(f.root, lists[m], |lists[m]|)
    {
      UniteList(f, n, lists, k);
    }
    ListsRepresented(f, n, lists);
  }

  method UniteList(f: Forest, n: nat, lists: seq<seq<nat>>, k: nat)
    requires Below(lists, n) && k < |lists| && f.Valid() && f.parent.Length == n == |f.root|
    requires f.links <= ListLinks(lists)
    requires forall m :: 0 <= m < k ==> Gathered(f.root, lists[m], |lists[m]|)
    modifies f, f.parent
    ensures f.Valid() && n == |f.root| && f.links <= ListLinks(lists)
    ensures forall m :: 0 <= m <= k ==> Gathered(f.root, lists[m], |lists[m]|)
  {
    hide Represents, LinksInside, Tree, Gathered, ListLinks, Merged;
    var list := lists[k];
    GatherStart(f.root, list);
    var i := 1;
    while i < |list|
      invariant 1 <= i && f.Valid() && f.parent.Length == n == |f.root| && f.links <= ListLinks(lists)
      invariant forall m :: 0 <= m < k ==> Gathered(f.root, lists[m], |lists[m]|)
      invariant Gathered(f.root, list, if i <= |list| then i else |list|)
    {
      ghost var before := f.root;
      InLists(lists, k, 0, i);
      f.Unite(list[0], list[i]);
      f.Sizes();
      forall m | 0 <= m < k
        ensures Gathered(f.root, lists[m], |lists[m]|)
      {
        MergedKeepsGathered(before, list[0], list[i], lists[m], |lists[m]|);
      }
      GatherOne(before, list, i);
      i := i + 1;
    }
  }

  lemma GatherStart(root: seq<nat>, list: seq<nat>)
    requires list != [] ==> list[0] < |root|
    ensures Gathered(root, list, if 1 <= |list| then 1 else |list|)
  {
  }

  lemma InLists(lists: seq<seq<nat>>, k: nat, i: nat, j: nat)
    requires k < |lists| && i < |lists[k]| && j < |lists[k]|
    ensures (lists[k][i], lists[k][j]) in ListLinks(lists)
  {
  }

  lemma ListsRepresented(f: Forest, n: nat, lists: seq<seq<nat>>)
    requires f.Valid() && |f.root| == n && Below(lists, n) && f.links <= ListLinks(lists)
    requires forall m :: 0 <= m < |lists| ==> Gathered(f.root, lists[m], |lists[m]|)
    ensures LinksInside(ListLinks(lists), n) && Represents(f.root, ListLinks(lists))
  {
    hide Joined, Tree;
    forall a, b | 0 <= a < n && 0 <= b < n && f.root[a] == f.root[b]
      ensures Joined(ListLinks(lists), a, b)
    {
      JoinedMore(f.links, ListLinks(lists), a, b);
    }
    forall a, b | 0 <= a < n && 0 <= b < n && (a, b) in ListLinks(lists)
      ensures f.root[a] == f.root[b]
    {
      var k, i, j :| 0 <= k < |lists| && 0 <= i < |lists[k]| && 0 <= j < |lists[k]| &&
                      (lists[k][i], lists[k][j]) == (a, b);
      assert Gathered(f.root, lists[k], |lists[k]|);
    }
  }
}
