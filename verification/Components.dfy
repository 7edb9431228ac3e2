/**
 Call-graph components of the client program: union-find with recursive path compression over the calls
 between internal functions.
 */
module Components {
  import opened Paths
  import opened Sorting
  import opened CallGraph
  import opened UnionFind

  /** The parent slice, with its classes as ghost state. */
  class Parents {
    var parent: seq<nat>
    ghost var root: seq<nat>
    ghost var rank: seq<nat>
    ghost var top: nat

    ghost predicate Valid()
      reads this
    {
      Forest(parent, root, rank, top)
    }

    constructor (n: nat)
      ensures Valid() && |parent| == n && root == parent
      ensures forall x | 0 <= x < n :: root[x] == x
    {
      parent := seq(n, i => i);
      root := seq(n, i => i);
      rank, top := seq(n, _ => 0), 0;
    }

    /** How far the chain of `x` may still rise. */
    ghost function Above(x: nat): nat
      reads this
    {
      if x < |rank| && rank[x] <= top then top - rank[x] else 0
    }

    /** Compresses the whole chain of `x`; no class changes. */
    method Find(x: nat) returns (r: nat)
      requires Valid() && x < |parent|
      modifies this`parent
      ensures Valid() && |parent| == |old(parent)| && x < |root| && r == root[x] && parent[x] == r
      ensures r < |parent| && root[r] == r
      decreases Above(x)
    {
      assert NodeOk(parent, root, rank, top, x);
      if parent[x] != x {
        assert NodeOk(parent, root, rank, top, parent[x]);
        var up := Find(parent[x]);
        assert NodeOk(parent, root, rank, top, x);
        if x != up {
          RootIsHigh(parent, root, rank, top, x);
          RedirectKeepsForest(parent, root, rank, top, x, up);
        }
        parent := parent[x := up];
        assert NodeOk(parent, root, rank, top, x);
      }
      r := parent[x];
    }

    method Union(a: nat, b: nat)
      requires Valid() && a < |parent| && b < |parent|
      modifies this
      ensures Valid() && |parent| == |old(parent)|
      ensures forall x: nat, y: nat :: SameClass(root, x, y) <==>
                || SameClass(old(root), x, y)
                || (SameClass(old(root), x, a) && SameClass(old(root), y, b))
                || (SameClass(old(root), x, b) && SameClass(old(root), y, a))
    {
      var ra := Find(a);
      var rb := Find(b);
      assert root == old(root) && root[a] == ra && root[b] == rb;
      if ra != rb {
        LinkKeepsForest(parent, root, rank, top, ra, rb);
        parent := parent[rb := ra];
        root, rank, top := Merged(root, ra, rb), Raised(rank, ra, rb), top + 1;
      }
    }
  }

  // ---------------------------------------------------------------------------------------------
  // Components

  /** A call, in either direction, between two internal functions. */
  ghost predicate Connects(edges: seq<CallEdge>, external: seq<bool>, u: nat, w: nat) {
    && u < |external| && w < |external| && !external[u] && !external[w]
    && (CallsKnown(edges, u, w) || CallsKnown(edges, w, u))
  }

  ghost function Connection(edges: seq<CallEdge>, external: seq<bool>): (nat, nat) -> bool {
    (u: nat, w: nat) => Connects(edges, external, u, w)
  }

  ghost predicate Connected(edges: seq<CallEdge>, external: seq<bool>, u: nat, w: nat) {
    Reach(Connection(edges, external), u, w)
  }

  /** Unions every internal call; the classes are the connected components. */
  method UnionCalls(edges: seq<CallEdge>, external: seq<bool>) returns (classes: Parents)
    requires EdgesInRange(edges, |external|)
    ensures fresh(classes) && classes.Valid() && |classes.parent| == |external|
    ensures forall u: nat, w: nat | u < |external| && w < |external| ::
              SameClass(classes.root, u, w) <==> Connected(edges, external, u, w)
  {
    classes := new Parents(|external|);
    forall u: nat {:trigger Connected(edges, external, u, u)} | u < |external|
      ensures Connected(edges, external, u, u)
    {
      ReachSelf(Connection(edges, external), u);
    }
    for i := 0 to |edges|
      invariant fresh(classes) && classes.Valid() && |classes.parent| == |external|
      invariant ClassesConnected(edges, external, classes.root)
      invariant forall u: nat, w: nat | Connects(edges[..i], external, u, w) :: SameClass(classes.root, u, w)
    {
      var edge := edges[i];
      assert edge in edges && edges[..i + 1] == edges[..i] + [edge];
      if edge.caller.FuncCaller? && edge.callee.FuncCallee? {
        var a, b := edge.caller.func, edge.callee.func;
        if !external[a] && !external[b] {
          ghost var before := classes.root;
          classes.Union(a, b);
          assert CallsKnown(edges, a, b);
          UnionsConnect(edges, external, before, classes.root, a, b);
        }
      }
    }
    assert edges[..|edges|] == edges;
    forall u: nat, w: nat | u < |external| && w < |external| && Connected(edges, external, u, w)
      ensures SameClass(classes.root, u, w)
    {
      ConnectedIsSameClass(edges, external, classes.root, u, w);
    }
  }

  ghost predicate ClassesConnected(edges: seq<CallEdge>, external: seq<bool>, root: seq<nat>) {
    forall u: nat, w: nat {:trigger Connected(edges, external, u, w)} | SameClass(root, u, w) ::
      Connected(edges, external, u, w)
  }

  lemma ConnectedIsSameClass(edges: seq<CallEdge>, external: seq<bool>, root: seq<nat>, u: nat, w: nat)
    requires |root| == |external| && u < |root| && Connected(edges, external, u, w)
    requires forall x: nat, y: nat | Connects(edges, external, x, y) :: SameClass(root, x, y)
    ensures SameClass(root, u, w)
  {
    ClosedUnderReach(Connection(edges, external), (x: nat) => SameClass(root, u, x), u, w);
  }

  lemma UnionsConnect(edges: seq<CallEdge>, external: seq<bool>, before: seq<nat>, after: seq<nat>, a: nat, b: nat)
    requires ClassesConnected(edges, external, before) && Connects(edges, external, a, b)
    requires forall x: nat, y: nat :: SameClass(after, x, y) ==>
               || SameClass(before, x, y)
               || (SameClass(before, x, a) && SameClass(before, y, b))
               || (SameClass(before, x, b) && SameClass(before, y, a))
    ensures ClassesConnected(edges, external, after)
  {
    forall u: nat, w: nat {:trigger Connected(edges, external, u, w)} | SameClass(after, u, w)
      ensures Connected(edges, external, u, w)
    {
      if SameClass(before, u, w) {
      } else if SameClass(before, u, a) && SameClass(before, w, b) {
        Bridge(edges, external, before, u, a, b, w);
      } else {
        Bridge(edges, external, before, u, b, a, w);
      }
    }
  }

  lemma Bridge(edges: seq<CallEdge>, external: seq<bool>, root: seq<nat>, u: nat, x: nat, y: nat, w: nat)
    requires ClassesConnected(edges, external, root) && SameClass(root, u, x) && SameClass(root, w, y)
    requires Connects(edges, external, x, y)
    ensures Connected(edges, external, u, w)
  {
    assert Connected(edges, external, u, x) && SameClass(root, y, w) && Connected(edges, external, y, w);
    ReachEdge(Connection(edges, external), x, y);
    ReachTrans(Connection(edges, external), u, x, y);
    ReachTrans(Connection(edges, external), u, y, w);
  }

  ghost predicate Grouped(groups: seq<seq<nat>>, x: nat) {
    exists i :: 0 <= i < |groups| && x in groups[i]
  }

  /** The groups of functions with the same root, each in ascending order. */
  ghost predicate ArePartition(groups: seq<seq<nat>>, n: nat) {
    && (forall i | 0 <= i < |groups| :: groups[i] != [] && StrictlyAscending(groups[i]))
    && (forall i, x: nat | 0 <= i < |groups| && x in groups[i] :: x < n)
    && (forall i, j, x: nat | 0 <= i < j < |groups| && x in groups[i] :: x !in groups[j])
    && (forall x: nat {:trigger Grouped(groups, x)} | x < n :: Grouped(groups, x))
  }

  // ---------------------------------------------------------------------------------------------
  // The order of members and components

  function InsertBy<T>(x: T, s: seq<T>, key: T -> nat): (r: seq<T>)
    ensures multiset(r) == multiset(s) + multiset{x}
  {
    if s == [] || key(x) <= key(s[0]) then [x] + s
    else
      assert s == [s[0]] + s[1..];
      [s[0]] + InsertBy(x, s[1..], key)
  }

  /** A stable sort. */
  function SortBy<T>(s: seq<T>, key: T -> nat): (r: seq<T>)
    ensures multiset(r) == multiset(s)
  {
    if s == [] then []
    else
      assert s == [s[0]] + s[1..];
      InsertBy(s[0], SortBy(s[1..], key), key)
  }

  ghost predicate AscendingBy<T>(s: seq<T>, key: T -> nat) {
    forall i, j | 0 <= i < j < |s| :: key(s[i]) <= key(s[j])
  }

  lemma {:induction false} InsertAscendingBy<T>(x: T, s: seq<T>, key: T -> nat)
    requires AscendingBy(s, key)
    ensures AscendingBy(InsertBy(x, s, key), key)
  {
    if s != [] && key(x) > key(s[0]) {
      InsertAscendingBy(x, s[1..], key);
      var rest := InsertBy(x, s[1..], key);
      forall i | 0 <= i < |rest|
        ensures key(s[0]) <= key(rest[i])
      {
        assert rest[i] in multiset(s[1..]) + multiset{x};
      }
    }
  }

  lemma {:induction false} SortAscendingBy<T>(s: seq<T>, key: T -> nat)
    ensures AscendingBy(SortBy(s, key), key)
  {
    if s != [] {
      SortAscendingBy(s[1..], key);
      InsertAscendingBy(s[0], SortBy(s[1..], key), key);
    }
  }

  lemma SortKeepsMembers<T>(s: seq<T>, key: T -> nat)
    ensures forall x :: x in SortBy(s, key) <==> x in s
    ensures NoDuplicates(s) ==> NoDuplicates(SortBy(s, key))
    ensures |SortBy(s, key)| == |s|
  {
    var sorted := SortBy(s, key);
    assert forall x :: x in sorted <==> x in multiset(sorted);
    NoDuplicatesCount(s);
    NoDuplicatesCount(sorted);
    assert |multiset(sorted)| == |sorted| && |multiset(s)| == |s|;
  }

  /** The rank of a function's key. */
  function KeyRank(ranks: seq<nat>): nat -> nat {
    (f: nat) => if f < |ranks| then ranks[f] else 0
  }

  function FirstRank(ranks: seq<nat>): seq<nat> -> nat {
    (members: seq<nat>) => if members != [] && members[0] < |ranks| then ranks[members[0]] else 0
  }

  ghost predicate GroupOk(g: seq<nat>, n: nat) {
    g != [] && NoDuplicates(g) && forall x | x in g :: x < n
  }

  ghost predicate Apart(g: seq<nat>, h: seq<nat>) {
    forall x :: x in g ==> x !in h
  }

  /** Nonempty groups without repetitions that share nothing and together list every function. */
  ghost predicate IsPartition(groups: seq<seq<nat>>, n: nat) {
    (&& (forall g | g in groups :: GroupOk(g, n)) && NoDuplicates(groups)
     && (forall g, h | g in groups && h in groups && g != h :: Apart(g, h))
     && (forall x: nat {:trigger Listed(groups, x)} | x < n :: Listed(groups, x))) == true
  }

  ghost predicate Listed(groups: seq<seq<nat>>, x: nat) {
    exists g :: g in groups && x in g
  }

  /** Members in the order of their keys, components in the order of their first members. */
  ghost predicate InKeyOrder(groups: seq<seq<nat>>, ranks: seq<nat>) {
    ((forall g | g in groups :: AscendingBy(g, KeyRank(ranks))) && AscendingBy(groups, FirstRank(ranks))) == true
  }

  function SortedMembers(groups: seq<seq<nat>>, ranks: seq<nat>): (r: seq<seq<nat>>)
    ensures |r| == |groups| && forall i | 0 <= i < |r| :: r[i] == SortBy(groups[i], KeyRank(ranks))
  {
    seq(|groups|, i requires 0 <= i < |groups| => SortBy(groups[i], KeyRank(ranks)))
  }

  ghost predicate SameMembers(g: seq<nat>, h: seq<nat>) {
    forall x :: x in g <==> x in h
  }

  /** Every group with its members in another order. */
  lemma RearrangedIsPartition(groups: seq<seq<nat>>, sorted: seq<seq<nat>>, n: nat)
    requires ArePartition(groups, n) && |sorted| == |groups|
    requires forall i | 0 <= i < |groups| :: GroupOk(sorted[i], n) && SameMembers(sorted[i], groups[i])
    ensures IsPartition(sorted, n)
  {
    forall i, j | 0 <= i < |sorted| && 0 <= j < |sorted| && i != j
      ensures Apart(sorted[i], sorted[j]) && sorted[i] != sorted[j]
    {
      assert sorted[i][0] in sorted[i] && sorted[i][0] in groups[i];
    }
    forall x: nat {:trigger Listed(sorted, x)} | x < n
      ensures Listed(sorted, x)
    {
      assert Grouped(groups, x);
      var i :| 0 <= i < |groups| && x in groups[i];
      assert sorted[i] in sorted && x in sorted[i];
    }
  }

  /** The groups in another order. */
  lemma ReorderedIsPartition(groups: seq<seq<nat>>, sorted: seq<seq<nat>>, n: nat)
    requires IsPartition(groups, n) && NoDuplicates(sorted) && forall g :: g in sorted <==> g in groups
    ensures IsPartition(sorted, n)
  {
    forall x: nat {:trigger Listed(sorted, x)} | x < n
      ensures Listed(sorted, x)
    {
      assert Listed(groups, x);
      var g :| g in groups && x in g;
      assert g in sorted;
    }
  }

  /** One group is what internal calls connect. */
  ghost predicate IsComponent(edges: seq<CallEdge>, external: seq<bool>, g: seq<nat>) {
    (&& (forall u: nat, w: nat | u in g && w < |external| :: w in g <==> Connected(edges, external, u, w))
     && (forall u: nat | u in g && u < |external| && external[u] :: g == [u])) == true
  }

  lemma SortedGroup(edges: seq<CallEdge>, external: seq<bool>, ranks: seq<nat>, g: seq<nat>)
    requires g != [] && StrictlyAscending(g) && (forall x | x in g :: x < |external|)
    requires forall u: nat, w: nat | u in g && w < |external| :: w in g <==> Connected(edges, external, u, w)
    ensures var sorted := SortBy(g, KeyRank(ranks));
            && GroupOk(sorted, |external|) && SameMembers(sorted, g) && AscendingBy(sorted, KeyRank(ranks))
            && IsComponent(edges, external, sorted)
  {
    var sorted := SortBy(g, KeyRank(ranks));
    SortKeepsMembers(g, KeyRank(ranks));
    SortAscendingBy(g, KeyRank(ranks));
    forall u: nat | u in sorted && external[u]
      ensures sorted == [u]
    {
      forall w: nat | w in sorted
        ensures w == u
      {
        AloneOutside(edges, external, u, w);
      }
      OnlyMember(sorted, u);
    }
  }

  lemma OnlyMember(g: seq<nat>, u: nat)
    requires NoDuplicates(g) && u in g && forall w: nat | w in g :: w == u
    ensures g == [u]
  {
    NoDuplicatesSize(g);
    forall w | w in Elements(g)
      ensures w == u
    {
      var i :| 0 <= i < |g| && g[i] == w;
      assert g[i] in g;
    }
    assert u in Elements(g);
    assert Elements(g) == {u};
    assert g[0] in g;
  }

  /**
   The components partition all functions; two functions share one exactly when internal calls connect
   them; an external function is alone. Members are in the order of their keys, components in that of their
   first members.
   */
  method ComputeComponents(edges: seq<CallEdge>, external: seq<bool>, ranks: seq<nat>) returns (components: seq<seq<nat>>)
    requires EdgesInRange(edges, |external|) && |ranks| == |external|
    ensures IsPartition(components, |external|) && InKeyOrder(components, ranks)
    ensures forall g | g in components :: IsComponent(edges, external, g)
  {
    hide IsComponent, AscendingBy, GroupOk, SameMembers, SortBy, IsPartition;
    var classes := UnionCalls(edges, external);
    var groups := GroupByRoot(classes, |external|);
    var sorted := SortedMembers(groups, ranks);
    forall i | 0 <= i < |groups|
      ensures GroupOk(sorted[i], |external|) && SameMembers(sorted[i], groups[i]) && AscendingBy(sorted[i], KeyRank(ranks))
      ensures IsComponent(edges, external, sorted[i])
    {
      SortedGroup(edges, external, ranks, groups[i]);
    }
    RearrangedIsPartition(groups, sorted, |external|);
    components := SortBy(sorted, FirstRank(ranks));
    PartitionIsDistinct(sorted, |external|);
    SortKeepsMembers(sorted, FirstRank(ranks));
    SortAscendingBy(sorted, FirstRank(ranks));
    ReorderedIsPartition(sorted, components, |external|);
  }

  lemma PartitionIsDistinct(groups: seq<seq<nat>>, n: nat)
    requires IsPartition(groups, n)
    ensures NoDuplicates(groups)
  {
  }

  lemma AloneOutside(edges: seq<CallEdge>, external: seq<bool>, u: nat, w: nat)
    requires u < |external| && external[u] && Connected(edges, external, u, w)
    ensures u == w
  {
    if u != w {
      var m := ReachFirst(Connection(edges, external), u, w);
    }
  }

  method GroupByRoot(classes: Parents, n: nat) returns (groups: seq<seq<nat>>)
    requires classes.Valid() && |classes.parent| == n
    modifies classes`parent
    ensures classes.Valid()
    ensures ArePartition(groups, n)
    ensures forall i, u: nat, w: nat | 0 <= i < |groups| && u in groups[i] && w < n ::
              w in groups[i] <==> SameClass(classes.root, u, w)
  {
    var byRoot: map<nat, seq<nat>> := map[];
    for x := 0 to n
      invariant classes.Valid() && |classes.parent| == n == |classes.root|
      invariant Filed(byRoot, classes.root, x)
    {
      var r := classes.Find(x);
      FileNext(byRoot, classes.root, x);
      byRoot := byRoot[r := (if r in byRoot then byRoot[r] else []) + [x]];
    }
    ghost var from: seq<nat> := [];
    groups := [];
    for r := 0 to n
      invariant |from| == |groups| && StrictlyAscending(from)
      invariant forall i | 0 <= i < |groups| :: from[i] < r && from[i] in byRoot && groups[i] == byRoot[from[i]]
      invariant forall q: nat | q < r && q in byRoot :: q in from
    {
      if r in byRoot {
        groups := groups + [byRoot[r]];
        from := from + [r];
      }
    }
    GroupsArePartition(byRoot, classes.root, n, groups, from);
  }

  lemma GroupsArePartition(byRoot: map<nat, seq<nat>>, root: seq<nat>, n: nat, groups: seq<seq<nat>>, from: seq<nat>)
    requires |root| == n && Filed(byRoot, root, n) && |from| == |groups| && StrictlyAscending(from)
    requires forall i | 0 <= i < |groups| :: from[i] in byRoot && groups[i] == byRoot[from[i]]
    requires forall q | q in byRoot :: q in from
    ensures ArePartition(groups, n)
    ensures forall i, u: nat, w: nat | 0 <= i < |groups| && u in groups[i] && w < n ::
              w in groups[i] <==> SameClass(root, u, w)
  {
    forall i, x: nat | 0 <= i < |groups| && x in groups[i]
      ensures x < n && root[x] == from[i]
    {
      var k :| 0 <= k < |groups[i]| && groups[i][k] == x;
      assert byRoot[from[i]][k] == x;
    }
    forall x: nat {:trigger Grouped(groups, x)} | x < n
      ensures Grouped(groups, x)
    {
      var i :| 0 <= i < |from| && from[i] == root[x];
      assert x in groups[i];
    }
    forall i, u: nat, w: nat | 0 <= i < |groups| && u in groups[i] && w < n
      ensures w in groups[i] <==> SameClass(root, u, w)
    {
      assert w in byRoot[root[w]];
    }
  }

  /** The nodes below `upto`, filed under their roots. */
  ghost predicate Filed(byRoot: map<nat, seq<nat>>, root: seq<nat>, upto: nat) {
    && upto <= |root|
    && (forall r: nat | r in byRoot :: r < |root| && byRoot[r] != [] && StrictlyAscending(byRoot[r]))
    && (forall r: nat, i: nat | r in byRoot && i < |byRoot[r]| :: byRoot[r][i] < upto && root[byRoot[r][i]] == r)
    && (forall y: nat | y < upto :: root[y] in byRoot && y in byRoot[root[y]])
  }

  lemma FileNext(byRoot: map<nat, seq<nat>>, root: seq<nat>, x: nat)
    requires Filed(byRoot, root, x) && x < |root| && root[x] < |root|
    ensures Filed(byRoot[root[x] := (if root[x] in byRoot then byRoot[root[x]] else []) + [x]], root, x + 1)
  {
    var r := root[x];
    var members := if r in byRoot then byRoot[r] else [];
    var next := byRoot[r := members + [x]];
    forall i | 0 <= i < |members|
      ensures members[i] < x
    {
      assert members[i] == byRoot[r][i];
    }
    assert StrictlyAscending(members + [x]);
    forall q: nat, i: nat | q in next && i < |next[q]|
      ensures next[q][i] < x + 1 && root[next[q][i]] == q
    {
      if q == r {
        assert i < |members| ==> next[q][i] == byRoot[q][i];
      } else {
        assert next[q][i] == byRoot[q][i];
      }
    }
  }
}
