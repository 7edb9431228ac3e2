/** Parent forests: the state shared by the two union-find structures of the repository. */
module UnionFind {
  import opened Sorting

  /**
   One node of a parent forest: `root[x]` is the node its parent chain ends in, and ranks grow along the
   chain but stay below `top`, so following parents ends.
   */
  ghost predicate NodeOk(parent: seq<nat>, root: seq<nat>, rank: seq<nat>, top: nat, x: nat) {
    && |parent| == |root| == |rank| && x < |parent|
    && parent[x] < |parent| && root[x] < |parent| && rank[x] <= top
    && (parent[x] != x ==> rank[x] < rank[parent[x]])
    && (parent[x] == x <==> root[x] == x)
    && root[parent[x]] == root[x] && root[root[x]] == root[x]
  }

  ghost predicate Forest(parent: seq<nat>, root: seq<nat>, rank: seq<nat>, top: nat) {
    && |parent| == |root| == |rank|
    && (forall x: nat {:trigger NodeOk(parent, root, rank, top, x)} | x < |parent| :: NodeOk(parent, root, rank, top, x))
  }

  ghost predicate SameClass(root: seq<nat>, x: nat, y: nat) {
    x < |root| && y < |root| && root[x] == root[y]
  }

  /** The members of the class of root `r`. */
  ghost function Class(root: seq<nat>, r: nat): set<nat> {
    set x: nat | x < |root| && root[x] == r
  }

  /** A node that is not a root ranks below its root. */
  lemma {:induction false} RootIsHigh(parent: seq<nat>, root: seq<nat>, rank: seq<nat>, top: nat, x: nat)
    requires Forest(parent, root, rank, top) && x < |parent|
    ensures NodeOk(parent, root, rank, top, x) && (root[x] != x ==> rank[x] < rank[root[x]])
    decreases if x < |rank| && rank[x] <= top then top - rank[x] else 0
  {
    assert NodeOk(parent, root, rank, top, x);
    if parent[x] != x {
      assert NodeOk(parent, root, rank, top, parent[x]);
      RootIsHigh(parent, root, rank, top, parent[x]);
    }
  }

  /** Pointing `x` further up its own chain keeps every class. */
  lemma RedirectKeepsForest(parent: seq<nat>, root: seq<nat>, rank: seq<nat>, top: nat, x: nat, y: nat)
    requires Forest(parent, root, rank, top) && x < |parent| && y < |parent|
    requires parent[x] != x && root[y] == root[x] && rank[x] < rank[y]
    ensures Forest(parent[x := y], root, rank, top)
  {
    var p := parent[x := y];
    assert NodeOk(parent, root, rank, top, x) && NodeOk(parent, root, rank, top, y);
    forall z: nat {:trigger NodeOk(p, root, rank, top, z)} | z < |p|
      ensures NodeOk(p, root, rank, top, z)
    {
      assert NodeOk(parent, root, rank, top, z);
    }
  }

  /** The classes after hanging root `b` below root `a`. */
  ghost function Merged(root: seq<nat>, a: nat, b: nat): (r: seq<nat>)
    ensures |r| == |root|
    ensures forall x | 0 <= x < |root| :: r[x] == if root[x] == b then a else root[x]
  {
    seq(|root|, x requires 0 <= x < |root| => if root[x] == b then a else root[x])
  }

  ghost function Raised(rank: seq<nat>, a: nat, b: nat): seq<nat>
    requires a < |rank| && b < |rank|
  {
    rank[a := if rank[b] < rank[a] then rank[a] else rank[b] + 1]
  }

  lemma LinkKeepsForest(parent: seq<nat>, root: seq<nat>, rank: seq<nat>, top: nat, a: nat, b: nat)
    requires Forest(parent, root, rank, top) && a < |parent| && b < |parent| && a != b
    requires root[a] == a && root[b] == b
    ensures Forest(parent[b := a], Merged(root, a, b), Raised(rank, a, b), top + 1)
  {
    var p, r, k := parent[b := a], Merged(root, a, b), Raised(rank, a, b);
    assert NodeOk(parent, root, rank, top, a) && NodeOk(parent, root, rank, top, b);
    forall x: nat {:trigger NodeOk(p, r, k, top + 1, x)} | x < |p|
      ensures NodeOk(p, r, k, top + 1, x)
    {
      assert NodeOk(parent, root, rank, top, x);
    }
  }

  /** After the link two nodes share a class when they did before, or when their classes were linked. */
  lemma MergedClasses(root: seq<nat>, a: nat, b: nat, x: nat, y: nat)
    requires x < |root| && y < |root| && a != b
    ensures SameClass(Merged(root, a, b), x, y) <==>
            || SameClass(root, x, y)
            || (root[x] in {a, b} && root[y] in {a, b})
  {
  }

  lemma MergedClass(root: seq<nat>, a: nat, b: nat)
    requires a != b
    ensures Class(Merged(root, a, b), a) == Class(root, a) + Class(root, b)
    ensures forall r: nat | r != a && r != b :: Class(Merged(root, a, b), r) == Class(root, r)
    ensures |Class(Merged(root, a, b), a)| == |Class(root, a)| + |Class(root, b)|
  {
    assert Class(root, a) !! Class(root, b);
    assert Class(Merged(root, a, b), a) == Class(root, a) + Class(root, b);
    forall r: nat | r != a && r != b
      ensures Class(Merged(root, a, b), r) == Class(root, r)
    {
    }
  }
}
