/**
 Coupling groups: globals whose once-lock certificates fit together are united, and every union leaves
 one evidence edge behind.
 */
module Coupling {
  import opened Paths
  import opened Sorting
  import opened UnionFind

  // ---------------------------------------------------------------------------------------------
  // Certificates

  /** A source position. Files only matter through their order. */
  datatype Site = Site(file: nat, line: nat, col: Option<nat>)

  function Column(s: Site): nat {
    if s.col.Some? then s.col.value else 0
  }

  /** `site_cmp(left, right)` is not `Greater`. */
  predicate AtMost(left: Site, right: Site) {
    || left.file < right.file
    || (left.file == right.file
        && (left.line < right.line || (left.line == right.line && Column(left) <= Column(right))))
  }

  /** File, line and column, a missing column counting as the zeroth. */
  ghost function Position(s: Site): (key: seq<nat>)
    ensures |key| == 3
  {
    [s.file, s.line] + match s.col case Some(col) => [col] case None => [0]
  }

  /** The first place in which two positions differ decides between them. */
  ghost predicate LexicallyBelow(a: seq<nat>, b: seq<nat>) {
    exists k :: 0 <= k < |a| && k < |b| && a[..k] == b[..k] && a[k] < b[k]
  }

  /** Sites are ordered as their positions are. */
  lemma AtMostIsLexical(left: Site, right: Site)
    ensures AtMost(left, right) <==> LexicallyBelow(Position(left), Position(right)) || Position(left) == Position(right)
    ensures AtMost(left, right) <==> !LexicallyBelow(Position(right), Position(left))
  {
    PositionsCompare(left, right);
    PositionsCompare(right, left);
  }

  lemma PositionsCompare(left: Site, right: Site)
    ensures LexicallyBelow(Position(left), Position(right)) <==> !AtMost(right, left)
    ensures Position(left) == Position(right) <==> AtMost(left, right) && AtMost(right, left)
  {
    var a, b := Position(left), Position(right);
    assert forall k | 0 <= k < 3 && a[..k] == b[..k] :: forall j | 0 <= j < k :: a[..k][j] == a[j] && b[..k][j] == b[j];
    assert a[..0] == b[..0];
    if a[0] == b[0] {
      assert a[..1] == b[..1];
      if a[1] == b[1] {
        assert a[..2] == b[..2];
      }
    }
  }

  datatype Evidence = Evidence(
    publicationFunction: nat, descentPath: nat, earliest: Site, latest: Site, initFunctions: set<nat>)

  datatype Interval = Interval(earliest: Site, latest: Site)

  /** The later start and the earlier end, if they are in order. */
  function IntersectIntervals(left: Interval, right: Interval): (r: Option<Interval>)
    ensures r.Some? <==>
              && AtMost(left.earliest, left.latest) && AtMost(left.earliest, right.latest)
              && AtMost(right.earliest, left.latest) && AtMost(right.earliest, right.latest)
    ensures r.Some? ==>
              && AtMost(left.earliest, r.value.earliest) && AtMost(right.earliest, r.value.earliest)
              && AtMost(r.value.latest, left.latest) && AtMost(r.value.latest, right.latest)
              && r.value.earliest in {left.earliest, right.earliest}
              && r.value.latest in {left.latest, right.latest}
  {
    var earliest := if !AtMost(right.earliest, left.earliest) then right.earliest else left.earliest;
    var latest := if !AtMost(left.latest, right.latest) then right.latest else left.latest;
    if AtMost(earliest, latest) then Some(Interval(earliest, latest)) else None
  }

  predicate Within(interval: Interval, site: Site) {
    AtMost(interval.earliest, site) && AtMost(site, interval.latest)
  }

  /** The intersection holds exactly the sites of both intervals; without one they share no site. */
  lemma IntersectionIsCommon(left: Interval, right: Interval, site: Site)
    ensures Within(left, site) && Within(right, site) <==>
              IntersectIntervals(left, right).Some? && Within(IntersectIntervals(left, right).value, site)
  {
  }

  function IntervalOf(e: Evidence): Interval {
    Interval(e.earliest, e.latest)
  }

  predicate Overlap(a: Evidence, b: Evidence) {
    IntersectIntervals(IntervalOf(a), IntervalOf(b)).Some?
  }

  predicate Compatible(a: Evidence, b: Evidence) {
    && a.publicationFunction == b.publicationFunction && a.descentPath == b.descentPath
    && Overlap(a, b) && !(a.initFunctions !! b.initFunctions)
  }

  lemma CompatibleSymmetric(a: Evidence, b: Evidence)
    ensures Compatible(a, b) <==> Compatible(b, a)
  {
  }

  /** What an evidence edge records of its pair. */
  datatype PairEvidence = PairEvidence(common: Interval, sharedInit: set<nat>)

  function OnceLockPairEvidence(a: Evidence, b: Evidence): (r: Option<PairEvidence>)
    ensures r.Some? <==> Compatible(a, b)
    ensures r.Some? ==> r.value.sharedInit != {} && forall f: nat :: f in r.value.sharedInit <==> f in a.initFunctions && f in b.initFunctions
    ensures r.Some? ==> Within(r.value.common, r.value.common.earliest)
    ensures r.Some? ==> forall site ::
              Within(r.value.common, site) <==> Within(IntervalOf(a), site) && Within(IntervalOf(b), site)
  {
    if a.publicationFunction != b.publicationFunction || a.descentPath != b.descentPath then None
    else
      var common := IntersectIntervals(IntervalOf(a), IntervalOf(b));
      var shared := a.initFunctions * b.initFunctions;
      assert forall f | f in a.initFunctions && f in b.initFunctions :: f in shared;
      if common.None? || shared == {} then None else Some(PairEvidence(common.value, shared))
  }

  // ---------------------------------------------------------------------------------------------
  // Union by size with path halving

  class CouplingComponents {
    var parent: seq<nat>
    var size: seq<nat>
    ghost var root: seq<nat>
    ghost var rank: seq<nat>
    ghost var top: nat

    ghost predicate Valid()
      reads this
    {
      Forest(parent, root, rank, top) && SizesOk(root, size)
    }

    constructor (n: nat)
      ensures Valid() && |parent| == |root| == n && forall x | 0 <= x < n :: root[x] == x
    {
      parent, size := seq(n, i => i), seq(n, _ => 1);
      root, rank, top := seq(n, i => i), seq(n, _ => 0), 0;
      new;
      forall x: nat | x < n
        ensures |Class(root, x)| == 1
      {
        assert Class(root, x) == {x};
      }
    }

    /** Halves the path on its way to the root; classes and sizes stay. */
    method Find(x: nat) returns (r: nat)
      requires Valid() && x < |parent|
      modifies this`parent
      ensures Valid() && |parent| == |old(parent)| && x < |root| && r == root[x]
      ensures r < |parent| && root[r] == r
    {
      var index: nat := x;
      assert NodeOk(parent, root, rank, top, x);
      while parent[index] != index
        invariant Valid() && |parent| == |old(parent)| && index < |parent| && NodeOk(parent, root, rank, top, index)
        invariant root[index] == root[x]
        decreases top - rank[index]
      {
        var up := parent[index];
        assert NodeOk(parent, root, rank, top, up);
        assert NodeOk(parent, root, rank, top, parent[up]);
        RedirectKeepsForest(parent, root, rank, top, index, parent[up]);
        parent := parent[index := parent[up]];
        index := parent[index];
        assert NodeOk(parent, root, rank, top, index);
      }
      r := index;
    }

    /** Says whether the classes were different; afterwards they are one, of the summed size. */
    method Union(a: nat, b: nat) returns (united: bool)
      requires Valid() && a < |parent| && b < |parent|
      modifies this
      ensures Valid() && |parent| == |root| == |old(parent)| == |old(root)|
      ensures RootOf(old(root), a) && RootOf(old(root), b)
      ensures united <==> !SameClass(old(root), a, b)
      ensures !united ==> root == old(root)
      ensures united ==> root == Merged(old(root), old(root[a]), old(root[b])) || root == Merged(old(root), old(root[b]), old(root[a]))
    {
      var left := Find(a);
      var right := Find(b);
      if left == right {
        return false;
      }
      if size[left] < size[right] {
        left, right := right, left;
      }
      LinkKeepsForest(parent, root, rank, top, left, right);
      SizesAfterLink(root, size, left, right);
      parent := parent[right := left];
      size := size[left := size[left] + size[right]];
      root, rank, top := Merged(root, left, right), Raised(rank, left, right), top + 1;
      return true;
    }

    method ComponentSize(x: nat) returns (n: nat)
      requires Valid() && x < |parent|
      modifies this`parent
      ensures Valid() && |parent| == |old(parent)| && x < |root| && n == |Class(root, root[x])|
    {
      var r := Find(x);
      n := size[r];
    }
  }

  /** `x` has a root in the same forest. */
  ghost predicate RootOf(root: seq<nat>, x: nat) {
    x < |root| && root[x] < |root| && root[root[x]] == root[x]
  }

  /** The size recorded at a root is the size of its class. */
  ghost predicate SizesOk(root: seq<nat>, size: seq<nat>) {
    |size| == |root| && forall r: nat {:trigger Class(root, r)} | r < |root| && root[r] == r :: size[r] == |Class(root, r)|
  }

  lemma SizesAfterLink(root: seq<nat>, size: seq<nat>, a: nat, b: nat)
    requires SizesOk(root, size) && a < |root| && b < |root| && a != b && root[a] == a && root[b] == b
    ensures SizesOk(Merged(root, a, b), size[a := size[a] + size[b]])
  {
    MergedClass(root, a, b);
    assert size[a] == |Class(root, a)| && size[b] == |Class(root, b)|;
    var m := Merged(root, a, b);
    forall r: nat {:trigger Class(m, r)} | r < |m| && m[r] == r
      ensures size[a := size[a] + size[b]][r] == |Class(m, r)|
    {
      if r != a {
        assert size[r] == |Class(root, r)|;
      }
    }
  }

  // ---------------------------------------------------------------------------------------------
  // Evidence edges

  datatype Edge = Edge(a: nat, b: nat, pair: PairEvidence)

  /** `facts[i]` is the certificate of global `i`, if its phase stationarity is certified. */
  ghost predicate Linked(facts: seq<Option<Evidence>>, x: nat, y: nat) {
    && x < |facts| && y < |facts| && x != y && facts[x].Some? && facts[y].Some?
    && Compatible(facts[x].value, facts[y].value)
  }

  /** The site comes after the end, by line and on one line by column. */
  ghost predicate PastEnd(start: Site, end: Site) {
    || start.line > end.line
    || (start.line == end.line && start.col.Some? && start.col.value > if end.col.Some? then end.col.value else 0)
  }

  ghost predicate InFile(e: Evidence, file: nat) {
    e.earliest.file == file && e.latest.file == file
  }

  /**
   Two certificates of one function and descent path whose sites lie in one file are linked exactly when they
   share an init function and neither of their starts comes after either of their ends.
   */
  lemma LinkedInOneFile(facts: seq<Option<Evidence>>, x: nat, y: nat, file: nat)
    requires x < |facts| && y < |facts| && x != y && facts[x].Some? && facts[y].Some?
    requires InFile(facts[x].value, file) && InFile(facts[y].value, file)
    requires facts[x].value.publicationFunction == facts[y].value.publicationFunction
    requires facts[x].value.descentPath == facts[y].value.descentPath
    ensures var a, b := facts[x].value, facts[y].value;
            Linked(facts, x, y) <==>
              && (exists f :: f in a.initFunctions && f in b.initFunctions)
              && forall start, end | start in {a.earliest, b.earliest} && end in {a.latest, b.latest} :: !PastEnd(start, end)
  {
    var a, b := facts[x].value, facts[y].value;
    forall start: Site, end: Site | start.file == end.file
      ensures AtMost(start, end) <==> !PastEnd(start, end)
    {
    }
    if f :| f in a.initFunctions && f in b.initFunctions {
      assert !(a.initFunctions !! b.initFunctions);
    }
    hide PastEnd, AtMost;
    assert Overlap(a, b) <==> forall start, end | start in {a.earliest, b.earliest} && end in {a.latest, b.latest} :: !PastEnd(start, end) by {
      assert Overlap(a, b) <==> !PastEnd(a.earliest, a.latest) && !PastEnd(a.earliest, b.latest)
                                && !PastEnd(b.earliest, a.latest) && !PastEnd(b.earliest, b.latest);
    }
  }

  ghost function Links(facts: seq<Option<Evidence>>): (nat, nat) -> bool {
    (x: nat, y: nat) => Linked(facts, x, y)
  }

  /** `x` and `y` are joined by an evidence edge, in either direction. */
  ghost predicate Joined(edges: seq<Edge>, x: nat, y: nat) {
    exists e :: e in edges && ((e.a == x && e.b == y) || (e.a == y && e.b == x))
  }

  ghost function Joins(edges: seq<Edge>): (nat, nat) -> bool {
    (x: nat, y: nat) => Joined(edges, x, y)
  }

  /** How many edges start in `nodes`. */
  ghost function EdgesIn(edges: seq<Edge>, nodes: set<nat>): nat {
    if edges == [] then 0
    else EdgesIn(edges[..|edges| - 1], nodes) + if edges[|edges| - 1].a in nodes then 1 else 0
  }

  lemma {:induction false} EdgesInUnion(edges: seq<Edge>, left: set<nat>, right: set<nat>)
    requires left !! right
    ensures EdgesIn(edges, left + right) == EdgesIn(edges, left) + EdgesIn(edges, right)
  {
    if edges != [] {
      EdgesInUnion(edges[..|edges| - 1], left, right);
    }
  }

  lemma EdgesInNext(edges: seq<Edge>, e: Edge, nodes: set<nat>)
    ensures EdgesIn(edges + [e], nodes) == EdgesIn(edges, nodes) + if e.a in nodes then 1 else 0
  {
    assert (edges + [e])[..|edges|] == edges;
  }

  ghost predicate EdgeOk(facts: seq<Option<Evidence>>, root: seq<nat>, e: Edge) {
    && Linked(facts, e.a, e.b) && SameClass(root, e.a, e.b)
    && Some(e.pair) == OnceLockPairEvidence(facts[e.a].value, facts[e.b].value)
  }

  /** Every class is a tree of evidence edges: they span it, one fewer than its members. */
  ghost predicate TreeOk(edges: seq<Edge>, root: seq<nat>, r: nat) {
    EdgesIn(edges, Class(root, r)) + 1 == |Class(root, r)|
  }

  /** What the pair loop keeps. */
  ghost predicate EdgesOk(facts: seq<Option<Evidence>>, root: seq<nat>, edges: seq<Edge>) {
    && |root| == |facts|
    && (forall e {:trigger EdgeOk(facts, root, e)} | e in edges :: EdgeOk(facts, root, e))
    && (forall r: nat {:trigger TreeOk(edges, root, r)} | r < |root| && root[r] == r :: TreeOk(edges, root, r))
    && (forall x: nat, y: nat {:trigger Reach(Joins(edges), x, y)} | SameClass(root, x, y) :: Reach(Joins(edges), x, y))
  }

  /** The new edge joins the two classes it merges. */
  lemma EdgeJoins(root: seq<nat>, edges: seq<Edge>, e: Edge, x: nat, y: nat)
    requires forall u: nat, w: nat {:trigger Reach(Joins(edges), u, w)} | SameClass(root, u, w) :: Reach(Joins(edges), u, w)
    requires e.a < |root| && e.b < |root| && x < |root| && y < |root|
    requires root[x] in {root[e.a], root[e.b]} && root[y] in {root[e.a], root[e.b]}
    ensures Reach(Joins(edges + [e]), x, y)
  {
    var after := edges + [e];
    var u: nat := if root[x] == root[e.a] then e.a else e.b;
    var w: nat := if root[y] == root[e.a] then e.a else e.b;
    assert SameClass(root, x, u) && SameClass(root, w, y);
    assert Reach(Joins(edges), x, u) && Reach(Joins(edges), w, y);
    assert forall s, t | Joined(edges, s, t) :: Joined(after, s, t);
    ReachWider(Joins(edges), Joins(after), x, u);
    ReachWider(Joins(edges), Joins(after), w, y);
    if u == w {
      ReachTrans(Joins(after), x, u, y);
    } else {
      assert e in after && Joined(after, u, w);
      ReachEdge(Joins(after), u, w);
      ReachTrans(Joins(after), x, u, w);
      ReachTrans(Joins(after), x, w, y);
    }
  }

  lemma EdgeKeepsJoins(root: seq<nat>, edges: seq<Edge>, e: Edge, x: nat, y: nat)
    requires Reach(Joins(edges), x, y)
    ensures Reach(Joins(edges + [e]), x, y)
  {
    assert forall s, t | Joined(edges, s, t) :: Joined(edges + [e], s, t);
    ReachWider(Joins(edges), Joins(edges + [e]), x, y);
  }

  lemma MergeKeepsTree(root: seq<nat>, edges: seq<Edge>, e: Edge, a: nat, b: nat, r: nat)
    requires a < |root| && b < |root| && a != b && root[a] == a && root[b] == b
    requires TreeOk(edges, root, a) && TreeOk(edges, root, b)
    requires e.a < |root| && root[e.a] in {a, b}
    requires r < |root| && Merged(root, a, b)[r] == r && (r != a ==> TreeOk(edges, root, r))
    ensures TreeOk(edges + [e], Merged(root, a, b), r)
  {
    MergedClass(root, a, b);
    EdgesInNext(edges, e, Class(Merged(root, a, b), r));
    if r == a {
      assert Class(root, a) !! Class(root, b);
      EdgesInUnion(edges, Class(root, a), Class(root, b));
    }
  }

  /** Uniting the ends of a compatible pair and recording it keeps every class a tree. */
  lemma UnionKeepsEdges(
      facts: seq<Option<Evidence>>, root: seq<nat>, edges: seq<Edge>, e: Edge, a: nat, b: nat)
    requires EdgesOk(facts, root, edges) && Linked(facts, e.a, e.b)
    requires Some(e.pair) == OnceLockPairEvidence(facts[e.a].value, facts[e.b].value)
    requires a < |root| && b < |root| && a != b && root[a] == a && root[b] == b
    requires {root[e.a], root[e.b]} == {a, b}
    ensures EdgesOk(facts, Merged(root, a, b), edges + [e])
  {
    var after, merged := edges + [e], Merged(root, a, b);
    forall f {:trigger EdgeOk(facts, merged, f)} | f in after
      ensures EdgeOk(facts, merged, f)
    {
      if f in edges {
        assert EdgeOk(facts, root, f);
      } else {
        assert f == e && root[e.a] in {a, b} && root[e.b] in {a, b};
      }
    }
    forall r: nat {:trigger TreeOk(after, merged, r)} | r < |merged| && merged[r] == r
      ensures TreeOk(after, merged, r)
    {
      assert TreeOk(edges, root, a) && TreeOk(edges, root, b);
      assert r != a ==> root[r] == r && TreeOk(edges, root, r);
      assert root[e.a] in {a, b};
      MergeKeepsTree(root, edges, e, a, b, r);
    }
    forall x: nat, y: nat {:trigger Reach(Joins(after), x, y)} | SameClass(merged, x, y)
      ensures Reach(Joins(after), x, y)
    {
      MergedClasses(root, a, b, x, y);
      if SameClass(root, x, y) {
        assert Reach(Joins(edges), x, y);
        EdgeKeepsJoins(root, edges, e, x, y);
      } else {
        EdgeJoins(root, edges, e, x, y);
      }
    }
  }

  /** The pair loop: all compatible pairs are united, each union leaving an edge. */
  method UniteCompatible(facts: seq<Option<Evidence>>) returns (classes: CouplingComponents, edges: seq<Edge>)
    ensures fresh(classes) && classes.Valid() && |classes.parent| == |facts|
    ensures EdgesOk(facts, classes.root, edges)
    ensures forall x: nat, y: nat | x < |facts| && y < |facts| ::
              SameClass(classes.root, x, y) <==> Reach(Links(facts), x, y)
  {
    classes := new CouplingComponents(|facts|);
    edges := [];
    StartEdges(facts, classes.root);
    for left := 0 to |facts|
      invariant fresh(classes) && classes.Valid() && |classes.parent| == |facts| && EdgesOk(facts, classes.root, edges)
      invariant forall x: nat, y: nat | x < left && x < y && Linked(facts, x, y) :: SameClass(classes.root, x, y)
    {
      for right := left + 1 to |facts|
        invariant fresh(classes) && classes.Valid() && |classes.parent| == |facts| && EdgesOk(facts, classes.root, edges)
        invariant forall x: nat, y: nat | x < y && Linked(facts, x, y) && (x < left || (x == left && y < right)) ::
                    SameClass(classes.root, x, y)
      {
        if facts[left].Some? && facts[right].Some? && Compatible(facts[left].value, facts[right].value) {
          ghost var before := classes.root;
          var united := classes.Union(left, right);
          if united {
            var pair := OnceLockPairEvidence(facts[left].value, facts[right].value);
            var edge := Edge(left, right, pair.value);
            ghost var a, b := before[left], before[right];
            if classes.root == Merged(before, a, b) {
              UnionKeepsEdges(facts, before, edges, edge, a, b);
            } else {
              UnionKeepsEdges(facts, before, edges, edge, b, a);
            }
            edges := edges + [edge];
          }
        }
      }
    }
    ClassesAreComponents(facts, classes.root, edges);
  }

  lemma StartEdges(facts: seq<Option<Evidence>>, root: seq<nat>)
    requires |root| == |facts| && forall x | 0 <= x < |root| :: root[x] == x
    ensures EdgesOk(facts, root, [])
  {
    forall r: nat {:trigger TreeOk([], root, r)} | r < |root|
      ensures TreeOk([], root, r)
    {
      assert Class(root, r) == {r};
    }
    forall x: nat, y: nat {:trigger Reach(Joins([]), x, y)} | SameClass(root, x, y)
      ensures Reach(Joins([]), x, y)
    {
      ReachSelf(Joins([]), x);
    }
  }

  lemma ClassesAreComponents(facts: seq<Option<Evidence>>, root: seq<nat>, edges: seq<Edge>)
    requires EdgesOk(facts, root, edges)
    requires forall x: nat, y: nat | x < y && Linked(facts, x, y) :: SameClass(root, x, y)
    ensures forall x: nat, y: nat | x < |facts| && y < |facts| ::
              SameClass(root, x, y) <==> Reach(Links(facts), x, y)
  {
    forall x: nat, y: nat | x < |facts| && y < |facts|
      ensures SameClass(root, x, y) <==> Reach(Links(facts), x, y)
    {
      if SameClass(root, x, y) {
        assert Reach(Joins(edges), x, y);
        forall u: nat, w: nat | Joined(edges, u, w)
          ensures Linked(facts, u, w)
        {
          var e :| e in edges && ((e.a == u && e.b == w) || (e.a == w && e.b == u));
          assert EdgeOk(facts, root, e);
          CompatibleSymmetric(facts[u].value, facts[w].value);
        }
        ReachWider(Joins(edges), Links(facts), x, y);
      }
      if Reach(Links(facts), x, y) {
        forall u: nat, w: nat | Linked(facts, u, w)
          ensures SameClass(root, u, w)
        {
          CompatibleSymmetric(facts[u].value, facts[w].value);
          assert if u < w then Linked(facts, u, w) else Linked(facts, w, u);
        }
        ClosedUnderReach(Links(facts), (w: nat) => SameClass(root, x, w), x, y);
      }
    }
  }
}
