/** The assembled coupling groups, and the publication point a whole group may share. */
module CouplingGroups {
  import opened Paths
  import opened Sorting
  import opened UnionFind
  import opened Coupling

  datatype Group = Group(members: seq<nat>, evidence: seq<Edge>)

  /** The members are one connected component of the compatibility graph, of size above one. */
  ghost predicate IsGroup(facts: seq<Option<Evidence>>, members: seq<nat>) {
    && |members| > 1 && StrictlyAscending(members)
    && (forall x | x in members :: x < |facts|)
    && (forall x: nat, y: nat | x in members && y < |facts| :: y in members <==> Reach(Links(facts), x, y))
  }

  /** The evidence is a spanning tree: compatible pairs of members, one fewer than the members. */
  ghost predicate Spans(facts: seq<Option<Evidence>>, g: Group) {
    && |g.evidence| == |g.members| - 1
    && (forall e | e in g.evidence :: e.a in g.members && e.b in g.members && Linked(facts, e.a, e.b)
          && Some(e.pair) == OnceLockPairEvidence(facts[e.a].value, facts[e.b].value))
    && (forall x: nat, y: nat | x in g.members && y in g.members :: Reach(Joins(g.evidence), x, y))
  }

  /** The edges that start in `nodes`, in order. */
  function EdgesFrom(edges: seq<Edge>, nodes: set<nat>): seq<Edge> {
    if edges == [] then []
    else
      EdgesFrom(edges[..|edges| - 1], nodes)
      + if edges[|edges| - 1].a in nodes then [edges[|edges| - 1]] else []
  }

  lemma {:induction false} EdgesFromMembers(edges: seq<Edge>, nodes: set<nat>)
    ensures |EdgesFrom(edges, nodes)| == EdgesIn(edges, nodes)
    ensures forall e :: e in EdgesFrom(edges, nodes) <==> e in edges && e.a in nodes
  {
    if edges != [] {
      assert edges == edges[..|edges| - 1] + [edges[|edges| - 1]];
      EdgesFromMembers(edges[..|edges| - 1], nodes);
    }
  }

  /** The members of the class of `r` among the first `upto` globals, ascending. */
  ghost function Listed(root: seq<nat>, r: nat, upto: nat): (members: seq<nat>)
    requires upto <= |root|
    ensures forall x: nat :: x in members <==> x < upto && root[x] == r
  {
    if upto == 0 then []
    else
      var rest := Listed(root, r, upto - 1);
      if root[upto - 1] == r then
        var members := rest + [upto - 1];
        assert forall x: nat :: x in members <==> x in rest || x == upto - 1;
        members
      else rest
  }

  lemma {:induction false} ListedAscending(root: seq<nat>, r: nat, upto: nat)
    requires upto <= |root|
    ensures StrictlyAscending(Listed(root, r, upto))
  {
    if upto > 0 {
      ListedAscending(root, r, upto - 1);
      var rest := Listed(root, r, upto - 1);
      forall i | 0 <= i < |rest|
        ensures rest[i] < upto - 1
      {
        assert rest[i] in rest;
      }
    }
  }

  /** The roots of classes of size above one, in order of their first members. */
  ghost function Roots(root: seq<nat>, upto: nat): (roots: seq<nat>)
    requires upto <= |root|
  {
    if upto == 0 then []
    else
      var rest, r := Roots(root, upto - 1), root[upto - 1];
      if |Class(root, r)| > 1 && r !in rest then rest + [r] else rest
  }

  /** `r` is the root of a class of size above one that has a member below `upto`. */
  ghost predicate Leads(root: seq<nat>, r: nat, upto: nat) {
    upto <= |root| && |Class(root, r)| > 1 && Listed(root, r, upto) != []
  }

  /** The class of `a` has the smaller first member. */
  ghost predicate Before(root: seq<nat>, a: nat, b: nat, upto: nat) {
    Leads(root, a, upto) && Leads(root, b, upto) && Listed(root, a, upto)[0] < Listed(root, b, upto)[0]
  }

  lemma LeadsNext(root: seq<nat>, r: nat, upto: nat)
    requires Leads(root, r, upto) && upto < |root|
    ensures Leads(root, r, upto + 1) && Listed(root, r, upto + 1)[0] == Listed(root, r, upto)[0] < upto
  {
    FirstIsMember(Listed(root, r, upto));
  }

  lemma {:induction false} RootsLead(root: seq<nat>, upto: nat)
    requires upto <= |root|
    ensures forall i | 0 <= i < |Roots(root, upto)| :: Leads(root, Roots(root, upto)[i], upto)
    ensures forall i, j | 0 <= i < j < |Roots(root, upto)| :: Before(root, Roots(root, upto)[i], Roots(root, upto)[j], upto)
  {
    if upto > 0 {
      RootsLead(root, upto - 1);
      var rest, r := Roots(root, upto - 1), root[upto - 1];
      forall i | 0 <= i < |rest|
        ensures Leads(root, rest[i], upto) && Listed(root, rest[i], upto)[0] == Listed(root, rest[i], upto - 1)[0] < upto - 1
      {
        LeadsNext(root, rest[i], upto - 1);
      }
      forall i, j | 0 <= i < j < |rest|
        ensures Before(root, rest[i], rest[j], upto)
      {
        assert Before(root, rest[i], rest[j], upto - 1);
      }
      if |Class(root, r)| > 1 && r !in rest {
        RootsComplete(root, upto - 1);
        FirstIsMember(Listed(root, r, upto - 1));
        assert Listed(root, r, upto) == [upto - 1];
      }
    }
  }

  lemma {:induction false} RootsComplete(root: seq<nat>, upto: nat)
    requires upto <= |root|
    ensures NoDuplicates(Roots(root, upto))
    ensures forall x: nat | x < upto && |Class(root, root[x])| > 1 :: root[x] in Roots(root, upto)
  {
    if upto > 0 {
      RootsComplete(root, upto - 1);
      assert forall q: nat | q in Roots(root, upto - 1) :: q in Roots(root, upto);
    }
  }

  /** The globals below `upto` that are in classes of size above one, filed under their roots. */
  ghost predicate Filed(byRoot: map<nat, seq<nat>>, order: seq<nat>, root: seq<nat>, upto: nat) {
    && upto <= |root| && order == Roots(root, upto)
    && (forall r: nat :: r in byRoot <==> r in order)
    && (forall r: nat | r in byRoot :: byRoot[r] == Listed(root, r, upto))
  }

  /** A filed row is the nonempty, ascending list of its class. */
  lemma FiledRow(byRoot: map<nat, seq<nat>>, order: seq<nat>, root: seq<nat>, upto: nat, r: nat)
    requires Filed(byRoot, order, root, upto) && r in order
    ensures byRoot[r] == Listed(root, r, upto) != [] && StrictlyAscending(byRoot[r]) && Leads(root, r, upto)
  {
    ListedAscending(root, r, upto);
    RootsLead(root, upto);
    var i :| 0 <= i < |order| && order[i] == r;
    assert Leads(root, order[i], upto);
  }

  lemma FileNext(byRoot: map<nat, seq<nat>>, order: seq<nat>, root: seq<nat>, x: nat)
    requires Filed(byRoot, order, root, x) && x < |root|
    ensures |Class(root, root[x])| <= 1 ==> Filed(byRoot, order, root, x + 1)
    ensures |Class(root, root[x])| > 1 ==>
              var r := root[x];
              Filed(byRoot[r := (if r in byRoot then byRoot[r] else []) + [x]],
                    if r in byRoot then order else order + [r], root, x + 1)
  {
    var r := root[x];
    RootsComplete(root, x);
    if r in order {
      FiledRow(byRoot, order, root, x, r);
    }
    FirstIsMember(Listed(root, r, x));
  }

  method FileMembers(classes: CouplingComponents, n: nat) returns (byRoot: map<nat, seq<nat>>, order: seq<nat>)
    requires classes.Valid() && |classes.parent| == n
    modifies classes`parent
    ensures classes.Valid() && |classes.root| == n && Filed(byRoot, order, classes.root, n)
  {
    byRoot, order := map[], [];
    for x := 0 to n
      invariant classes.Valid() && |classes.parent| == n == |classes.root| && Filed(byRoot, order, classes.root, x)
    {
      FileNext(byRoot, order, classes.root, x);
      var size := classes.ComponentSize(x);
      if size > 1 {
        var r := classes.Find(x);
        order := if r in byRoot then order else order + [r];
        byRoot := byRoot[r := (if r in byRoot then byRoot[r] else []) + [x]];
      }
    }
  }

  /** A complete file lists exactly the class of each root. */
  lemma FiledIsClass(byRoot: map<nat, seq<nat>>, order: seq<nat>, root: seq<nat>, r: nat)
    requires Filed(byRoot, order, root, |root|) && r in byRoot
    ensures Elements(byRoot[r]) == Class(root, r) && |byRoot[r]| == |Class(root, r)|
  {
    FiledRow(byRoot, order, root, |root|, r);
    forall x: nat
      ensures x in Elements(byRoot[r]) <==> x in Class(root, r)
    {
      assert x in Elements(byRoot[r]) <==> x in byRoot[r];
    }
    NoDuplicatesSize(byRoot[r]);
  }

  /** One filed class with its edges is a group with a spanning tree. */
  lemma ClassIsGroup(
      facts: seq<Option<Evidence>>, root: seq<nat>, edges: seq<Edge>, byRoot: map<nat, seq<nat>>, order: seq<nat>, r: nat)
    requires EdgesOk(facts, root, edges) && Filed(byRoot, order, root, |root|) && r in byRoot
    requires r < |root| && root[r] == r
    requires forall x: nat, y: nat | x < |facts| && y < |facts| :: SameClass(root, x, y) <==> Reach(Links(facts), x, y)
    ensures IsGroup(facts, byRoot[r]) && Spans(facts, Group(byRoot[r], EdgesFrom(edges, Class(root, r))))
  {
    var members, evidence := byRoot[r], EdgesFrom(edges, Class(root, r));
    EdgesFromMembers(edges, Class(root, r));
    FiledRow(byRoot, order, root, |root|, r);
    FiledIsClass(byRoot, order, root, r);
    assert TreeOk(edges, root, r);
    forall x: nat
      ensures x in members <==> x in Class(root, r)
    {
      assert x in members <==> x in Elements(members);
    }
    forall e | e in evidence
      ensures e.a in members && e.b in members && Linked(facts, e.a, e.b)
      ensures Some(e.pair) == OnceLockPairEvidence(facts[e.a].value, facts[e.b].value)
    {
      assert EdgeOk(facts, root, e);
    }
    forall x: nat, y: nat | x in members && y in members
      ensures Reach(Joins(evidence), x, y)
    {
      EvidenceSpans(facts, root, edges, r, x, y);
    }
  }

  lemma EvidenceSpans(facts: seq<Option<Evidence>>, root: seq<nat>, edges: seq<Edge>, r: nat, x: nat, y: nat)
    requires EdgesOk(facts, root, edges) && x in Class(root, r) && y in Class(root, r)
    ensures Reach(Joins(EdgesFrom(edges, Class(root, r))), x, y)
  {
    var evidence := EdgesFrom(edges, Class(root, r));
    EdgesFromMembers(edges, Class(root, r));
    assert SameClass(root, x, y) && Reach(Joins(edges), x, y);
    forall u: nat, w: nat | u in Class(root, r) && Joined(edges, u, w)
      ensures w in Class(root, r) && Joined(evidence, u, w)
    {
      var e :| e in edges && ((e.a == u && e.b == w) || (e.a == w && e.b == u));
      assert EdgeOk(facts, root, e);
      assert e in evidence;
    }
    ReachInside(Joins(edges), Joins(evidence), (u: nat) => u in Class(root, r), x, y);
  }

  /** Every group holds the edges that start in its class. */
  ghost predicate Attached(evidence: seq<seq<Edge>>, edges: seq<Edge>, order: seq<nat>, root: seq<nat>) {
    |evidence| == |order| && forall g | 0 <= g < |order| :: evidence[g] == EdgesFrom(edges, Class(root, order[g]))
  }

  /** Only the group of its first end gains an edge. */
  lemma AttachNext(evidence: seq<seq<Edge>>, edges: seq<Edge>, e: Edge, order: seq<nat>, root: seq<nat>, group: nat)
    requires Attached(evidence, edges, order, root) && NoDuplicates(order)
    requires group < |order| && e.a < |root| && order[group] == root[e.a]
    ensures Attached(evidence[group := evidence[group] + [e]], edges + [e], order, root)
  {
    assert (edges + [e])[..|edges|] == edges;
    forall g | 0 <= g < |order|
      ensures EdgesFrom(edges + [e], Class(root, order[g]))
           == EdgesFrom(edges, Class(root, order[g])) + if g == group then [e] else []
    {
      assert g != group ==> order[g] != order[group];
    }
  }

  method AttachEdge(
      evidence: seq<seq<Edge>>, ghost edges: seq<Edge>, e: Edge, groupOf: map<nat, nat>, order: seq<nat>, ghost root: seq<nat>)
    returns (evidence': seq<seq<Edge>>)
    requires Attached(evidence, edges, order, root) && NoDuplicates(order) && InGroup(order, root, groupOf, e.a)
    ensures Attached(evidence', edges + [e], order, root)
  {
    AttachNext(evidence, edges, e, order, root, groupOf[e.a]);
    evidence' := evidence[groupOf[e.a] := evidence[groupOf[e.a]] + [e]];
  }

  /** Attaches every edge to the group of its first end. */
  method AttachEvidence(edges: seq<Edge>, byRoot: map<nat, seq<nat>>, order: seq<nat>, ghost root: seq<nat>)
    returns (evidence: seq<seq<Edge>>)
    requires Filed(byRoot, order, root, |root|)
    requires forall i | 0 <= i < |edges| :: edges[i].a < |root| && root[edges[i].a] in order
    ensures Attached(evidence, edges, order, root)
  {
    RootsComplete(root, |root|);
    var groupOf := GroupIndex(byRoot, order, root);
    evidence := AttachAll(edges, groupOf, order, root);
  }

  method AttachAll(edges: seq<Edge>, groupOf: map<nat, nat>, order: seq<nat>, ghost root: seq<nat>)
    returns (evidence: seq<seq<Edge>>)
    requires NoDuplicates(order) && forall i | 0 <= i < |edges| :: InGroup(order, root, groupOf, edges[i].a)
    ensures Attached(evidence, edges, order, root)
  {
    evidence := seq(|order|, _ => []);
    for i := 0 to |edges|
      invariant Attached(evidence, edges[..i], order, root)
    {
      assert edges[..i + 1] == edges[..i] + [edges[i]];
      evidence := AttachEdge(evidence, edges[..i], edges[i], groupOf, order, root);
    }
    assert edges[..|edges|] == edges;
  }

  /** The position of the group of every grouped global. */
  method GroupIndex(byRoot: map<nat, seq<nat>>, order: seq<nat>, ghost root: seq<nat>) returns (groupOf: map<nat, nat>)
    requires Filed(byRoot, order, root, |root|)
    ensures forall x: nat | x < |root| && root[x] in order :: InGroup(order, root, groupOf, x)
  {
    groupOf := map[];
    for g := 0 to |order|
      invariant forall x: nat | x < |root| && root[x] in order[..g] :: InGroup(order, root, groupOf, x)
    {
      assert order[g] in order && order[..g + 1] == order[..g] + [order[g]];
      groupOf := IndexMembers(groupOf, byRoot[order[g]], g);
    }
    assert order[..|order|] == order;
  }

  method IndexMembers(groupOf: map<nat, nat>, members: seq<nat>, g: nat) returns (next: map<nat, nat>)
    ensures forall x: nat | x in members :: x in next && next[x] == g
    ensures forall x: nat | x !in members :: (x in next <==> x in groupOf) && (x in groupOf ==> next[x] == groupOf[x])
  {
    next := groupOf;
    for k := 0 to |members|
      invariant forall x: nat | x in members[..k] :: x in next && next[x] == g
      invariant forall x: nat | x !in members[..k] :: (x in next <==> x in groupOf) && (x in groupOf ==> next[x] == groupOf[x])
    {
      assert members[..k + 1] == members[..k] + [members[k]];
      next := next[members[k] := g];
    }
    assert members[..|members|] == members;
  }

  ghost predicate InGroup(order: seq<nat>, root: seq<nat>, groupOf: map<nat, nat>, x: nat) {
    x < |root| && x in groupOf && groupOf[x] < |order| && order[groupOf[x]] == root[x]
  }

  /**
   Every group is a component with a spanning tree, no two share a member, every two connected globals
   are in one, and the groups are in order of their first members.
   */
  ghost predicate AreCouplingGroups(facts: seq<Option<Evidence>>, groups: seq<Group>) {
    && (forall g | g in groups :: IsGroup(facts, g.members) && Spans(facts, g))
    && (forall i, j, x: nat | 0 <= i < j < |groups| && x in groups[i].members :: x !in groups[j].members)
    && (forall x: nat, y: nat | x < |facts| && y < |facts| && x != y && Reach(Links(facts), x, y) ::
          exists g :: g in groups && x in g.members && y in g.members)
    && (forall i, j | 0 <= i < j < |groups| ::
          groups[i].members != [] && groups[j].members != [] && groups[i].members[0] < groups[j].members[0])
  }

  /**
   The groups are exactly the connected components of size above one of the compatibility graph, in
   order of their first members, each with a spanning tree of evidence.
   */
  method AssembleCouplingGroups(facts: seq<Option<Evidence>>) returns (groups: seq<Group>)
    ensures AreCouplingGroups(facts, groups)
  {
    var classes, edges := UniteCompatible(facts);
    var byRoot, order := FileMembers(classes, |facts|);
    ghost var root := classes.root;
    forall e | e in edges
      ensures e.a < |root| && root[e.a] in order
    {
      assert EdgeOk(facts, root, e);
      TwoInClass(root, e.a, e.b);
      RootsComplete(root, |root|);
    }
    var evidence := AttachEvidence(edges, byRoot, order, root);
    groups := [];
    for g := 0 to |order|
      invariant |groups| == g
      invariant forall i | 0 <= i < g :: order[i] in byRoot && groups[i] == Group(byRoot[order[i]], evidence[i])
    {
      assert order[g] in order;
      groups := groups + [Group(byRoot[order[g]], evidence[g])];
    }
    forall i | 0 <= i < |groups|
      ensures order[i] in byRoot && groups[i] == Group(byRoot[order[i]], EdgesFrom(edges, Class(root, order[i])))
    {
      assert order[i] in order;
    }
    FiledAreGroups(facts, root, edges, byRoot, order, classes.parent, classes.rank, classes.top, groups);
  }

  lemma TwoInClass(root: seq<nat>, x: nat, y: nat)
    requires SameClass(root, x, y) && x != y
    ensures |Class(root, root[x])| > 1
  {
    assert {x, y} <= Class(root, root[x]);
    SubsetSize({x, y}, Class(root, root[x]));
  }

  lemma FiledAreGroups(
      facts: seq<Option<Evidence>>, root: seq<nat>, edges: seq<Edge>, byRoot: map<nat, seq<nat>>, order: seq<nat>,
      parent: seq<nat>, rank: seq<nat>, top: nat, groups: seq<Group>)
    requires EdgesOk(facts, root, edges) && Filed(byRoot, order, root, |root|) && Forest(parent, root, rank, top)
    requires forall x: nat, y: nat | x < |facts| && y < |facts| :: SameClass(root, x, y) <==> Reach(Links(facts), x, y)
    requires |groups| == |order|
    requires forall i | 0 <= i < |groups| :: order[i] in byRoot
               && groups[i] == Group(byRoot[order[i]], EdgesFrom(edges, Class(root, order[i])))
    ensures AreCouplingGroups(facts, groups)
  {
    RootsLead(root, |root|);
    RootsComplete(root, |root|);
    forall i | 0 <= i < |groups|
      ensures IsGroup(facts, groups[i].members) && Spans(facts, groups[i])
      ensures forall x: nat | x in groups[i].members :: x < |root| && root[x] == order[i]
    {
      var r := order[i];
      FiledRow(byRoot, order, root, |root|, r);
      assert byRoot[r][0] in byRoot[r];
      assert NodeOk(parent, root, rank, top, byRoot[r][0]);
      ClassIsGroup(facts, root, edges, byRoot, order, r);
    }
    forall x: nat, y: nat | x < |facts| && y < |facts| && x != y && Reach(Links(facts), x, y)
      ensures exists g :: g in groups && x in g.members && y in g.members
    {
      TwoInClass(root, x, y);
      assert root[x] in order;
      var i :| 0 <= i < |order| && order[i] == root[x];
      assert x in groups[i].members && y in groups[i].members && groups[i] in groups;
    }
    forall i, j | 0 <= i < j < |groups|
      ensures groups[i].members != [] && groups[j].members != [] && groups[i].members[0] < groups[j].members[0]
    {
      assert Before(root, order[i], order[j], |root|);
    }
  }

  // ---------------------------------------------------------------------------------------------
  // Joint once-lock support

  datatype Support =
    | Supported(publicationFunction: nat, common: Interval, commonP: Site)
    | NotCertified
    | PublicationFunctionMismatch
    | SpinePathMismatch
    | IntervalDisjoint
    | FunctionUnkeyed

  /** `site` is a latest start and no earlier than any other. */
  ghost predicate LatestStart(facts: seq<Option<Evidence>>, members: seq<nat>, site: Site) {
    && (exists m :: m in members && Certified(facts, m) && facts[m].value.earliest == site)
    && (forall m | m in members && Certified(facts, m) :: AtMost(facts[m].value.earliest, site))
  }

  ghost predicate EarliestEnd(facts: seq<Option<Evidence>>, members: seq<nat>, site: Site) {
    && (exists m :: m in members && Certified(facts, m) && facts[m].value.latest == site)
    && (forall m | m in members && Certified(facts, m) :: AtMost(site, facts[m].value.latest))
  }

  predicate Certified(facts: seq<Option<Evidence>>, m: nat) {
    m < |facts| && facts[m].Some?
  }

  predicate InRange(facts: seq<Option<Evidence>>, members: seq<nat>) {
    forall i | 0 <= i < |members| :: members[i] < |facts|
  }

  predicate AllCertified(facts: seq<Option<Evidence>>, members: seq<nat>) {
    forall i | 0 <= i < |members| :: Certified(facts, members[i])
  }

  /** Both are certified, about the same publication function and spine path. */
  predicate AgreesWith(facts: seq<Option<Evidence>>, x: nat, y: nat) {
    && Certified(facts, x) && Certified(facts, y)
    && facts[x].value.publicationFunction == facts[y].value.publicationFunction
    && facts[x].value.descentPath == facts[y].value.descentPath
  }

  /** `x` starts after `y` ends. */
  predicate Apart(facts: seq<Option<Evidence>>, x: nat, y: nat) {
    Certified(facts, x) && Certified(facts, y) && !AtMost(facts[x].value.earliest, facts[y].value.latest)
  }

  /** Any two different members have a common publication point. */
  ghost predicate PairwiseOverlap(facts: seq<Option<Evidence>>, members: seq<nat>) {
    forall x, y | x in members && y in members && x != y && Certified(facts, x) && Certified(facts, y) ::
      Overlap(facts[x].value, facts[y].value)
  }

  /** Links never change the publication function or the spine path. */
  lemma GroupAgrees(facts: seq<Option<Evidence>>, members: seq<nat>, x: nat, y: nat)
    requires IsGroup(facts, members) && x in members && y in members
    ensures AgreesWith(facts, x, y)
  {
    HasLink(facts, members, x);
    HasLink(facts, members, y);
    ClosedUnderReach(Links(facts),
      (w: nat) => AgreesWith(facts, x, w), x, y);
  }

  /** A member of a group has a compatible partner, hence a proper interval of its own. */
  lemma HasLink(facts: seq<Option<Evidence>>, members: seq<nat>, x: nat)
    requires IsGroup(facts, members) && x in members
    ensures Certified(facts, x) && AtMost(facts[x].value.earliest, facts[x].value.latest)
  {
    var y: nat := if members[0] == x then members[1] else members[0];
    assert y in members && y != x;
    var m := ReachFirst(Links(facts), x, y);
    assert Linked(facts, x, m);
  }

  /** In one dimension overlapping in pairs is overlapping together: what the fold relies on. */
  lemma Helly(facts: seq<Option<Evidence>>, members: seq<nat>, earliest: Site, latest: Site)
    requires LatestStart(facts, members, earliest) && EarliestEnd(facts, members, latest)
    requires forall m | m in members && Certified(facts, m) :: AtMost(facts[m].value.earliest, facts[m].value.latest)
    ensures AtMost(earliest, latest) <==> PairwiseOverlap(facts, members)
  {
    if PairwiseOverlap(facts, members) {
      var a :| a in members && Certified(facts, a) && facts[a].value.earliest == earliest;
      var b :| b in members && Certified(facts, b) && facts[b].value.latest == latest;
      if a != b {
        assert Overlap(facts[a].value, facts[b].value);
      }
    }
  }

  /** What keeps the members from having certificates about one function and one spine path. */
  method CheckMembers(facts: seq<Option<Evidence>>, members: seq<nat>) returns (failure: Option<Support>)
    requires members != [] && InRange(facts, members)
    ensures failure.None? <==> (AllCertified(facts, members) && forall m | m in members :: AgreesWith(facts, m, members[0]))
    ensures failure.Some? ==> failure.value in {NotCertified, PublicationFunctionMismatch, SpinePathMismatch}
  {
    for k := 0 to |members|
      invariant AllCertified(facts, members[..k])
    {
      if facts[members[k]].None? {
        return Some(NotCertified);
      }
    }
    assert members[..|members|] == members;
    var first := facts[members[0]].value;
    for k := 1 to |members|
      invariant forall i | 0 <= i < k :: AgreesWith(facts, members[i], members[0])
    {
      assert members[k] in members;
      if facts[members[k]].value.publicationFunction != first.publicationFunction {
        return Some(PublicationFunctionMismatch);
      }
      if facts[members[k]].value.descentPath != first.descentPath {
        return Some(SpinePathMismatch);
      }
    }
    return None;
  }

  /** Folding in one more certificate moves to the later start and the earlier end. */
  lemma FoldNext(facts: seq<Option<Evidence>>, done: seq<nat>, m: nat, folded: Interval, narrowed: Interval)
    requires LatestStart(facts, done, folded.earliest) && EarliestEnd(facts, done, folded.latest) && Certified(facts, m)
    requires IntersectIntervals(folded, IntervalOf(facts[m].value)) == Some(narrowed)
    ensures LatestStart(facts, done + [m], narrowed.earliest) && EarliestEnd(facts, done + [m], narrowed.latest)
  {
    var a :| a in done && Certified(facts, a) && facts[a].value.earliest == folded.earliest;
    var b :| b in done && Certified(facts, b) && facts[b].value.latest == folded.latest;
    var start := if narrowed.earliest == folded.earliest then a else m;
    var end := if narrowed.latest == folded.latest then b else m;
    assert start in done + [m] && facts[start].value.earliest == narrowed.earliest;
    assert end in done + [m] && facts[end].value.latest == narrowed.latest;
  }

  lemma FoldFails(facts: seq<Option<Evidence>>, done: seq<nat>, m: nat, folded: Interval)
    requires LatestStart(facts, done, folded.earliest) && EarliestEnd(facts, done, folded.latest) && Certified(facts, m)
    requires IntersectIntervals(folded, IntervalOf(facts[m].value)).None?
    ensures exists x, y :: x in done + [m] && y in done + [m] && Apart(facts, x, y)
  {
    var a :| a in done && Certified(facts, a) && facts[a].value.earliest == folded.earliest;
    var b :| b in done && Certified(facts, b) && facts[b].value.latest == folded.latest;
    assert Apart(facts, a, b) || Apart(facts, a, m) || Apart(facts, m, b) || Apart(facts, m, m);
    assert a in done + [m] && b in done + [m] && m in done + [m];
  }

  /** Folding the intervals ends at the latest start and the earliest end, or finds two members apart. */
  method FoldIntervals(facts: seq<Option<Evidence>>, members: seq<nat>) returns (common: Option<Interval>)
    requires members != [] && AllCertified(facts, members)
    ensures common.Some? ==>
              && LatestStart(facts, members, common.value.earliest) && EarliestEnd(facts, members, common.value.latest)
              && (|members| > 1 ==> AtMost(common.value.earliest, common.value.latest))
    ensures common.None? ==> exists x, y :: x in members && y in members && Apart(facts, x, y)
  {
    var folded := IntervalOf(facts[members[0]].value);
    for k := 1 to |members|
      invariant LatestStart(facts, members[..k], folded.earliest) && EarliestEnd(facts, members[..k], folded.latest)
      invariant k > 1 ==> AtMost(folded.earliest, folded.latest)
    {
      var narrowed := IntersectIntervals(folded, IntervalOf(facts[members[k]].value));
      assert members[..k + 1] == members[..k] + [members[k]];
      if narrowed.None? {
        FoldFails(facts, members[..k], members[k], folded);
        assert forall x | x in members[..k + 1] :: x in members;
        return None;
      }
      FoldNext(facts, members[..k], members[k], folded, narrowed.value);
      folded := narrowed.value;
    }
    assert members[..|members|] == members;
    return Some(folded);
  }

  /** Two certificates apart in one direction have no common point. */
  lemma ApartIsDisjoint(facts: seq<Option<Evidence>>, members: seq<nat>, x: nat, y: nat)
    requires x in members && y in members && Apart(facts, x, y)
    requires forall m | m in members && Certified(facts, m) :: AtMost(facts[m].value.earliest, facts[m].value.latest)
    ensures !PairwiseOverlap(facts, members)
  {
    assert x != y && !Overlap(facts[x].value, facts[y].value);
  }

  /**
   The common publication point of a list of members. For the members of an assembled group neither
   mismatch can occur, and there is a common point exactly when every two members have one.
   */
  method CommonOnceLockSupport(facts: seq<Option<Evidence>>, members: seq<nat>, keyed: nat -> bool) returns (s: Support)
    requires members != [] && InRange(facts, members)
    ensures IsGroup(facts, members) ==> !s.NotCertified? && !s.PublicationFunctionMismatch? && !s.SpinePathMismatch?
    ensures IsGroup(facts, members) ==> (s.IntervalDisjoint? <==> !PairwiseOverlap(facts, members))
    ensures s.Supported? ==>
              && LatestStart(facts, members, s.common.earliest) && EarliestEnd(facts, members, s.common.latest)
              && (|members| > 1 ==> AtMost(s.common.earliest, s.common.latest)) && s.commonP == s.common.earliest
              && keyed(s.publicationFunction) && AllCertified(facts, members)
              && (forall m | m in members :: AgreesWith(facts, m, members[0]))
              && facts[members[0]].value.publicationFunction == s.publicationFunction
    ensures s.FunctionUnkeyed? ==> Certified(facts, members[0]) && !keyed(facts[members[0]].value.publicationFunction)
  {
    var failure := CheckMembers(facts, members);
    ghost var group := IsGroup(facts, members);
    if group {
      forall m | m in members
        ensures Certified(facts, m) && AtMost(facts[m].value.earliest, facts[m].value.latest)
        ensures AgreesWith(facts, m, members[0])
      {
        HasLink(facts, members, m);
        GroupAgrees(facts, members, m, members[0]);
      }
    }
    if failure.Some? {
      return failure.value;
    }
    var first := facts[members[0]].value;
    var common := FoldIntervals(facts, members);
    if common.None? {
      if group {
        ghost var x, y :| x in members && y in members && Apart(facts, x, y);
        ApartIsDisjoint(facts, members, x, y);
      }
      return IntervalDisjoint;
    }
    if group {
      Helly(facts, members, common.value.earliest, common.value.latest);
    }
    if !keyed(first.publicationFunction) {
      return FunctionUnkeyed;
    }
    return Supported(first.publicationFunction, common.value, common.value.earliest);
  }
}
