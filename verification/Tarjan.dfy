/**
 Tarjan's strongly connected components, as the call-graph closure runs it: a recursive visitor that
 updates indices, low links, the node stack and the component tables in place.
 */
module Tarjan {
  import opened Paths
  import opened Sorting

  type Graph = seq<seq<nat>>

  ghost predicate InRange(g: Graph) {
    forall u: nat, w: nat | 0 <= u < |g| && w in g[u] :: w < |g|
  }

  /** One call edge. */
  ghost function Calls(g: Graph): (nat, nat) -> bool {
    (u: nat, w: nat) => u < |g| && w in g[u]
  }

  /** Some chain of calls leads from `u` to `w`. */
  ghost predicate Reaches(g: Graph, u: nat, w: nat) {
    Reach(Calls(g), u, w)
  }

  lemma CallSelf(g: Graph, u: nat)
    ensures Reaches(g, u, u)
  {
    ReachSelf(Calls(g), u);
  }

  lemma CallEdge(g: Graph, u: nat, w: nat)
    requires u < |g| && w in g[u]
    ensures Reaches(g, u, w)
  {
    ReachEdge(Calls(g), u, w);
  }

  lemma CallTrans(g: Graph, u: nat, v: nat, w: nat)
    requires Reaches(g, u, v) && Reaches(g, v, w)
    ensures Reaches(g, u, w)
  {
    ReachTrans(Calls(g), u, v, w);
  }

  /**
   What a condensation is: the components partition the nodes, two nodes share a component exactly
   when each reaches the other, and an edge that leaves its component goes to a smaller number.
   */
  ghost predicate IsCondensation(g: Graph, members: seq<seq<nat>>, sccOf: seq<nat>) {
    && |sccOf| == |g|
    && (forall u: nat | 0 <= u < |g| :: sccOf[u] < |members|)
    && (forall k | 0 <= k < |members| :: members[k] != [] && StrictlyAscending(members[k]))
    && (forall k, x: nat | 0 <= k < |members| :: x in members[k] <==> x < |sccOf| && sccOf[x] == k)
    && (forall u: nat, w: nat | 0 <= u < |g| && 0 <= w < |g| ::
          sccOf[u] == sccOf[w] <==> Reaches(g, u, w) && Reaches(g, w, u))
    && (forall u: nat, w: nat | u < |g| && w in g[u] && w < |g| && sccOf[u] != sccOf[w] :: sccOf[w] < sccOf[u])
  }

  // ---------------------------------------------------------------------------------------------
  // Snapshots of the visitor and its invariant

  datatype State = State(
    indices: seq<Option<nat>>, index: nat, lowlink: seq<nat>, stack: seq<nat>, onStack: seq<bool>,
    members: seq<seq<nat>>, sccOf: seq<nat>)

  ghost predicate Sized(g: Graph, s: State) {
    |s.indices| == |s.lowlink| == |s.onStack| == |s.sccOf| == |g|
  }

  ghost predicate Visited(s: State, v: nat) {
    v < |s.indices| && s.indices[v].Some?
  }

  ghost function Num(s: State, v: nat): nat
    requires Visited(s, v)
  {
    s.indices[v].value
  }

  ghost predicate Finished(s: State, v: nat) {
    Visited(s, v) && v !in s.stack
  }

  /** The stack holds distinct visited nodes in the order of their numbers. */
  ghost predicate StackOk(g: Graph, s: State) {
    && Sized(g, s)
    && (forall v: nat | 0 <= v < |g| :: s.onStack[v] <==> v in s.stack)
    && (forall v: nat | v in s.stack :: Visited(s, v))
    && (forall v: nat | Visited(s, v) :: Num(s, v) < s.index)
    && (forall i, j | 0 <= i < j < |s.stack| :: Num(s, s.stack[i]) < Num(s, s.stack[j]))
  }

  /** Finished nodes lie in emitted components, and their edges stay among finished nodes. */
  ghost predicate EmittedOk(g: Graph, s: State)
    requires Sized(g, s)
  {
    && (forall v: nat | Finished(s, v) :: s.sccOf[v] < |s.members| && v in s.members[s.sccOf[v]])
    && (forall v: nat, w: nat | Finished(s, v) && w in g[v] :: Finished(s, w) && s.sccOf[w] <= s.sccOf[v])
    && (forall k, x: nat | 0 <= k < |s.members| && x in s.members[k] :: Finished(s, x) && s.sccOf[x] == k)
    && (forall k | 0 <= k < |s.members| :: s.members[k] != [] && StrictlyAscending(s.members[k]))
    && (forall x: nat, y: nat {:trigger Reaches(g, x, y)} |
          Finished(s, x) && Finished(s, y) && s.sccOf[x] == s.sccOf[y] :: Reaches(g, x, y))
  }

  /** `y` is an active node no younger than `x` that `x` reaches. */
  ghost predicate Anchor(g: Graph, s: State, x: nat, y: nat) {
    Visited(s, x) && Visited(s, y) && Num(s, y) <= Num(s, x) && Reaches(g, x, y)
  }

  ghost predicate Anchored(g: Graph, s: State, grays: set<nat>, x: nat) {
    exists y: nat :: y in grays && Anchor(g, s, x, y)
  }

  /** `grays` are the nodes whose visit is still running. */
  ghost predicate ActiveOk(g: Graph, s: State, grays: set<nat>)
    requires Sized(g, s)
  {
    && (forall y: nat | y in grays :: y in s.stack)
    && (forall x: nat {:trigger Anchored(g, s, grays, x)} | x in s.stack && x !in grays :: Anchored(g, s, grays, x))
    && (forall x: nat, y: nat {:trigger Reaches(g, y, x)} |
          y in grays && x in s.stack && Visited(s, x) && Visited(s, y) && Num(s, y) <= Num(s, x) :: Reaches(g, y, x))
    && (forall v: nat, w: nat | Visited(s, v) && v !in grays && w in g[v] :: Visited(s, w))
  }

  lemma AnchorOf(g: Graph, s: State, grays: set<nat>, x: nat) returns (y: nat)
    requires Sized(g, s) && ActiveOk(g, s, grays) && x in s.stack && Visited(s, x)
    ensures y in grays && Anchor(g, s, x, y)
  {
    if x in grays {
      CallSelf(g, x);
      y := x;
    } else {
      assert Anchored(g, s, grays, x);
      y :| y in grays && Anchor(g, s, x, y);
    }
  }

  ghost predicate GraysReach(g: Graph, grays: set<nat>, node: nat) {
    (forall y: nat | y in grays :: Reaches(g, y, node)) == true
  }

  // `Inv`, `VisitOk` and `VisitLoop` are written as equations so that the verifier passes each of them
  // around as one fact instead of splitting every goal into all its parts.

  ghost predicate Inv(g: Graph, s: State, grays: set<nat>) {
    (StackOk(g, s) && EmittedOk(g, s) && ActiveOk(g, s, grays)) == true
  }

  /** What a visit keeps: earlier numbers and low links, and everything below it on the stack. */
  ghost predicate Extends(s0: State, s1: State) {
    && |s0.indices| == |s1.indices| == |s0.lowlink| == |s1.lowlink|
    && (forall v: nat | Visited(s0, v) :: s1.indices[v] == s0.indices[v] && s1.lowlink[v] == s0.lowlink[v])
    && (forall v: nat | Visited(s1, v) && !Visited(s0, v) :: s0.index <= Num(s1, v))
    && s0.stack <= s1.stack
    && s0.index <= s1.index
  }

  /** The low link is the node's own number, or the number of an older stack node it reaches. */
  ghost predicate LowReaches(g: Graph, s0: State, node: nat, low: nat) {
    low == s0.index ||
    exists y: nat :: y in s0.stack && Visited(s0, y) && Num(s0, y) == low && Reaches(g, node, y)
  }

  /** No edge of `x` goes below `low` into the older part of the stack. */
  ghost predicate LowBounds(g: Graph, s0: State, x: nat, low: nat) {
    x < |g| && forall w: nat | w in g[x] && w in s0.stack :: Visited(s0, w) && low <= Num(s0, w)
  }

  /** What one visit says of numbers, low links and the stack. */
  ghost predicate VisitLow(g: Graph, s0: State, s1: State, node: nat) {
    && Extends(s0, s1)
    && Visited(s1, node) && Num(s1, node) == s0.index
    && s1.lowlink[node] <= s0.index
    && LowReaches(g, s0, node, s1.lowlink[node])
    && (forall k | |s0.stack| <= k < |s1.stack| :: LowBounds(g, s0, s1.stack[k], s1.lowlink[node]))
  }

  /** The contract of one visit. */
  ghost predicate VisitOk(g: Graph, s0: State, s1: State, node: nat, grays: set<nat>) {
    (Inv(g, s1, grays) && VisitLow(g, s0, s1, node)) == true
  }

  /** The low link of `node` accounts for its first `i` successors. */
  ghost predicate SuccessorsLow(g: Graph, s0: State, s: State, node: nat, i: nat)
    requires node < |g| && i <= |g[node]| && node < |s.lowlink|
  {
    && (forall j | 0 <= j < i :: Visited(s, g[node][j]))
    && (forall j | 0 <= j < i && g[node][j] in s0.stack ::
          Visited(s0, g[node][j]) && s.lowlink[node] <= Num(s0, g[node][j]))
  }

  ghost predicate LoopLow(g: Graph, s0: State, s: State, node: nat, i: nat) {
    && node < |g| && i <= |g[node]|
    && !Visited(s0, node)
    && Extends(s0, s)
    && Visited(s, node) && Num(s, node) == s0.index
    && s0.stack + [node] <= s.stack
    && s.lowlink[node] <= s0.index
    && LowReaches(g, s0, node, s.lowlink[node])
    && (forall k | |s0.stack| < k < |s.stack| :: LowBounds(g, s0, s.stack[k], s.lowlink[node]))
    && SuccessorsLow(g, s0, s, node, i)
  }

  /** The state of a visit of `node` after `i` successors, `s0` being the state before the visit. */
  ghost predicate VisitLoop(g: Graph, s0: State, s: State, node: nat, i: nat, grays: set<nat>) {
    (Inv(g, s0, grays) && Inv(g, s, grays + {node}) && LoopLow(g, s0, s, node, i)) == true
  }

  /** A visit that may go on with its successors. */
  ghost predicate Running(g: Graph, s0: State, s: State, node: nat, i: nat, grays: set<nat>) {
    (InRange(g) && GraysReach(g, grays, node) && VisitLoop(g, s0, s, node, i, grays)) == true
  }

  // ---------------------------------------------------------------------------------------------
  // Opening a visit

  ghost function Opened(s: State, node: nat): State
    requires node < |s.indices| == |s.lowlink| == |s.onStack|
  {
    s.(indices := s.indices[node := Some(s.index)], lowlink := s.lowlink[node := s.index],
       index := s.index + 1, stack := s.stack + [node], onStack := s.onStack[node := true])
  }

  lemma OpenKeepsEmitted(g: Graph, s: State, node: nat, grays: set<nat>)
    requires Inv(g, s, grays) && node < |g| && !Visited(s, node)
    ensures StackOk(g, Opened(s, node)) && EmittedOk(g, Opened(s, node))
  {
    var t := Opened(s, node);
    assert forall v: nat :: v in t.stack <==> v in s.stack || v == node;
    assert forall v: nat :: Visited(t, v) <==> Visited(s, v) || v == node;
    forall i, j | 0 <= i < j < |t.stack|
      ensures Num(t, t.stack[i]) < Num(t, t.stack[j])
    {
      assert t.stack[i] in s.stack;
      if j < |s.stack| { assert t.stack[j] in s.stack; }
    }
    assert forall v: nat :: Finished(t, v) <==> Finished(s, v);
  }

  lemma OpenKeepsActive(g: Graph, s: State, node: nat, grays: set<nat>)
    requires Inv(g, s, grays) && InRange(g) && node < |g| && !Visited(s, node)
    requires GraysReach(g, grays, node)
    ensures ActiveOk(g, Opened(s, node), grays + {node})
  {
    var t := Opened(s, node);
    forall x: nat | x in t.stack && x !in grays + {node}
      ensures Anchored(g, t, grays + {node}, x)
    {
      var y := AnchorOf(g, s, grays, x);
      assert Anchor(g, t, x, y);
    }
    CallSelf(g, node);
    forall v: nat, w: nat | Visited(t, v) && v !in grays + {node} && w in g[v]
      ensures Visited(t, w)
    {
      assert Visited(s, v);
      assert Visited(s, w);
    }
  }

  lemma OpenVisit(g: Graph, s: State, node: nat, grays: set<nat>)
    requires Inv(g, s, grays) && InRange(g) && node < |g| && !Visited(s, node)
    requires GraysReach(g, grays, node)
    ensures VisitLoop(g, s, Opened(s, node), node, 0, grays)
  {
    OpenKeepsEmitted(g, s, node, grays);
    OpenKeepsActive(g, s, node, grays);
  }

  // ---------------------------------------------------------------------------------------------
  // One successor

  ghost function Lowered(s: State, node: nat, low: nat): State
    requires node < |s.lowlink|
  {
    s.(lowlink := s.lowlink[node := if low < s.lowlink[node] then low else s.lowlink[node]])
  }

  lemma LoweredKeepsInv(g: Graph, s: State, node: nat, low: nat, grays: set<nat>)
    requires Inv(g, s, grays) && node < |g|
    ensures Inv(g, Lowered(s, node, low), grays)
  {
    var t := Lowered(s, node, low);
    assert forall v: nat :: Visited(t, v) <==> Visited(s, v);
    assert forall v: nat :: Finished(t, v) <==> Finished(s, v);
    forall x: nat | x in t.stack && x !in grays
      ensures Anchored(g, t, grays, x)
    {
      var y := AnchorOf(g, s, grays, x);
      assert Anchor(g, t, x, y);
    }
  }

  /** A stack node numbered below the node under visit was on the stack before the visit. */
  lemma StackBelow(g: Graph, s0: State, s: State, node: nat, y: nat)
    requires StackOk(g, s0) && StackOk(g, s) && Extends(s0, s) && Visited(s, node) && Num(s, node) == s0.index
    requires s0.stack + [node] <= s.stack
    requires y in s.stack && Visited(s, y) && Num(s, y) < s0.index
    ensures y in s0.stack && Visited(s0, y) && Num(s0, y) == Num(s, y)
  {
    var k :| 0 <= k < |s.stack| && s.stack[k] == y;
    assert s.stack[|s0.stack|] == (s0.stack + [node])[|s0.stack|];
    assert k < |s0.stack|;
    assert s.stack[k] == s0.stack[k];
  }

  lemma LoweredLow(g: Graph, s0: State, s: State, node: nat, i: nat, low: nat)
    requires LoopLow(g, s0, s, node, i) && i < |g[node]|
    requires Visited(s, g[node][i])
    requires g[node][i] in s0.stack ==> Visited(s0, g[node][i]) && low <= Num(s0, g[node][i])
    requires low < s.lowlink[node] ==> LowReaches(g, s0, node, low)
    ensures LoopLow(g, s0, Lowered(s, node, low), node, i + 1)
  {
    var t := Lowered(s, node, low);
    assert t.indices == s.indices && t.stack == s.stack;
    assert Extends(s0, t);
    forall k | |s0.stack| < k < |t.stack|
      ensures LowBounds(g, s0, t.stack[k], t.lowlink[node])
    {
      assert LowBounds(g, s0, s.stack[k], s.lowlink[node]);
    }
    forall j | 0 <= j < i + 1
      ensures Visited(t, g[node][j])
      ensures g[node][j] in s0.stack ==> Visited(s0, g[node][j]) && t.lowlink[node] <= Num(s0, g[node][j])
    {
      assert Visited(s, g[node][j]);
    }
  }

  /** The successor is already visited and on the stack. */
  lemma StackSuccessor(g: Graph, s0: State, s: State, node: nat, i: nat, grays: set<nat>)
    requires VisitLoop(g, s0, s, node, i, grays) && i < |g[node]|
    requires Visited(s, g[node][i]) && g[node][i] in s.stack
    ensures VisitLoop(g, s0, Lowered(s, node, Num(s, g[node][i])), node, i + 1, grays)
  {
    var succ := g[node][i];
    var low := Num(s, succ);
    LoweredKeepsInv(g, s, node, low, grays + {node});
    if low < s0.index {
      StackBelow(g, s0, s, node, succ);
      CallEdge(g, node, succ);
    }
    assert succ in s0.stack ==> Visited(s0, succ);
    LoweredLow(g, s0, s, node, i, low);
  }

  /** The successor is already visited and its component was emitted: nothing changes. */
  lemma EmittedSuccessor(g: Graph, s0: State, s: State, node: nat, i: nat, grays: set<nat>)
    requires VisitLoop(g, s0, s, node, i, grays) && i < |g[node]|
    requires Visited(s, g[node][i]) && g[node][i] !in s.stack
    ensures VisitLoop(g, s0, s, node, i + 1, grays)
  {
    EmittedLow(g, s0, s, node, i);
  }

  lemma EmittedLow(g: Graph, s0: State, s: State, node: nat, i: nat)
    requires LoopLow(g, s0, s, node, i) && i < |g[node]|
    requires Visited(s, g[node][i]) && g[node][i] !in s.stack
    ensures LoopLow(g, s0, s, node, i + 1)
  {
    PrefixMembers(s0.stack, s.stack);
  }

  lemma SeenSuccessor(g: Graph, s0: State, s: State, node: nat, i: nat, grays: set<nat>)
    requires VisitLoop(g, s0, s, node, i, grays) && i < |g[node]| && Visited(s, g[node][i])
    ensures s.onStack[g[node][i]] <==> g[node][i] in s.stack
    ensures if g[node][i] in s.stack
            then VisitLoop(g, s0, Lowered(s, node, Num(s, g[node][i])), node, i + 1, grays)
            else VisitLoop(g, s0, s, node, i + 1, grays)
  {
    if g[node][i] in s.stack {
      StackSuccessor(g, s0, s, node, i, grays);
    } else {
      EmittedSuccessor(g, s0, s, node, i, grays);
    }
  }

  lemma PrefixMembers(s: seq<nat>, t: seq<nat>)
    requires s <= t
    ensures forall x: nat | x in s :: x in t
  {
  }

  /** A recursive visit of the `i`-th successor, seen from the visit of `node`. */
  lemma TreeExtends(g: Graph, s0: State, s: State, s1: State, node: nat, i: nat)
    requires LoopLow(g, s0, s, node, i) && i < |g[node]| && VisitLow(g, s, s1, g[node][i])
    ensures Extends(s0, s1)
    ensures Visited(s1, node) && s1.lowlink[node] == s.lowlink[node] && s0.stack + [node] <= s1.stack
    ensures Extends(s0, Lowered(s1, node, s1.lowlink[g[node][i]]))
  {
    assert forall v: nat | Visited(s0, v) :: Visited(s, v);
    assert forall v: nat | Visited(s, v) :: Visited(s1, v);
  }

  lemma TreeLow(g: Graph, s0: State, s: State, s1: State, node: nat, i: nat)
    requires LoopLow(g, s0, s, node, i) && i < |g[node]| && VisitLow(g, s, s1, g[node][i])
    requires StackOk(g, s0) && StackOk(g, s)
    ensures LoopLow(g, s0, Lowered(s1, node, s1.lowlink[g[node][i]]), node, i + 1)
  {
    var succ := g[node][i];
    var low := s1.lowlink[succ];
    var t := Lowered(s1, node, low);
    TreeExtends(g, s0, s, s1, node, i);
    TreeReaches(g, s0, s, s1, node, i);
    TreeTargets(g, s0, s, s1, node, i);
    assert t.indices == s1.indices && t.stack == s1.stack;
    forall k | |s0.stack| < k < |t.stack|
      ensures LowBounds(g, s0, t.stack[k], t.lowlink[node])
    {
      TreeBounds(g, s0, s, s1, node, i, k);
    }
  }

  lemma TreeTargets(g: Graph, s0: State, s: State, s1: State, node: nat, i: nat)
    requires LoopLow(g, s0, s, node, i) && i < |g[node]| && VisitLow(g, s, s1, g[node][i])
    requires StackOk(g, s0) && StackOk(g, s)
    ensures SuccessorsLow(g, s0, Lowered(s1, node, s1.lowlink[g[node][i]]), node, i + 1)
  {
    TreeExtends(g, s0, s, s1, node, i);
    PrefixMembers(s0.stack, s.stack);
    forall j | 0 <= j < i + 1
      ensures Visited(s1, g[node][j])
      ensures g[node][j] in s0.stack ==>
                Visited(s0, g[node][j]) && Lowered(s1, node, s1.lowlink[g[node][i]]).lowlink[node] <= Num(s0, g[node][j])
    {
      if j < i {
        assert Visited(s, g[node][j]);
      }
    }
  }

  lemma TreeReaches(g: Graph, s0: State, s: State, s1: State, node: nat, i: nat)
    requires LoopLow(g, s0, s, node, i) && i < |g[node]| && VisitLow(g, s, s1, g[node][i])
    requires StackOk(g, s0) && StackOk(g, s)
    ensures s1.lowlink[g[node][i]] < s.lowlink[node] ==> LowReaches(g, s0, node, s1.lowlink[g[node][i]])
  {
    var succ := g[node][i];
    var low := s1.lowlink[succ];
    if low < s.lowlink[node] {
      assert s0.index < s.index;
      var y: nat :| y in s.stack && Visited(s, y) && Num(s, y) == low && Reaches(g, succ, y);
      StackBelow(g, s0, s, node, y);
      CallEdge(g, node, succ);
      CallTrans(g, node, succ, y);
    }
  }

  lemma TreeBounds(g: Graph, s0: State, s: State, s1: State, node: nat, i: nat, k: nat)
    requires LoopLow(g, s0, s, node, i) && i < |g[node]| && VisitLow(g, s, s1, g[node][i])
    requires StackOk(g, s0) && StackOk(g, s) && |s0.stack| < k < |s1.stack|
    ensures Visited(s1, node) && LowBounds(g, s0, s1.stack[k], Lowered(s1, node, s1.lowlink[g[node][i]]).lowlink[node])
  {
    TreeExtends(g, s0, s, s1, node, i);
    PrefixMembers(s0.stack, s.stack);
    if k < |s.stack| {
      assert LowBounds(g, s0, s.stack[k], s.lowlink[node]);
      assert s1.stack[k] == s.stack[k];
    } else {
      assert LowBounds(g, s, s1.stack[k], s1.lowlink[g[node][i]]);
    }
  }

  /** The successor was visited recursively. */
  lemma TreeSuccessor(g: Graph, s0: State, s: State, s1: State, node: nat, i: nat, grays: set<nat>)
    requires VisitLoop(g, s0, s, node, i, grays) && i < |g[node]|
    requires !Visited(s, g[node][i]) && VisitOk(g, s, s1, g[node][i], grays + {node})
    ensures VisitLoop(g, s0, Lowered(s1, node, s1.lowlink[g[node][i]]), node, i + 1, grays)
  {
    LoweredKeepsInv(g, s1, node, s1.lowlink[g[node][i]], grays + {node});
    TreeLow(g, s0, s, s1, node, i);
  }

  // ---------------------------------------------------------------------------------------------
  // Closing a visit

  /** An older active node that `node` reaches, and with it everything anchored at `node`. */
  lemma OlderAnchor(g: Graph, s0: State, s: State, node: nat, grays: set<nat>) returns (z: nat)
    requires InRange(g) && node < |g| && VisitLoop(g, s0, s, node, |g[node]|, grays) && s.lowlink[node] < s0.index
    ensures z in grays && Anchor(g, s, node, z)
  {
    var y: nat :| y in s0.stack && Visited(s0, y) && Num(s0, y) == s.lowlink[node] && Reaches(g, node, y);
    PrefixMembers(s0.stack, s.stack);
    z := AnchorOf(g, s, grays + {node}, y);
    CallTrans(g, node, y, z);
  }

  lemma StillAnchored(g: Graph, s0: State, s: State, node: nat, grays: set<nat>, x: nat)
    requires InRange(g) && node < |g| && VisitLoop(g, s0, s, node, |g[node]|, grays) && s.lowlink[node] < s0.index
    requires x in s.stack && x !in grays
    ensures Anchored(g, s, grays, x)
  {
    var a := AnchorOf(g, s, grays + {node}, x);
    if a == node {
      var z := OlderAnchor(g, s0, s, node, grays);
      CallTrans(g, x, node, z);
      assert Anchor(g, s, x, z);
    }
  }

  /** The node reached something older: it stays on the stack, no longer active. */
  lemma CloseOpen(g: Graph, s0: State, s: State, node: nat, grays: set<nat>)
    requires InRange(g) && node < |g| && VisitLoop(g, s0, s, node, |g[node]|, grays) && s.lowlink[node] < s0.index
    ensures VisitOk(g, s0, s, node, grays)
  {
    forall x: nat | x in s.stack && x !in grays
      ensures Anchored(g, s, grays, x)
    {
      StillAnchored(g, s0, s, node, grays, x);
    }
    AllSuccessorsVisited(g, s0, s, node, grays);
    TopBounds(g, s0, s, node, grays);
  }

  lemma AllSuccessorsVisited(g: Graph, s0: State, s: State, node: nat, grays: set<nat>)
    requires node < |g| && VisitLoop(g, s0, s, node, |g[node]|, grays)
    ensures forall w: nat | w in g[node] :: Visited(s, w)
    ensures LowBounds(g, s0, node, s.lowlink[node])
    ensures forall v: nat, w: nat | Visited(s, v) && v !in grays && w in g[v] :: Visited(s, w)
  {
  }

  lemma TopBounds(g: Graph, s0: State, s: State, node: nat, grays: set<nat>)
    requires node < |g| && VisitLoop(g, s0, s, node, |g[node]|, grays)
    ensures forall k | |s0.stack| <= k < |s.stack| :: LowBounds(g, s0, s.stack[k], s.lowlink[node])
  {
    AllSuccessorsVisited(g, s0, s, node, grays);
    assert s.stack[|s0.stack|] == node;
  }

  ghost function Top(s0: State, s: State): seq<nat>
    requires |s0.stack| <= |s.stack|
  {
    s.stack[|s0.stack|..]
  }

  /** An edge out of the top of the stack stays there or goes to a finished node. */
  lemma TopEdge(g: Graph, s0: State, s: State, node: nat, grays: set<nat>, u: nat, w: nat)
    requires InRange(g) && node < |g| && VisitLoop(g, s0, s, node, |g[node]|, grays) && s.lowlink[node] == s0.index
    requires u in Top(s0, s) && w in g[u]
    ensures w in Top(s0, s) || Finished(s, w)
  {
    TopEdgeBound(g, s0, s, node, grays, u, w);
    assert s.stack == s0.stack + Top(s0, s);
  }

  lemma TopEdgeBound(g: Graph, s0: State, s: State, node: nat, grays: set<nat>, u: nat, w: nat)
    requires InRange(g) && node < |g| && VisitLoop(g, s0, s, node, |g[node]|, grays) && s.lowlink[node] == s0.index
    requires u in Top(s0, s) && w in g[u]
    ensures Visited(s, w) && w !in s0.stack
  {
    TopBounds(g, s0, s, node, grays);
    AllSuccessorsVisited(g, s0, s, node, grays);
    var k :| 0 <= k < |Top(s0, s)| && Top(s0, s)[k] == u;
    assert LowBounds(g, s0, s.stack[|s0.stack| + k], s0.index);
    TopNotBelow(g, s0, s, node, grays, u);
  }

  lemma TopNotBelow(g: Graph, s0: State, s: State, node: nat, grays: set<nat>, u: nat)
    requires node < |g| && VisitLoop(g, s0, s, node, |g[node]|, grays)
    requires u in Top(s0, s)
    ensures Visited(s, u) && s0.index <= Num(s, u) && u !in s0.stack && u !in grays && u in s.stack && u < |g|
  {
    var k :| 0 <= k < |Top(s0, s)| && Top(s0, s)[k] == u;
    assert s.stack[|s0.stack| + k] == u;
    assert s.stack[|s0.stack|] == node;
    forall j | 0 <= j < |s0.stack|
      ensures s0.stack[j] != u
    {
      assert s.stack[j] == s0.stack[j];
    }
  }

  /** Every node on top of the stack reaches the node that closes the component. */
  lemma TopReachesNode(g: Graph, s0: State, s: State, node: nat, grays: set<nat>, x: nat)
    requires InRange(g) && node < |g| && VisitLoop(g, s0, s, node, |g[node]|, grays) && s.lowlink[node] == s0.index
    requires x in Top(s0, s)
    ensures Reaches(g, x, node)
  {
    TopNotBelow(g, s0, s, node, grays, x);
    var y := AnchorOf(g, s, grays + {node}, x);
    if y != node {
      assert y in s0.stack && y !in Top(s0, s) by {
        if y in Top(s0, s) { TopNotBelow(g, s0, s, node, grays, y); }
      }
      var inside := (v: nat) => v in Top(s0, s);
      var u, w := Crossing(Calls(g), inside, x, y);
      TopEdge(g, s0, s, node, grays, u, w);
      FinishedIsClosed(g, s, grays + {node}, w, y);
    }
  }

  lemma FinishedIsClosed(g: Graph, s: State, grays: set<nat>, v: nat, w: nat)
    requires InRange(g) && Inv(g, s, grays) && Finished(s, v) && Reaches(g, v, w)
    ensures Finished(s, w) && s.sccOf[w] <= s.sccOf[v]
  {
    ClosedUnderReach(Calls(g), (x: nat) => Finished(s, x) && s.sccOf[x] <= s.sccOf[v], v, w);
  }

  /** `t` is `s` with the stack above `base` popped into the component `comp`. */
  ghost predicate Popped(base: nat, s: State, t: State, comp: seq<nat>) {
    && base <= |s.stack| && |t.onStack| == |s.onStack| && |t.sccOf| == |s.sccOf|
    && t.indices == s.indices && t.index == s.index && t.lowlink == s.lowlink
    && t.stack == s.stack[..base]
    && t.members == s.members + [comp]
    && (forall v: nat | 0 <= v < |t.onStack| :: t.onStack[v] == (s.onStack[v] && v !in s.stack[base..]))
    && (forall v: nat | 0 <= v < |t.sccOf| :: t.sccOf[v] == if v in s.stack[base..] then |s.members| else s.sccOf[v])
    && comp != [] && StrictlyAscending(comp) && forall v: nat :: v in comp <==> v in s.stack[base..]
  }

  lemma StackDistinct(g: Graph, s0: State, s: State, node: nat, grays: set<nat>)
    requires node < |g| && VisitLoop(g, s0, s, node, |g[node]|, grays)
    ensures NoDuplicates(s.stack) && s.stack[..|s0.stack|] == s0.stack && s.stack[|s0.stack|] == node
    ensures forall v: nat | v in s.stack :: v < |g|
  {
  }

  lemma CutDistinct(stack: seq<nat>, base: nat)
    requires base <= |stack| && NoDuplicates(stack)
    ensures forall v: nat :: v in stack[..base] <==> v in stack && v !in stack[base..]
    ensures forall v: nat | v in stack[base..] :: v in stack
  {
    assert stack == stack[..base] + stack[base..];
    forall i, k | 0 <= i < base && 0 <= k < |stack| - base
      ensures stack[..base][i] != stack[base..][k]
    {
      assert stack[..base][i] == stack[i] && stack[base..][k] == stack[base + k];
    }
  }

  lemma PopStack(g: Graph, base: nat, s: State, t: State, comp: seq<nat>)
    requires StackOk(g, s) && Popped(base, s, t, comp)
    ensures forall v: nat :: v in t.stack <==> v in s.stack && v !in s.stack[base..]
    ensures forall v: nat | v in s.stack[base..] :: v in s.stack
    ensures StackOk(g, t)
  {
    CutDistinct(s.stack, base);
    assert forall v: nat :: Visited(t, v) <==> Visited(s, v);
  }

  lemma PopFinished(g: Graph, base: nat, s: State, t: State, comp: seq<nat>)
    requires StackOk(g, s) && Popped(base, s, t, comp)
    ensures forall v: nat :: Finished(t, v) <==> Finished(s, v) || v in s.stack[base..]
    ensures forall v: nat | v in s.stack[base..] :: !Finished(s, v)
  {
    PopStack(g, base, s, t, comp);
  }

  lemma PopEdge(g: Graph, s0: State, s: State, t: State, comp: seq<nat>, node: nat, grays: set<nat>, v: nat, w: nat)
    requires InRange(g) && node < |g| && VisitLoop(g, s0, s, node, |g[node]|, grays) && s.lowlink[node] == s0.index
    requires Popped(|s0.stack|, s, t, comp)
    requires Finished(t, v) && w in g[v]
    ensures Finished(t, w) && t.sccOf[w] <= t.sccOf[v]
  {
    PopFinished(g, |s0.stack|, s, t, comp);
    if v in Top(s0, s) {
      TopEdge(g, s0, s, node, grays, v, w);
    }
  }

  /** The nodes popped reach each other through `node`. */
  lemma PopReaches(g: Graph, s0: State, s: State, node: nat, grays: set<nat>, x: nat, y: nat)
    requires InRange(g) && node < |g| && VisitLoop(g, s0, s, node, |g[node]|, grays) && s.lowlink[node] == s0.index
    requires x in Top(s0, s) && y in Top(s0, s)
    ensures Reaches(g, x, y)
  {
    TopReachesNode(g, s0, s, node, grays, x);
    TopNotBelow(g, s0, s, node, grays, y);
    assert node in s.stack;
    CallTrans(g, x, node, y);
  }

  lemma PopKeepsEmitted(g: Graph, s0: State, s: State, t: State, comp: seq<nat>, node: nat, grays: set<nat>)
    requires InRange(g) && node < |g| && VisitLoop(g, s0, s, node, |g[node]|, grays) && s.lowlink[node] == s0.index
    requires Popped(|s0.stack|, s, t, comp)
    ensures EmittedOk(g, t)
  {
    PopFinished(g, |s0.stack|, s, t, comp);
    forall v: nat, w: nat | Finished(t, v) && w in g[v]
      ensures Finished(t, w) && t.sccOf[w] <= t.sccOf[v]
    {
      PopEdge(g, s0, s, t, comp, node, grays, v, w);
    }
    forall x: nat, y: nat | Finished(t, x) && Finished(t, y) && t.sccOf[x] == t.sccOf[y]
      ensures Reaches(g, x, y)
    {
      if x in Top(s0, s) {
        assert y in Top(s0, s);
        PopReaches(g, s0, s, node, grays, x, y);
      }
    }
  }

  lemma PopAnchors(g: Graph, s0: State, s: State, t: State, node: nat, grays: set<nat>, x: nat)
    requires node < |g| && VisitLoop(g, s0, s, node, |g[node]|, grays)
    requires t.indices == s.indices && x in s0.stack && x !in grays
    ensures Anchored(g, t, grays, x)
  {
    PrefixMembers(s0.stack, s.stack);
    var a := AnchorOf(g, s, grays + {node}, x);
    assert a in grays && Anchor(g, t, x, a);
  }

  lemma PopActiveReach(g: Graph, s0: State, s: State, t: State, node: nat, grays: set<nat>, x: nat, y: nat)
    requires node < |g| && VisitLoop(g, s0, s, node, |g[node]|, grays)
    requires t.indices == s.indices && x in s0.stack && y in grays
    requires Visited(t, x) && Visited(t, y) && Num(t, y) <= Num(t, x)
    ensures Reaches(g, y, x)
  {
    PrefixMembers(s0.stack, s.stack);
    assert Visited(s, x) && Visited(s, y);
  }

  lemma PopKeepsActive(g: Graph, s0: State, s: State, t: State, node: nat, grays: set<nat>)
    requires node < |g| && VisitLoop(g, s0, s, node, |g[node]|, grays)
    requires Sized(g, t) && t.indices == s.indices && t.stack == s0.stack
    ensures ActiveOk(g, t, grays)
  {
    forall x: nat | x in t.stack && x !in grays
      ensures Anchored(g, t, grays, x)
    {
      PopAnchors(g, s0, s, t, node, grays, x);
    }
    forall x: nat, y: nat {:trigger Reaches(g, y, x)} |
      y in grays && x in t.stack && Visited(t, x) && Visited(t, y) && Num(t, y) <= Num(t, x)
      ensures Reaches(g, y, x)
    {
      PopActiveReach(g, s0, s, t, node, grays, x, y);
    }
    forall v: nat, w: nat | Visited(t, v) && v !in grays && w in g[v]
      ensures Visited(t, w)
    {
      AllSuccessorsVisited(g, s0, s, node, grays);
      assert Visited(s, v) && Visited(s, w);
    }
  }

  /** The node is the oldest it reaches: the top of the stack is a whole component. */
  lemma CloseComponent(g: Graph, s0: State, s: State, t: State, comp: seq<nat>, node: nat, grays: set<nat>)
    requires InRange(g) && node < |g| && VisitLoop(g, s0, s, node, |g[node]|, grays) && s.lowlink[node] == s0.index
    requires Popped(|s0.stack|, s, t, comp)
    ensures VisitOk(g, s0, t, node, grays)
  {
    PopStack(g, |s0.stack|, s, t, comp);
    StackDistinct(g, s0, s, node, grays);
    PopKeepsEmitted(g, s0, s, t, comp, node, grays);
    PopKeepsActive(g, s0, s, t, node, grays);
    PopLow(g, s0, s, t, node);
  }

  lemma PopLow(g: Graph, s0: State, s: State, t: State, node: nat)
    requires node < |g| && LoopLow(g, s0, s, node, |g[node]|) && s.lowlink[node] == s0.index
    requires t.indices == s.indices && t.index == s.index && t.lowlink == s.lowlink && t.stack == s0.stack
    ensures VisitLow(g, s0, t, node)
  {
    assert forall v: nat :: Visited(t, v) <==> Visited(s, v);
  }

  lemma NothingActive(g: Graph, s: State, x: nat)
    requires Inv(g, s, {})
    ensures x !in s.stack
  {
    assert !Anchored(g, s, {}, x);
  }

  /** When no visit runs and every node is visited, the tables are a condensation. */
  lemma AllVisited(g: Graph, s: State)
    requires InRange(g) && Inv(g, s, {}) && forall v: nat | 0 <= v < |g| :: Visited(s, v)
    ensures IsCondensation(g, s.members, s.sccOf)
  {
    forall v: nat | 0 <= v < |g|
      ensures Finished(s, v)
    {
      NothingActive(g, s, v);
    }
    forall u: nat, w: nat | 0 <= u < |g| && 0 <= w < |g|
      ensures s.sccOf[u] == s.sccOf[w] <==> Reaches(g, u, w) && Reaches(g, w, u)
    {
      assert Finished(s, u) && Finished(s, w);
      if Reaches(g, u, w) && Reaches(g, w, u) {
        FinishedIsClosed(g, s, {}, u, w);
        FinishedIsClosed(g, s, {}, w, u);
      }
    }
    forall u: nat, w: nat | u < |g| && w in g[u] && w < |g|
      ensures s.sccOf[w] <= s.sccOf[u]
    {
      assert Finished(s, u);
    }
    forall k, x: nat | 0 <= k < |s.members|
      ensures x in s.members[k] <==> x < |s.sccOf| && s.sccOf[x] == k
    {
      if x in s.members[k] || x < |s.sccOf| {
        assert Finished(s, x);
      }
    }
  }

  // ---------------------------------------------------------------------------------------------
  // The visitor

  class Visitor {
    const edges: Graph
    var index: nat
    var indices: seq<Option<nat>>
    var lowlink: seq<nat>
    var stack: seq<nat>
    var onStack: seq<bool>
    var members: seq<seq<nat>>
    var sccOf: seq<nat>

    ghost function Now(): State
      reads this
    {
      State(indices, index, lowlink, stack, onStack, members, sccOf)
    }

    ghost function Unvisited(): set<nat>
      reads this
    {
      set v: nat | v < |indices| && indices[v].None?
    }

    constructor (edges: Graph)
      ensures this.edges == edges && Inv(edges, Now(), {}) && forall v: nat :: !Visited(Now(), v)
    {
      this.edges := edges;
      index := 0;
      indices := seq(|edges|, _ => None);
      lowlink := seq(|edges|, _ => 0);
      stack := [];
      onStack := seq(|edges|, _ => false);
      members := [];
      sccOf := seq(|edges|, _ => 0);
    }

    method Visit(node: nat, ghost grays: set<nat>)
      requires InRange(edges) && Inv(edges, Now(), grays)
      requires node < |edges| && !Visited(Now(), node)
      requires GraysReach(edges, grays, node)
      modifies this
      ensures VisitOk(edges, old(Now()), Now(), node, grays)
      decreases Unvisited(), 0, 0
    {
      ghost var s0 := Now();
      OpenVisit(edges, s0, node, grays);
      indices := indices[node := Some(index)];
      lowlink := lowlink[node := index];
      index := index + 1;
      stack := stack + [node];
      onStack := onStack[node := true];
      assert Now() == Opened(s0, node);
      assert node in old(Unvisited()) && node !in Unvisited();
      VisitSuccessors(s0, node, grays);
      ghost var s := Now();
      if lowlink[node] == indices[node].value {
        StackDistinct(edges, s0, s, node, grays);
        PopComponent(|s0.stack|, node);
        CloseComponent(edges, s0, s, Now(), members[|members| - 1], node, grays);
      } else {
        CloseOpen(edges, s0, s, node, grays);
      }
    }

    /** The successor loop of `Visit`. */
    method VisitSuccessors(ghost s0: State, node: nat, ghost grays: set<nat>)
      requires node < |edges| && Running(edges, s0, Now(), node, 0, grays)
      modifies this
      ensures Running(edges, s0, Now(), node, |edges[node]|, grays)
      decreases Unvisited(), 2
    {
      hide Running;
      ghost var atStart := Unvisited();
      for i := 0 to |edges[node]|
        invariant Running(edges, s0, Now(), node, i, grays)
        invariant Unvisited() <= atStart
      {
        VisitSuccessor(s0, node, i, grays);
      }
    }

    /** `lowlink[node] = lowlink[node].min(low)`. */
    method Lower(node: nat, low: nat)
      requires node < |lowlink|
      modifies this`lowlink
      ensures Now() == Lowered(old(Now()), node, low)
    {
      lowlink := lowlink[node := if low < lowlink[node] then low else lowlink[node]];
    }

    /** One turn of that loop. */
    method VisitSuccessor(ghost s0: State, node: nat, i: nat, ghost grays: set<nat>)
      requires node < |edges| && i < |edges[node]| && Running(edges, s0, Now(), node, i, grays)
      modifies this
      ensures Running(edges, s0, Now(), node, i + 1, grays)
      ensures Unvisited() <= old(Unvisited())
      decreases Unvisited(), 1
    {
      var succ := edges[node][i];
      ghost var s := Now();
      assert succ in edges[node];
      if indices[succ].None? {
        VisitUnseen(s0, node, i, grays);
      } else {
        SeenSuccessor(edges, s0, s, node, i, grays);
        if onStack[succ] {
          Lower(node, indices[succ].value);
        }
      }
    }

    /** A turn whose successor is visited for the first time. */
    method VisitUnseen(ghost s0: State, node: nat, i: nat, ghost grays: set<nat>)
      requires InRange(edges) && VisitLoop(edges, s0, Now(), node, i, grays) && i < |edges[node]|
      requires !Visited(Now(), edges[node][i])
      requires GraysReach(edges, grays, node)
      modifies this
      ensures VisitLoop(edges, s0, Now(), node, i + 1, grays)
      ensures Unvisited() <= old(Unvisited())
      decreases Unvisited(), 0, 1
    {
      var succ := edges[node][i];
      ghost var s := Now();
      ActiveReach(edges, node, succ, grays);
      Visit(succ, grays + {node});
      ghost var s1 := Now();
      assert forall v: nat | Visited(s, v) :: Visited(s1, v);
      TreeSuccessor(edges, s0, s, s1, node, i, grays);
      Lower(node, lowlink[succ]);
    }

    /** The pop loop of `Visit`: everything above `node`, and `node`, becomes one sorted component. */
    method PopComponent(ghost base: nat, node: nat)
      requires base < |stack| && stack[base] == node && NoDuplicates(stack)
      requires forall v: nat | v in stack :: v < |onStack| && v < |sccOf|
      modifies this
      ensures members != [] && Popped(base, old(Now()), Now(), members[|members| - 1])
    {
      ghost var s := Now();
      var component: seq<nat> := [];
      var closed := false;
      while !closed
        invariant base <= |stack| <= |s.stack| && stack == s.stack[..|stack|]
        invariant closed <==> |stack| == base
        invariant indices == s.indices && index == s.index && lowlink == s.lowlink && members == s.members
        invariant |onStack| == |s.onStack| && |sccOf| == |s.sccOf|
        invariant PoppedReverse(component, s.stack, |stack|)
        invariant forall v: nat | 0 <= v < |onStack| :: onStack[v] == (s.onStack[v] && v !in s.stack[|stack|..])
        invariant forall v: nat | 0 <= v < |sccOf| ::
                    sccOf[v] == if v in s.stack[|stack|..] then |s.members| else s.sccOf[v]
        decreases |stack|
      {
        var last := |stack| - 1;
        var top := stack[last];
        assert top == s.stack[last] && top in s.stack;
        assert s.stack[last..] == [top] + s.stack[last + 1..];
        assert top == node <==> last == base;
        stack := stack[..last];
        onStack := onStack[top := false];
        sccOf := sccOf[top := |members|];
        component := component + [top];
        closed := top == node;
      }
      ReversedSet(component, s.stack, base);
      SortStrictlyAscending(component);
      members := members + [Sort(component)];
    }
  }

  /** `component` holds what was popped off `stack` down to height `height`, latest first. */
  ghost predicate PoppedReverse(component: seq<nat>, stack: seq<nat>, height: nat) {
    && height <= |stack|
    && |component| == |stack| - height
    && forall i | 0 <= i < |component| :: component[i] == stack[|stack| - 1 - i]
  }

  lemma ReversedSet(component: seq<nat>, stack: seq<nat>, height: nat)
    requires PoppedReverse(component, stack, height) && NoDuplicates(stack)
    ensures NoDuplicates(component)
    ensures forall v: nat :: v in component <==> v in stack[height..]
  {
    var top := stack[height..];
    forall k | 0 <= k < |top|
      ensures top[k] == component[|top| - 1 - k]
    {
    }
    forall v: nat
      ensures v in component <==> v in top
    {
      if v in component {
        var i :| 0 <= i < |component| && component[i] == v;
        assert top[|top| - 1 - i] == v;
      }
    }
  }

  lemma ActiveReach(g: Graph, node: nat, succ: nat, grays: set<nat>)
    requires node < |g| && succ in g[node] && forall y: nat | y in grays :: Reaches(g, y, node)
    ensures forall y: nat | y in grays + {node} :: Reaches(g, y, succ)
  {
    CallEdge(g, node, succ);
    forall y: nat | y in grays
      ensures Reaches(g, y, succ)
    {
      CallTrans(g, y, node, succ);
    }
  }

  ghost predicate VisitedBelow(s: State, n: nat) {
    (forall v: nat | v < n :: Visited(s, v)) == true
  }

  lemma VisitedNext(g: Graph, s0: State, s1: State, node: nat)
    requires VisitedBelow(s0, node)
    requires (s1 == s0 && Visited(s0, node)) || VisitOk(g, s0, s1, node, {})
    ensures VisitedBelow(s1, node + 1)
  {
    forall v: nat | v < node + 1
      ensures Visited(s1, v)
    {
      if v < node {
        assert Visited(s0, v);
      }
    }
  }

  method StronglyConnectedComponents(edges: Graph) returns (members: seq<seq<nat>>, sccOf: seq<nat>)
    requires InRange(edges)
    ensures IsCondensation(edges, members, sccOf)
  {
    var tarjan := new Visitor(edges);
    for node := 0 to |edges|
      invariant tarjan.edges == edges && Inv(edges, tarjan.Now(), {}) && VisitedBelow(tarjan.Now(), node)
    {
      ghost var before := tarjan.Now();
      if tarjan.indices[node].None? {
        tarjan.Visit(node, {});
      }
      VisitedNext(edges, before, tarjan.Now(), node);
    }
    AllVisited(edges, tarjan.Now());
    members, sccOf := tarjan.members, tarjan.sccOf;
  }
}
