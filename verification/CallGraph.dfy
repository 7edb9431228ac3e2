/** The solved call graph, the input of every client pass. */
module CallGraph {
  import opened Paths
  import opened Sorting
  import Tarjan

  datatype Caller = FuncCaller(func: nat) | UnknownCaller(reason: string)
  datatype Callee = FuncCallee(func: nat) | UnknownCallee(reason: string)
  datatype CallKind = DirectCall | IndirectCall
  datatype Tier = Direct | Fsa | Steens | Andersen | B1Initval | B2Simple | Simple

  datatype CallEdge = CallEdge(caller: Caller, callee: Callee, callsite: Option<nat>, kind: CallKind, tier: Tier)

  ghost predicate EdgesInRange(edges: seq<CallEdge>, funcCount: nat) {
    forall e | e in edges ::
      && (e.caller.FuncCaller? ==> e.caller.func < funcCount)
      && (e.callee.FuncCallee? ==> e.callee.func < funcCount)
  }

  /** Some edge calls function `w` from function `u`. */
  ghost predicate CallsKnown(edges: seq<CallEdge>, u: nat, w: nat) {
    exists e :: e in edges && e.caller == FuncCaller(u) && e.callee == FuncCallee(w)
  }

  ghost function KnownCalls(edges: seq<CallEdge>): (nat, nat) -> bool {
    (u: nat, w: nat) => CallsKnown(edges, u, w)
  }

  /** `table[f]` lists the known callees of `f`, each once, in ascending order. */
  ghost predicate IsCalleeTable(table: seq<seq<nat>>, edges: seq<CallEdge>, funcCount: nat) {
    && |table| == funcCount
    && (forall u | 0 <= u < |table| :: StrictlyAscending(table[u]))
    && (forall u: nat, w: nat | u < |table| :: w in table[u] <==> CallsKnown(edges, u, w))
  }

  method CalleesByFunc(edges: seq<CallEdge>, funcCount: nat) returns (table: seq<seq<nat>>)
    requires EdgesInRange(edges, funcCount)
    ensures IsCalleeTable(table, edges, funcCount) && Tarjan.InRange(table)
  {
    table := seq(funcCount, _ => []);
    for i := 0 to |edges|
      invariant |table| == funcCount
      invariant forall u: nat, w: nat | u < |table| :: w in table[u] <==> CallsKnown(edges[..i], u, w)
    {
      var edge := edges[i];
      assert edges[..i + 1] == edges[..i] + [edge];
      assert edge in edges;
      if edge.caller.FuncCaller? && edge.callee.FuncCallee? {
        var u := edge.caller.func;
        table := table[u := table[u] + [edge.callee.func]];
      }
    }
    assert edges[..|edges|] == edges;
    for u := 0 to funcCount
      invariant |table| == funcCount
      invariant forall x | 0 <= x < u :: StrictlyAscending(table[x])
      invariant forall x: nat, w: nat | x < |table| :: w in table[x] <==> CallsKnown(edges, x, w)
    {
      SortDedupAscending(table[u]);
      table := table[u := SortDedup(table[u])];
    }
  }

  /** The table carries the same reachability as the edges. */
  lemma TableReach(table: seq<seq<nat>>, edges: seq<CallEdge>, funcCount: nat, u: nat, w: nat)
    requires IsCalleeTable(table, edges, funcCount) && EdgesInRange(edges, funcCount)
    ensures Reach(Tarjan.Calls(table), u, w) <==> Reach(KnownCalls(edges), u, w)
  {
    if Reach(Tarjan.Calls(table), u, w) {
      ReachWider(Tarjan.Calls(table), KnownCalls(edges), u, w);
    }
    if Reach(KnownCalls(edges), u, w) {
      ReachWider(KnownCalls(edges), Tarjan.Calls(table), u, w);
    }
  }
}
