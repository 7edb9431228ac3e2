/**
 Breadth-first search over call steps with parent pointers, as both mutex path queries run it.
 */
module Search {
  import opened Sorting

  datatype Step = Step(callee: nat, callsite: Option<nat>)
  datatype Hop = Hop(caller: nat, step: Step)

  ghost predicate StepsInRange(outgoing: seq<seq<Step>>) {
    forall u, step | 0 <= u < |outgoing| && step in outgoing[u] :: step.callee < |outgoing|
  }

  ghost predicate HasStep(outgoing: seq<seq<Step>>, u: nat, step: Step) {
    u < |outgoing| && step in outgoing[u]
  }

  /** Consecutive calls starting at `source`. */
  ghost predicate CallPath(outgoing: seq<seq<Step>>, path: seq<Hop>, source: nat) {
    && (forall i | 0 <= i < |path| :: HasStep(outgoing, path[i].caller, path[i].step))
    && (path != [] ==> path[0].caller == source)
    && (forall i, j | 0 <= i && j == i + 1 < |path| :: path[j].caller == path[i].step.callee)
  }

  /** Where a path that starts at `source` ends. */
  function EndOf(path: seq<Hop>, source: nat): nat {
    if path == [] then source else path[|path| - 1].step.callee
  }

  lemma PathFront(outgoing: seq<seq<Step>>, path: seq<Hop>, source: nat)
    requires CallPath(outgoing, path, source) && path != []
    ensures var last := path[|path| - 1];
            CallPath(outgoing, path[..|path| - 1], source)
            && EndOf(path[..|path| - 1], source) == last.caller && HasStep(outgoing, last.caller, last.step)
  {
    if |path| > 1 {
      var i, j := |path| - 2, |path| - 1;
      assert path[j].caller == path[i].step.callee;
    }
  }

  lemma PathCons(outgoing: seq<seq<Step>>, hop: Hop, path: seq<Hop>)
    requires HasStep(outgoing, hop.caller, hop.step) && CallPath(outgoing, path, hop.step.callee)
    ensures CallPath(outgoing, [hop] + path, hop.caller)
    ensures EndOf([hop] + path, hop.caller) == EndOf(path, hop.step.callee)
  {
  }

  // ---------------------------------------------------------------------------------------------
  // The invariant, on values

  /** `x` was discovered from a node one call closer. */
  ghost predicate ParentOk(outgoing: seq<seq<Step>>, parent: seq<Option<Hop>>, dist: map<nat, nat>, x: nat) {
    && x in dist && x < |parent| && parent[x].Some?
    && HasStep(outgoing, parent[x].value.caller, parent[x].value.step) && parent[x].value.step.callee == x
    && parent[x].value.caller in dist && dist[x] == dist[parent[x].value.caller] + 1
  }

  ghost predicate Shape(
    outgoing: seq<seq<Step>>, source: nat, seen: seq<bool>, parent: seq<Option<Hop>>, dist: map<nat, nat>)
  {
    && StepsInRange(outgoing) && |seen| == |parent| == |outgoing| && source < |outgoing|
    && (forall x: nat :: x in dist <==> x < |seen| && seen[x])
    && source in dist && dist[source] == 0
    && (forall x {:trigger ParentOk(outgoing, parent, dist, x)} | x in dist && x != source ::
          ParentOk(outgoing, parent, dist, x))
  }

  /** Waiting nodes come in order of distance, spread over two levels. */
  ghost predicate Waiting(queue: seq<nat>, dist: map<nat, nat>, level: nat) {
    && (forall i | 0 <= i < |queue| :: queue[i] in dist && level <= dist[queue[i]] <= level + 1)
    && (forall i, j | 0 <= i < j < |queue| :: queue[i] in dist && queue[j] in dist && dist[queue[i]] <= dist[queue[j]])
  }

  /** Every seen node is scanned, under scan, or waiting. */
  ghost predicate Sorted(queue: seq<nat>, dist: map<nat, nat>, done: set<nat>, active: set<nat>, level: nat) {
    && Waiting(queue, dist, level) && NoDuplicates(queue)
    && (forall x | x in dist :: x in done || x in active || x in queue)
    && (forall x | x in queue :: x !in done && x !in active)
    && (forall x | x in done :: x in dist && dist[x] <= level)
    && (forall x | x in active :: x in dist && dist[x] == level)
  }

  ghost predicate Scanned(dist: map<nat, nat>, u: nat, step: Step) {
    u in dist && step.callee in dist && dist[step.callee] <= dist[u] + 1
  }

  ghost predicate AllScanned(outgoing: seq<seq<Step>>, dist: map<nat, nat>, nodes: set<nat>) {
    forall u, step | u in nodes && HasStep(outgoing, u, step) :: Scanned(dist, u, step)
  }

  lemma TakeKeepsSorted(queue: seq<nat>, dist: map<nat, nat>, done: set<nat>, active: set<nat>, level: nat)
    requires Sorted(queue, dist, done, active, level) && queue != []
    ensures Sorted(queue[1..], dist, done + active, {queue[0]}, dist[queue[0]])
  {
    var rest, next := queue[1..], dist[queue[0]];
    assert queue == [queue[0]] + rest;
    forall i | 0 <= i < |rest|
      ensures next <= dist[rest[i]] <= next + 1
    {
      assert rest[i] == queue[i + 1] && dist[queue[0]] <= dist[queue[i + 1]];
    }
    forall i, j | 0 <= i < j < |rest|
      ensures rest[i] != rest[j] && dist[rest[i]] <= dist[rest[j]]
    {
      assert queue[i + 1] != queue[j + 1] && dist[queue[i + 1]] <= dist[queue[j + 1]];
    }
    forall x | x in rest
      ensures x !in done + active && x != queue[0]
    {
      var i :| 0 <= i < |rest| && rest[i] == x;
      assert queue[0] != queue[i + 1] && x in queue;
    }
  }

  lemma DiscoverKeepsSorted(
      queue: seq<nat>, dist: map<nat, nat>, done: set<nat>, active: set<nat>, level: nat, callee: nat)
    requires Sorted(queue, dist, done, active, level) && callee !in dist
    ensures Sorted(queue + [callee], dist[callee := level + 1], done, active, level)
  {
    var q, d := queue + [callee], dist[callee := level + 1];
    assert callee !in queue;
    forall i, j | 0 <= i < j < |q|
      ensures q[i] != q[j] && q[i] in d && q[j] in d && d[q[i]] <= d[q[j]]
    {
      assert q[i] == queue[i] && queue[i] in dist;
      if j < |queue| {
        assert q[j] == queue[j];
      }
    }
  }

  lemma DiscoverKeepsShape(
      outgoing: seq<seq<Step>>, source: nat, seen: seq<bool>, parent: seq<Option<Hop>>, dist: map<nat, nat>,
      hop: Hop, level: nat)
    requires Shape(outgoing, source, seen, parent, dist) && HasStep(outgoing, hop.caller, hop.step)
    requires hop.caller in dist && dist[hop.caller] == level && hop.step.callee !in dist
    requires hop.step.callee < |seen|
    ensures Shape(outgoing, source, seen[hop.step.callee := true], parent[hop.step.callee := Some(hop)],
                  dist[hop.step.callee := level + 1])
  {
    var callee := hop.step.callee;
    var p, d := parent[callee := Some(hop)], dist[callee := level + 1];
    forall x {:trigger ParentOk(outgoing, p, d, x)} | x in d && x != source
      ensures ParentOk(outgoing, p, d, x)
    {
      if x != callee {
        assert ParentOk(outgoing, parent, dist, x);
      }
    }
  }

  /** Nodes at most `level` calls away are seen at no greater distance. */
  lemma {:induction false} NearIsSeen(
      outgoing: seq<seq<Step>>, source: nat, queue: seq<nat>, dist: map<nat, nat>, done: set<nat>, active: set<nat>,
      level: nat, path: seq<Hop>)
    requires source in dist && dist[source] == 0
    requires Sorted(queue, dist, done, active, level) && AllScanned(outgoing, dist, done)
    requires CallPath(outgoing, path, source) && (|path| <= level || (queue == [] && active == {}))
    ensures EndOf(path, source) in dist && dist[EndOf(path, source)] <= |path|
    ensures path != [] ==> path[|path| - 1].caller in done
    decreases |path|
  {
    if path != [] {
      var last := path[|path| - 1];
      PathFront(outgoing, path, source);
      NearIsSeen(outgoing, source, queue, dist, done, active, level, path[..|path| - 1]);
      assert last.caller in done;
      assert Scanned(dist, last.caller, last.step);
    }
  }

  // ---------------------------------------------------------------------------------------------
  // The search

  class Bfs {
    const outgoing: seq<seq<Step>>
    const source: nat
    var seen: seq<bool>
    var parent: seq<Option<Hop>>
    var queue: seq<nat>
    /** Distances of the nodes seen so far; nodes wholly scanned; the node under scan; its distance. */
    ghost var dist: map<nat, nat>
    ghost var done: set<nat>
    ghost var active: set<nat>
    ghost var level: nat

    ghost predicate Valid()
      reads this
    {
      && Shape(outgoing, source, seen, parent, dist)
      && Sorted(queue, dist, done, active, level)
      && AllScanned(outgoing, dist, done)
    }

    ghost function Unscanned(): set<nat>
      reads this
    {
      Below(|outgoing|) - done - active
    }

    constructor (outgoing: seq<seq<Step>>, source: nat)
      requires StepsInRange(outgoing) && source < |outgoing|
      ensures this.outgoing == outgoing && this.source == source
      ensures Valid() && done == {} && active == {} && queue == [source]
    {
      this.outgoing, this.source := outgoing, source;
      seen := seq(|outgoing|, _ => false)[source := true];
      parent := seq(|outgoing|, _ => None);
      queue := [source];
      dist, done, active, level := map[source := 0], {}, {}, 0;
    }

    /** Pops the front of the queue; the node scanned before is now wholly scanned. */
    method TakeNext() returns (caller: nat)
      requires Valid() && queue != [] && AllScanned(outgoing, dist, active)
      modifies this`queue, this`done, this`active, this`level
      ensures Valid() && caller < |outgoing| && caller in dist
      ensures done == old(done) + old(active) && active == {caller} && dist[caller] == level
      ensures Unscanned() < old(Unscanned())
    {
      TakeKeepsSorted(queue, dist, done, active, level);
      caller := queue[0];
      assert caller in queue && caller in dist;
      queue := queue[1..];
      done := done + active;
      active := {caller};
      level := dist[caller];
      assert caller in old(Unscanned()) && caller !in Unscanned();
    }

    /** Marks the callee of one step of the node under scan, unless it is already seen. */
    method Discover(caller: nat, step: Step)
      requires Valid() && active == {caller} && caller in dist && dist[caller] == level && HasStep(outgoing, caller, step)
      modifies this`seen, this`parent, this`queue, this`dist
      ensures Valid() && Scanned(dist, caller, step) && caller in dist && dist[caller] == level
      ensures forall u, s {:trigger Scanned(dist, u, s)} | Scanned(old(dist), u, s) :: Scanned(dist, u, s)
    {
      var callee := step.callee;
      if seen[callee] {
        assert dist[callee] <= level + 1;
      } else {
        DiscoverKeepsSorted(queue, dist, done, active, level, callee);
        DiscoverKeepsShape(outgoing, source, seen, parent, dist, Hop(caller, step), level);
        seen := seen[callee := true];
        parent := parent[callee := Some(Hop(caller, step))];
        queue := queue + [callee];
        dist := dist[callee := level + 1];
        assert forall u, s | Scanned(old(dist), u, s) :: Scanned(dist, u, s);
      }
    }

    /** Follows the parent pointers back from a seen node; distances make the loop end. */
    method PathTo(node: nat) returns (path: seq<Hop>)
      requires Valid() && node in dist
      ensures CallPath(outgoing, path, source) && EndOf(path, source) == node && |path| == dist[node]
    {
      path := [];
      var cursor := node;
      while cursor != source
        invariant cursor in dist
        invariant CallPath(outgoing, path, cursor) && EndOf(path, cursor) == node
        invariant |path| + dist[cursor] == dist[node]
        decreases dist[cursor]
      {
        assert ParentOk(outgoing, parent, dist, cursor);
        var hop := parent[cursor].value;
        PathCons(outgoing, hop, path);
        path := [hop] + path;
        cursor := hop.caller;
      }
    }
  }
}
