/**
 Mutex eligibility: no accessor may call back into an accessor, or into something unresolved, while it
 holds the lock.
 */
module Mutex {
  import opened Sorting
  import opened CallGraph
  import opened Search

  datatype UnknownStep = UnknownStep(reason: string, callsite: Option<nat>)

  datatype Reachability = Reachability(outgoing: seq<seq<Step>>, unknownOutgoing: seq<seq<UnknownStep>>)

  ghost predicate ValidReach(r: Reachability) {
    StepsInRange(r.outgoing) && |r.unknownOutgoing| == |r.outgoing|
  }

  /** Function `f` makes a call whose target is unresolved. */
  predicate Unresolved(r: Reachability, f: nat) {
    f < |r.unknownOutgoing| && r.unknownOutgoing[f] != []
  }

  // ---------------------------------------------------------------------------------------------
  // Building the two tables

  ghost predicate KnownStep(edges: seq<CallEdge>, u: nat, step: Step) {
    exists e :: e in edges && e.caller == FuncCaller(u) && e.callee == FuncCallee(step.callee) && e.callsite == step.callsite
  }

  ghost predicate CallsUnknown(edges: seq<CallEdge>, u: nat, step: UnknownStep) {
    exists e :: e in edges && e.caller == FuncCaller(u) && e.callee == UnknownCallee(step.reason) && e.callsite == step.callsite
  }

  /** Drops later repetitions: what sorting and `dedup` remove from a list of steps. */
  function Unique<T(==,!new)>(s: seq<T>): (r: seq<T>)
    ensures forall x :: x in r <==> x in s
    ensures NoDuplicates(r)
  {
    if s == [] then []
    else
      assert s == s[..|s| - 1] + [s[|s| - 1]];
      var rest := Unique(s[..|s| - 1]);
      if s[|s| - 1] in rest then rest else rest + [s[|s| - 1]]
  }

  method NewReachability(edges: seq<CallEdge>, funcCount: nat) returns (r: Reachability)
    requires EdgesInRange(edges, funcCount)
    ensures ValidReach(r) && |r.outgoing| == funcCount
    ensures forall u: nat, step :: HasStep(r.outgoing, u, step) <==> KnownStep(edges, u, step)
    ensures forall u: nat :: Unresolved(r, u) <==> exists step :: CallsUnknown(edges, u, step)
  {
    var outgoing: seq<seq<Step>> := seq(funcCount, _ => []);
    var unknown: seq<seq<UnknownStep>> := seq(funcCount, _ => []);
    for i := 0 to |edges|
      invariant |outgoing| == |unknown| == funcCount
      invariant forall u: nat, step :: HasStep(outgoing, u, step) <==> KnownStep(edges[..i], u, step)
      invariant forall u: nat, step | u < funcCount :: step in unknown[u] <==> CallsUnknown(edges[..i], u, step)
    {
      var edge := edges[i];
      assert edges[..i + 1] == edges[..i] + [edge] && edge in edges;
      ghost var before := outgoing;
      assert forall u: nat, step :: KnownStep(edges[..i + 1], u, step) <==>
        KnownStep(edges[..i], u, step)
        || (edge.caller == FuncCaller(u) && edge.callee == FuncCallee(step.callee) && edge.callsite == step.callsite);
      if edge.caller.FuncCaller? {
        var caller := edge.caller.func;
        match edge.callee
        case FuncCallee(callee) =>
          outgoing := outgoing[caller := outgoing[caller] + [Step(callee, edge.callsite)]];
        case UnknownCallee(reason) =>
          unknown := unknown[caller := unknown[caller] + [UnknownStep(reason, edge.callsite)]];
      }
      assert forall u: nat, step :: HasStep(outgoing, u, step) <==>
        HasStep(before, u, step)
        || (edge.caller == FuncCaller(u) && edge.callee == FuncCallee(step.callee) && edge.callsite == step.callsite);
    }
    assert edges[..|edges|] == edges;
    var known := seq(funcCount, u requires 0 <= u < funcCount && |outgoing| == funcCount => Unique(outgoing[u]));
    var unresolved := seq(funcCount, u requires 0 <= u < funcCount && |unknown| == funcCount => Unique(unknown[u]));
    r := Reachability(known, unresolved);
    forall u: nat, step: Step | u < funcCount && step in known[u]
      ensures step.callee < funcCount
    {
      assert HasStep(outgoing, u, step) && KnownStep(edges, u, step);
    }
    forall u: nat
      ensures Unresolved(r, u) <==> exists step :: CallsUnknown(edges, u, step)
    {
      if Unresolved(r, u) {
        assert r.unknownOutgoing[u][0] in unknown[u];
      }
      if exists step :: CallsUnknown(edges, u, step) {
        var step :| CallsUnknown(edges, u, step);
        assert step in unknown[u];
      }
    }
  }

  // ---------------------------------------------------------------------------------------------
  // Path queries

  /** A nonempty chain of calls from `source` that ends in an accessor. */
  ghost predicate Reenters(r: Reachability, accessors: seq<nat>, path: seq<Hop>, source: nat) {
    path != [] && CallPath(r.outgoing, path, source) && EndOf(path, source) in accessors
  }

  ghost predicate AccessorsInRange(r: Reachability, accessors: seq<nat>) {
    StrictlyAscending(accessors) && forall a | a in accessors :: a < |r.outgoing|
  }

  /** Some chain of calls, possibly empty, leads from `source` to an unresolved call. */
  ghost predicate ReachesUnresolved(r: Reachability, path: seq<Hop>, source: nat) {
    CallPath(r.outgoing, path, source) && Unresolved(r, EndOf(path, source))
  }

  /** Nothing scanned so far calls an accessor. */
  ghost predicate Quiet(r: Reachability, accessors: seq<nat>, nodes: set<nat>) {
    forall u, step | u in nodes && HasStep(r.outgoing, u, step) :: step.callee !in accessors
  }

  /**
   The shortest nonempty path from the smallest accessor that can reach an accessor; none exactly when
   no accessor can.
   */
  method AccessorPath(r: Reachability, accessors: seq<nat>) returns (path: Option<seq<Hop>>)
    requires ValidReach(r) && AccessorsInRange(r, accessors)
    ensures path.None? ==> forall a, p | a in accessors :: !Reenters(r, accessors, p, a)
    ensures path.Some? ==> path.value != [] && var source := path.value[0].caller;
              && source in accessors && Reenters(r, accessors, path.value, source)
              && (forall a, p | a in accessors && a < source :: !Reenters(r, accessors, p, a))
              && (forall p: seq<Hop> | Reenters(r, accessors, p, source) :: |path.value| <= |p|)
              && (forall i | 0 <= i < |path.value| - 1 :: path.value[i].step.callee !in accessors)
  {
    for k := 0 to |accessors|
      invariant forall j, p | 0 <= j < k :: !Reenters(r, accessors, p, accessors[j])
    {
      assert accessors[k] in accessors;
      path := AccessorPathFrom(r, accessors, accessors[k]);
      if path.Some? {
        var source := accessors[k];
        forall a, p | a in accessors && a < source
          ensures !Reenters(r, accessors, p, a)
        {
          var j :| 0 <= j < |accessors| && accessors[j] == a;
          assert j < k;
        }
        InsideIsQuiet(r, accessors, path.value, source);
        return;
      }
    }
    return None;
  }

  /** A shortest path meets no accessor before its end. */
  lemma InsideIsQuiet(r: Reachability, accessors: seq<nat>, path: seq<Hop>, source: nat)
    requires Reenters(r, accessors, path, source)
    requires forall p: seq<Hop> | Reenters(r, accessors, p, source) :: |path| <= |p|
    ensures forall i | 0 <= i < |path| - 1 :: path[i].step.callee !in accessors
  {
    forall i | 0 <= i < |path| - 1
      ensures path[i].step.callee !in accessors
    {
      var front := path[..i + 1];
      assert front[i] == path[i];
      assert CallPath(r.outgoing, front, source);
      assert !Reenters(r, accessors, front, source);
    }
  }

  /** The search from one accessor. */
  method AccessorPathFrom(r: Reachability, accessors: seq<nat>, source: nat) returns (path: Option<seq<Hop>>)
    requires ValidReach(r) && source < |r.outgoing|
    ensures path.None? ==> forall p :: !Reenters(r, accessors, p, source)
    ensures path.Some? ==>
              Reenters(r, accessors, path.value, source) && path.value[0].caller == source
              && forall p: seq<Hop> | Reenters(r, accessors, p, source) :: |path.value| <= |p|
  {
    var bfs := new Bfs(r.outgoing, source);
    while bfs.queue != []
      invariant fresh(bfs) && bfs.outgoing == r.outgoing && bfs.source == source && bfs.Valid()
      invariant AllScanned(r.outgoing, bfs.dist, bfs.active)
      invariant Quiet(r, accessors, bfs.done) && Quiet(r, accessors, bfs.active)
      decreases bfs.Unscanned()
    {
      var caller := bfs.TakeNext();
      var hit := ScanForAccessor(r, accessors, bfs, caller);
      if hit.Some? {
        var front := bfs.PathTo(caller);
        var found := front + [Hop(caller, hit.value)];
        PathSnoc(r.outgoing, front, source, Hop(caller, hit.value));
        assert found[0].caller == source;
        forall p: seq<Hop> | Reenters(r, accessors, p, source)
          ensures |found| <= |p|
        {
          NearIsQuiet(r, accessors, bfs, p);
        }
        return Some(found);
      }
    }
    forall p: seq<Hop>
      ensures !Reenters(r, accessors, p, source)
    {
      if CallPath(r.outgoing, p, source) && p != [] {
        SearchedOut(r, bfs, p);
        assert HasStep(r.outgoing, p[|p| - 1].caller, p[|p| - 1].step);
      }
    }
    return None;
  }

  /** No accessor is called at the end of a path no longer than the distance under scan. */
  lemma NearIsQuiet(r: Reachability, accessors: seq<nat>, bfs: Bfs, path: seq<Hop>)
    requires bfs.Valid() && bfs.outgoing == r.outgoing && Quiet(r, accessors, bfs.done)
    requires CallPath(r.outgoing, path, bfs.source) && path != []
    ensures |path| <= bfs.level ==> EndOf(path, bfs.source) !in accessors
  {
    if |path| <= bfs.level {
      NearIsSeen(r.outgoing, bfs.source, bfs.queue, bfs.dist, bfs.done, bfs.active, bfs.level, path);
      assert HasStep(r.outgoing, path[|path| - 1].caller, path[|path| - 1].step);
    }
  }

  lemma PathSnoc(outgoing: seq<seq<Step>>, path: seq<Hop>, source: nat, hop: Hop)
    requires CallPath(outgoing, path, source) && EndOf(path, source) == hop.caller
    requires HasStep(outgoing, hop.caller, hop.step)
    ensures CallPath(outgoing, path + [hop], source) && EndOf(path + [hop], source) == hop.step.callee
    ensures (path + [hop])[0].caller == source
  {
    var longer := path + [hop];
    forall i, j | 0 <= i && j == i + 1 < |longer|
      ensures longer[j].caller == longer[i].step.callee
    {
      assert longer[i] == path[i];
      if j < |path| {
        assert longer[j] == path[j];
      }
    }
  }

  /** After the search has run out, every path from the source stays among scanned nodes. */
  lemma SearchedOut(r: Reachability, bfs: Bfs, path: seq<Hop>)
    requires bfs.Valid() && bfs.outgoing == r.outgoing && bfs.queue == []
    requires AllScanned(r.outgoing, bfs.dist, bfs.active) && CallPath(r.outgoing, path, bfs.source)
    ensures EndOf(path, bfs.source) in bfs.done + bfs.active
    ensures path != [] ==> path[|path| - 1].caller in bfs.done + bfs.active
  {
    NearIsSeen(r.outgoing, bfs.source, [], bfs.dist, bfs.done + bfs.active, {}, bfs.level, path);
  }

  /** Scans the calls of one function: the first one into an accessor, or every callee is marked. */
  method ScanForAccessor(r: Reachability, accessors: seq<nat>, bfs: Bfs, caller: nat) returns (hit: Option<Step>)
    requires bfs.outgoing == r.outgoing && bfs.Valid() && caller < |r.outgoing|
    requires bfs.active == {caller} && caller in bfs.dist && bfs.dist[caller] == bfs.level
    modifies bfs`seen, bfs`parent, bfs`queue, bfs`dist
    ensures bfs.Valid() && caller in bfs.dist && bfs.dist[caller] == bfs.level
    ensures hit.None? ==> AllScanned(r.outgoing, bfs.dist, bfs.active) && Quiet(r, accessors, bfs.active)
    ensures hit.Some? ==> HasStep(r.outgoing, caller, hit.value) && hit.value.callee in accessors
  {
    var steps := r.outgoing[caller];
    for j := 0 to |steps|
      invariant bfs.Valid() && caller in bfs.dist && bfs.dist[caller] == bfs.level
      invariant forall i | 0 <= i < j :: Scanned(bfs.dist, caller, steps[i]) && steps[i].callee !in accessors
    {
      assert HasStep(r.outgoing, caller, steps[j]);
      if steps[j].callee in accessors {
        return Some(steps[j]);
      }
      bfs.Discover(caller, steps[j]);
    }
    return None;
  }

  /** Marks every callee of one function. */
  method ScanCallees(r: Reachability, bfs: Bfs, caller: nat)
    requires bfs.outgoing == r.outgoing && bfs.Valid() && caller < |r.outgoing|
    requires bfs.active == {caller} && caller in bfs.dist && bfs.dist[caller] == bfs.level
    modifies bfs`seen, bfs`parent, bfs`queue, bfs`dist
    ensures bfs.Valid() && AllScanned(r.outgoing, bfs.dist, bfs.active)
  {
    var steps := r.outgoing[caller];
    for j := 0 to |steps|
      invariant bfs.Valid() && caller in bfs.dist && bfs.dist[caller] == bfs.level
      invariant forall i | 0 <= i < j :: Scanned(bfs.dist, caller, steps[i])
    {
      assert HasStep(r.outgoing, caller, steps[j]);
      bfs.Discover(caller, steps[j]);
    }
  }

  datatype UnknownPath = UnknownPath(path: seq<Hop>, caller: nat, unknown: UnknownStep)

  /**
   A shortest path from the smallest possible accessor to a function with an unresolved call; none
   exactly when no accessor reaches one, in zero or more calls.
   */
  method UnknownCalleePath(r: Reachability, accessors: seq<nat>) returns (found: Option<UnknownPath>)
    requires ValidReach(r) && AccessorsInRange(r, accessors)
    ensures found.None? ==> forall a, p | a in accessors :: !ReachesUnresolved(r, p, a)
    ensures found.Some? ==> exists a ::
              && a in accessors && FirstUnknown(r, found.value, a)
              && forall b, p | b in accessors && b < a :: !ReachesUnresolved(r, p, b)
  {
    for k := 0 to |accessors|
      invariant forall j, p | 0 <= j < k :: !ReachesUnresolved(r, p, accessors[j])
    {
      assert accessors[k] in accessors;
      found := UnknownCalleePathFrom(r, accessors[k]);
      if found.Some? {
        var source := accessors[k];
        forall b, p | b in accessors && b < source
          ensures !ReachesUnresolved(r, p, b)
        {
          var j :| 0 <= j < |accessors| && accessors[j] == b;
          assert j < k;
        }
        return;
      }
    }
    return None;
  }

  /** `found` is a shortest way from `source` to an unresolved call. */
  ghost predicate FirstUnknown(r: Reachability, found: UnknownPath, source: nat) {
    && ReachesUnresolved(r, found.path, source) && EndOf(found.path, source) == found.caller
    && found.unknown == r.unknownOutgoing[found.caller][0]
    && forall p: seq<Hop> | ReachesUnresolved(r, p, source) :: |found.path| <= |p|
  }

  method UnknownCalleePathFrom(r: Reachability, source: nat) returns (found: Option<UnknownPath>)
    requires ValidReach(r) && source < |r.outgoing|
    ensures found.None? ==> forall p :: !ReachesUnresolved(r, p, source)
    ensures found.Some? ==> FirstUnknown(r, found.value, source)
  {
    var bfs := new Bfs(r.outgoing, source);
    while bfs.queue != []
      invariant fresh(bfs) && bfs.outgoing == r.outgoing && bfs.source == source && bfs.Valid()
      invariant AllScanned(r.outgoing, bfs.dist, bfs.active)
      invariant forall u | u in bfs.done || u in bfs.active :: !Unresolved(r, u)
      decreases bfs.Unscanned()
    {
      var caller := bfs.TakeNext();
      if r.unknownOutgoing[caller] != [] {
        var path := bfs.PathTo(caller);
        forall p: seq<Hop> | ReachesUnresolved(r, p, source)
          ensures |path| <= |p|
        {
          if |p| < bfs.level {
            NearIsSeen(r.outgoing, source, bfs.queue, bfs.dist, bfs.done, bfs.active, bfs.level, p);
          }
        }
        return Some(UnknownPath(path, caller, r.unknownOutgoing[caller][0]));
      }
      ScanCallees(r, bfs, caller);
    }
    forall p: seq<Hop>
      ensures !ReachesUnresolved(r, p, source)
    {
      if CallPath(r.outgoing, p, source) {
        SearchedOut(r, bfs, p);
      }
    }
    return None;
  }

  // ---------------------------------------------------------------------------------------------
  // Certificates

  /** What the eligibility pass reads of one global. */
  datatype MutexGlobal = MutexGlobal(
    atomicDeclaration: bool, inAnalysis: bool, accessSetComplete: bool, signalContextAccess: bool,
    violationTaint: bool, closure: seq<nat>)

  datatype Code =
    | GlobalNotInAnalysis | AccessSetIncomplete | SignalContextAccess | ViolationTaint
    | ReentrantAccessPath | UnknownCalleeReentrancy | GroupMemberIneligible | GroupReentrantAccessPath

  datatype Verdict = NotComputed | Certified(accessors: seq<nat>) | Failed(codes: seq<Code>)

  datatype AccessSite = AccessSite(func: nat, globals: set<nat>)

  ghost predicate SitesInRange(sites: seq<AccessSite>, funcCount: nat) {
    forall s | s in sites :: s.func < funcCount
  }

  /** Function `f` accesses some global of `closure`. */
  ghost predicate Accesses(sites: seq<AccessSite>, closure: set<nat>, f: nat) {
    exists s :: s in sites && s.func == f && !(s.globals !! closure)
  }

  /** The accessors of a storage closure in ascending order, as iterating the source's set gives them. */
  method AccessorsOf(sites: seq<AccessSite>, closure: set<nat>, funcCount: nat) returns (accessors: seq<nat>)
    requires SitesInRange(sites, funcCount)
    ensures StrictlyAscending(accessors) && forall f: nat :: f in accessors <==> Accesses(sites, closure, f)
  {
    var list: seq<nat> := [];
    for i := 0 to |sites|
      invariant forall f: nat :: f in list <==> Accesses(sites[..i], closure, f)
    {
      assert sites[..i + 1] == sites[..i] + [sites[i]];
      if !(sites[i].globals !! closure) {
        list := list + [sites[i].func];
      }
    }
    assert sites[..|sites|] == sites;
    SortDedupAscending(list);
    accessors := SortDedup(list);
  }

  /** No function that accesses `closure` can come back to one, or leave for somewhere unresolved. */
  ghost predicate Reentrant(r: Reachability, sites: seq<AccessSite>, closure: set<nat>) {
    exists a: nat, b: nat, p :: Accesses(sites, closure, a) && Accesses(sites, closure, b) && ReturnsTo(r, p, a, b)
  }

  ghost predicate ReturnsTo(r: Reachability, p: seq<Hop>, a: nat, b: nat) {
    p != [] && CallPath(r.outgoing, p, a) && EndOf(p, a) == b
  }

  ghost predicate LeavesUnresolved(r: Reachability, sites: seq<AccessSite>, closure: set<nat>) {
    exists a: nat, p :: Accesses(sites, closure, a) && ReachesUnresolved(r, p, a)
  }

  predicate CoarseEligible(g: MutexGlobal) {
    !g.atomicDeclaration && g.accessSetComplete && !g.signalContextAccess && !g.violationTaint
  }

  function CoarseCodes(g: MutexGlobal): (codes: seq<Code>)
    ensures codes == [] <==> g.accessSetComplete && !g.signalContextAccess && !g.violationTaint
    ensures NoDuplicates(codes) && forall code | code in codes :: code in {AccessSetIncomplete, SignalContextAccess, ViolationTaint}
    ensures AccessSetIncomplete in codes <==> !g.accessSetComplete
    ensures SignalContextAccess in codes <==> g.signalContextAccess
    ensures ViolationTaint in codes <==> g.violationTaint
  {
    (if g.accessSetComplete then [] else [AccessSetIncomplete])
    + (if g.signalContextAccess then [SignalContextAccess] else [])
    + (if g.violationTaint then [ViolationTaint] else [])
  }

  /** When a failure code is due: the call graph is only asked about a global that passes everything else. */
  ghost predicate Due(code: Code, g: MutexGlobal, reenters: bool, leaves: bool) {
    match code
    case GlobalNotInAnalysis => !g.inAnalysis
    case AccessSetIncomplete => g.inAnalysis && !g.accessSetComplete
    case SignalContextAccess => g.inAnalysis && g.signalContextAccess
    case ViolationTaint => g.inAnalysis && g.violationTaint
    case ReentrantAccessPath => g.inAnalysis && CoarseEligible(g) && reenters
    case UnknownCalleeReentrancy => g.inAnalysis && CoarseEligible(g) && leaves
    case GroupMemberIneligible => false
    case GroupReentrantAccessPath => false
  }

  /** The verdict on a global whose accessors do or do not come back, and do or do not leave for somewhere unresolved. */
  ghost predicate VerdictOk(v: Verdict, sites: seq<AccessSite>, g: MutexGlobal, reenters: bool, leaves: bool) {
    && (v.NotComputed? <==> g.atomicDeclaration)
    && (v.Certified? <==> CoarseEligible(g) && g.inAnalysis && !reenters && !leaves)
    && (v.Certified? ==> forall f: nat :: f in v.accessors <==> Accesses(sites, Elements(g.closure), f))
    && (v.Failed? ==> v.codes != [] && NoDuplicates(v.codes) && forall code :: code in v.codes <==> Due(code, g, reenters, leaves))
  }

  method AssembleMutexEligibility(r: Reachability, sites: seq<AccessSite>, g: MutexGlobal) returns (v: Verdict)
    requires ValidReach(r) && SitesInRange(sites, |r.outgoing|)
    ensures VerdictOk(v, sites, g, Reentrant(r, sites, Elements(g.closure)), LeavesUnresolved(r, sites, Elements(g.closure)))
  {
    hide CoarseCodes, Reentrant, LeavesUnresolved;
    if g.atomicDeclaration {
      return NotComputed;
    }
    if !g.inAnalysis {
      return Failed([GlobalNotInAnalysis]);
    }
    var codes := CoarseCodes(g);
    if codes != [] {
      return Failed(codes);
    }
    v := CheckReentrancy(r, sites, g);
  }

  /** The two queries on the call graph, for a global that passes everything else. */
  method CheckReentrancy(r: Reachability, sites: seq<AccessSite>, g: MutexGlobal) returns (v: Verdict)
    requires ValidReach(r) && SitesInRange(sites, |r.outgoing|)
    ensures v.Certified? <==> !Reentrant(r, sites, Elements(g.closure)) && !LeavesUnresolved(r, sites, Elements(g.closure))
    ensures v.Certified? ==> forall f: nat :: f in v.accessors <==> Accesses(sites, Elements(g.closure), f)
    ensures v.Certified? || v.Failed?
    ensures v.Failed? ==> forall code :: code in v.codes <==>
              || (code == ReentrantAccessPath && Reentrant(r, sites, Elements(g.closure)))
              || (code == UnknownCalleeReentrancy && LeavesUnresolved(r, sites, Elements(g.closure)))
    ensures v.Failed? ==> NoDuplicates(v.codes)
    ensures v.Failed? ==> v.codes != []
  {
    hide Reentrant, LeavesUnresolved, Accesses, Reenters, ReachesUnresolved, CallPath;
    var closure := set i | 0 <= i < |g.closure| :: g.closure[i];
    assert closure == Elements(g.closure);
    var accessors := AccessorsOf(sites, closure, |r.outgoing|);
    ClosureAccessors(r, sites, closure, accessors);
    var path := AccessorPath(r, accessors);
    var codes := if path.Some? then [ReentrantAccessPath] else [];
    var unknown := UnknownCalleePath(r, accessors);
    if unknown.Some? {
      codes := codes + [UnknownCalleeReentrancy];
    }
    v := if codes == [] then Certified(accessors) else Failed(codes);
  }

  /** The two queries on the accessor list decide the two conditions on the closure. */
  lemma ClosureAccessors(r: Reachability, sites: seq<AccessSite>, closure: set<nat>, accessors: seq<nat>)
    requires ValidReach(r) && SitesInRange(sites, |r.outgoing|)
    requires forall f: nat :: f in accessors <==> Accesses(sites, closure, f)
    ensures forall a | a in accessors :: a < |r.outgoing|
    ensures Reentrant(r, sites, closure) <==> exists a, p :: a in accessors && Reenters(r, accessors, p, a)
    ensures LeavesUnresolved(r, sites, closure) <==> exists a, p :: a in accessors && ReachesUnresolved(r, p, a)
  {
    if Reentrant(r, sites, closure) {
      var a: nat, b: nat, p :| Accesses(sites, closure, a) && Accesses(sites, closure, b) && ReturnsTo(r, p, a, b);
      assert a in accessors && Reenters(r, accessors, p, a);
    }
    if exists a, p :: a in accessors && Reenters(r, accessors, p, a) {
      var a, p :| a in accessors && Reenters(r, accessors, p, a);
      assert Accesses(sites, closure, a) && Accesses(sites, closure, EndOf(p, a)) && ReturnsTo(r, p, a, EndOf(p, a));
    }
    if LeavesUnresolved(r, sites, closure) {
      var a: nat, p :| Accesses(sites, closure, a) && ReachesUnresolved(r, p, a);
      assert a in accessors;
    }
  }

  /** Unresolved calls reachable from a union of accessor sets are reachable from one of them. */
  lemma UnresolvedDistributes(r: Reachability, sites: seq<AccessSite>, left: set<nat>, right: set<nat>)
    ensures LeavesUnresolved(r, sites, left + right) <==>
            LeavesUnresolved(r, sites, left) || LeavesUnresolved(r, sites, right)
  {
    forall f: nat
      ensures Accesses(sites, left + right, f) <==> Accesses(sites, left, f) || Accesses(sites, right, f)
    {
      if Accesses(sites, left + right, f) {
        var s :| s in sites && s.func == f && !(s.globals !! (left + right));
        var g :| g in s.globals && g in left + right;
        assert g in left ==> !(s.globals !! left);
        assert g in right ==> !(s.globals !! right);
      }
      if Accesses(sites, left, f) {
        var s :| s in sites && s.func == f && !(s.globals !! left);
        var g :| g in s.globals && g in left;
        assert g in left + right;
      }
      if Accesses(sites, right, f) {
        var s :| s in sites && s.func == f && !(s.globals !! right);
        var g :| g in s.globals && g in right;
        assert g in left + right;
      }
    }
  }

  /** The joint storage closure of some globals. */
  ghost function JointClosure(globals: seq<MutexGlobal>): set<nat> {
    if globals == [] then {}
    else JointClosure(globals[..|globals| - 1]) + Elements(globals[|globals| - 1].closure)
  }

  /** A union of closures none of which leaves for somewhere unresolved does not either. */
  lemma {:induction false} JointIsResolved(r: Reachability, sites: seq<AccessSite>, globals: seq<MutexGlobal>)
    requires forall g | g in globals :: !LeavesUnresolved(r, sites, Elements(g.closure))
    ensures !LeavesUnresolved(r, sites, JointClosure(globals))
  {
    if globals == [] {
      assert forall f: nat :: !Accesses(sites, {}, f);
    } else {
      var front, last := globals[..|globals| - 1], globals[|globals| - 1];
      assert globals == front + [last];
      JointIsResolved(r, sites, front);
      assert last in globals;
      UnresolvedDistributes(r, sites, JointClosure(front), Elements(last.closure));
    }
  }

  /** The verdict on one lock for a whole group: a failure has one code, which says what was not even looked at. */
  ghost predicate GroupVerdictOk(v: Verdict, verdicts: seq<Verdict>, sites: seq<AccessSite>, closure: set<nat>, reenters: bool) {
    var eligible := forall i | 0 <= i < |verdicts| :: verdicts[i].Certified?;
    && !v.NotComputed? && (v.Certified? <==> eligible && !reenters)
    && (v.Certified? ==> forall f: nat :: f in v.accessors <==> Accesses(sites, closure, f))
    && (v.Failed? ==> |v.codes| == 1)
    && (v.Failed? && !eligible ==> v.codes[0] == GroupMemberIneligible)
    && (v.Failed? && eligible ==> reenters && v.codes[0] == GroupReentrantAccessPath)
  }

  /**
   One lock for a whole group. Only the accessor query is run on the joint accessors; a certified group
   reaches nothing unresolved all the same, because every member was certified.
   */
  method AssembleGroupMutexSupport(r: Reachability, sites: seq<AccessSite>, members: seq<MutexGlobal>, verdicts: seq<Verdict>)
    returns (v: Verdict)
    requires ValidReach(r) && SitesInRange(sites, |r.outgoing|) && |verdicts| == |members|
    requires forall i | 0 <= i < |members| && verdicts[i].Certified? ::
               !LeavesUnresolved(r, sites, Elements(members[i].closure))
    ensures GroupVerdictOk(v, verdicts, sites, JointClosure(members), Reentrant(r, sites, JointClosure(members)))
    ensures v.Certified? ==> !LeavesUnresolved(r, sites, JointClosure(members))
  {
    var closure: set<nat> := {};
    var eligible := true;
    for i := 0 to |members|
      invariant closure == JointClosure(members[..i])
      invariant eligible <==> forall j | 0 <= j < i :: verdicts[j].Certified?
    {
      assert members[..i + 1][..i] == members[..i];
      eligible := eligible && verdicts[i].Certified?;
      closure := closure + set j | 0 <= j < |members[i].closure| :: members[i].closure[j];
    }
    assert members[..|members|] == members;
    if !eligible {
      return Failed([GroupMemberIneligible]);
    }
    JointIsResolved(r, sites, members);
    var accessors := AccessorsOf(sites, closure, |r.outgoing|);
    ClosureAccessors(r, sites, closure, accessors);
    var path := AccessorPath(r, accessors);
    v := if path.Some? then Failed([GroupReentrantAccessPath]) else Certified(accessors);
  }

  /** The members of a group and then the group, with no assumption on any verdict. */
  method CertifyGroup(r: Reachability, sites: seq<AccessSite>, members: seq<MutexGlobal>)
    returns (verdicts: seq<Verdict>, v: Verdict)
    requires ValidReach(r) && SitesInRange(sites, |r.outgoing|)
    ensures |verdicts| == |members|
    ensures forall i {:trigger verdicts[i]} | 0 <= i < |members| :: var closure := Elements(members[i].closure);
              VerdictOk(verdicts[i], sites, members[i], Reentrant(r, sites, closure), LeavesUnresolved(r, sites, closure))
    ensures GroupVerdictOk(v, verdicts, sites, JointClosure(members), Reentrant(r, sites, JointClosure(members)))
    ensures v.Certified? ==> !LeavesUnresolved(r, sites, JointClosure(members))
  {
    hide Reentrant, LeavesUnresolved;
    verdicts := [];
    for i := 0 to |members|
      invariant |verdicts| == i
      invariant forall j {:trigger verdicts[j]} | 0 <= j < i :: var closure := Elements(members[j].closure);
                  VerdictOk(verdicts[j], sites, members[j], Reentrant(r, sites, closure), LeavesUnresolved(r, sites, closure))
    {
      var verdict := AssembleMutexEligibility(r, sites, members[i]);
      verdicts := verdicts + [verdict];
    }
    v := AssembleGroupMutexSupport(r, sites, members, verdicts);
  }

  // ---------------------------------------------------------------------------------------------
  // Certificates, over the call edges

  /** Consecutive calls of the program, starting at `source`. */
  ghost predicate EdgePath(edges: seq<CallEdge>, path: seq<Hop>, source: nat) {
    && (forall i | 0 <= i < |path| :: KnownStep(edges, path[i].caller, path[i].step))
    && (path != [] ==> path[0].caller == source)
    && (forall i, j | 0 <= i && j == i + 1 < |path| :: path[j].caller == path[i].step.callee)
  }

  /** Some function that accesses `closure` leads, by at least one call, to one that does. */
  ghost predicate ReentersByCalls(edges: seq<CallEdge>, sites: seq<AccessSite>, closure: set<nat>) {
    exists a: nat, path :: Accesses(sites, closure, a) && path != [] && EdgePath(edges, path, a)
                           && Accesses(sites, closure, EndOf(path, a))
  }

  /** Some function that accesses `closure` leads to a call whose target is unknown. */
  ghost predicate LeavesByCalls(edges: seq<CallEdge>, sites: seq<AccessSite>, closure: set<nat>) {
    exists a: nat, path, step :: Accesses(sites, closure, a) && EdgePath(edges, path, a) && CallsUnknown(edges, EndOf(path, a), step)
  }

  /** The tables are those of the edges. */
  ghost predicate IsReachability(r: Reachability, edges: seq<CallEdge>) {
    && ValidReach(r)
    && (forall u: nat, step :: HasStep(r.outgoing, u, step) <==> KnownStep(edges, u, step))
    && (forall u: nat :: Unresolved(r, u) <==> exists step :: CallsUnknown(edges, u, step))
  }

  lemma TablesAreCalls(r: Reachability, edges: seq<CallEdge>, sites: seq<AccessSite>, closure: set<nat>)
    requires IsReachability(r, edges)
    ensures Reentrant(r, sites, closure) <==> ReentersByCalls(edges, sites, closure)
    ensures LeavesUnresolved(r, sites, closure) <==> LeavesByCalls(edges, sites, closure)
  {
    forall path, a: nat
      ensures CallPath(r.outgoing, path, a) <==> EdgePath(edges, path, a)
    {
    }
    if Reentrant(r, sites, closure) {
      var a: nat, b: nat, path :| Accesses(sites, closure, a) && Accesses(sites, closure, b) && ReturnsTo(r, path, a, b);
      assert EdgePath(edges, path, a) && Accesses(sites, closure, EndOf(path, a));
    }
    if ReentersByCalls(edges, sites, closure) {
      var a: nat, path :| Accesses(sites, closure, a) && path != [] && EdgePath(edges, path, a) && Accesses(sites, closure, EndOf(path, a));
      assert ReturnsTo(r, path, a, EndOf(path, a));
    }
    if LeavesUnresolved(r, sites, closure) {
      var a: nat, path :| Accesses(sites, closure, a) && ReachesUnresolved(r, path, a);
      var step :| CallsUnknown(edges, EndOf(path, a), step);
      assert EdgePath(edges, path, a);
    }
    if LeavesByCalls(edges, sites, closure) {
      var a: nat, path, step :| Accesses(sites, closure, a) && EdgePath(edges, path, a) && CallsUnknown(edges, EndOf(path, a), step);
      assert ReachesUnresolved(r, path, a);
    }
  }

  /** From the solved call graph to the certificates of some globals and of their group. */
  method CertifyCalls(edges: seq<CallEdge>, funcCount: nat, sites: seq<AccessSite>, members: seq<MutexGlobal>)
    returns (verdicts: seq<Verdict>, v: Verdict)
    requires EdgesInRange(edges, funcCount) && SitesInRange(sites, funcCount)
    ensures |verdicts| == |members|
    ensures forall i {:trigger verdicts[i]} | 0 <= i < |members| :: var closure := Elements(members[i].closure);
              VerdictOk(verdicts[i], sites, members[i], ReentersByCalls(edges, sites, closure), LeavesByCalls(edges, sites, closure))
    ensures GroupVerdictOk(v, verdicts, sites, JointClosure(members), ReentersByCalls(edges, sites, JointClosure(members)))
    ensures v.Certified? ==> !LeavesByCalls(edges, sites, JointClosure(members))
  {
    hide Reentrant, LeavesUnresolved, ReentersByCalls, LeavesByCalls, VerdictOk, GroupVerdictOk;
    var r := NewReachability(edges, funcCount);
    verdicts, v := CertifyGroup(r, sites, members);
    forall closure: set<nat>
      ensures Reentrant(r, sites, closure) <==> ReentersByCalls(edges, sites, closure)
      ensures LeavesUnresolved(r, sites, closure) <==> LeavesByCalls(edges, sites, closure)
    {
      TablesAreCalls(r, edges, sites, closure);
    }
  }
}
