/**
 The context-rewrite plan: for every localizable global, the functions that must take the context and the
 callsites that must pass it.
 */
module Rewrite {
  import opened Basics
  import opened Paths
  import opened Sorting
  import opened CallGraph

  datatype FuncInfo = FuncInfo(key: string, external: bool)
  datatype GlobalInfo = GlobalInfo(key: string, mutable: bool, isDefinition: bool)
  datatype Location = Location(file: string, line: nat, col: nat)
  datatype CallsiteInfo = CallsiteInfo(caller: nat, loc: Option<Location>)

  datatype Blocker =
    | UnknownCallerTaint(func: nat)
    | UnlocatableCallsite(func: nat, site: nat)
    | UnknownCalleeTaint(func: nat, site: nat)
    | InitializerDependency(initializer: string)

  datatype FieldPlan = FieldPlan(field: nat, accessors: set<nat>, functions: set<nat>, sites: set<nat>, blockers: set<Blocker>)

  /** The input program. */
  datatype Program = Program(funcs: seq<FuncInfo>, callsites: seq<CallsiteInfo>, edges: seq<CallEdge>, mode: BuildMode) {
    ghost predicate Valid() {
      && EdgesInRange(edges, |funcs|)
      && forall e | e in edges && e.callsite.Some? :: e.callsite.value < |callsites|
    }

    /** An edge between two functions of the program, the only kind the context is threaded over. */
    predicate Internal(e: CallEdge) {
      && e.caller.FuncCaller? && e.caller.func < |funcs| && !funcs[e.caller.func].external
      && e.callee.FuncCallee? && e.callee.func < |funcs| && !funcs[e.callee.func].external
    }

    ghost predicate IsInternal(f: nat) {
      f < |funcs| && !funcs[f].external
    }

    ghost predicate InternalCall(caller: nat, callee: nat, site: Option<nat>) {
      && IsInternal(caller) && IsInternal(callee)
      && exists e :: e in edges && e.caller == FuncCaller(caller) && e.callee == FuncCallee(callee) && e.callsite == site
    }

    /** The callsite has the internal target. */
    ghost predicate Targets(site: nat, target: nat) {
      exists caller: nat :: InternalCall(caller, target, Some(site))
    }

    ghost predicate HasUnknownCaller(f: nat) {
      exists e :: e in edges && e.caller.UnknownCaller? && e.callee == FuncCallee(f)
    }

    ghost predicate HasUnknownCallee(site: nat) {
      exists e :: e in edges && e.caller.FuncCaller? && e.callee.UnknownCallee? && e.callsite == Some(site)
    }

    /** The runtime of an executable enters at `main`, and at nothing else. */
    ghost predicate EnteredByRuntime(f: nat)
      requires f < |funcs|
    {
      mode == Executable && funcs[f].key == "main"
    }

    predicate ExecutableEntry(f: nat)
      requires f < |funcs|
    {
      mode.Executable? && funcs[f].key == "main"
    }

    /** The callsite has an exact source location. */
    ghost predicate ExactlyLocated(site: nat)
      requires site < |callsites|
    {
      exists loc :: callsites[site].loc == Some(loc) && |loc.file| > 0 && loc.line > 0 && loc.col > 0
    }

    predicate Located(site: nat)
      requires site < |callsites|
    {
      var loc := callsites[site].loc;
      loc.Some? && loc.value.file != "" && loc.value.line != 0 && loc.value.col != 0
    }
  }

  // ---------------------------------------------------------------------------------------------
  // The closure a field needs

  /** Callers of a rewritten function and all targets of a rewritten callsite are rewritten too. */
  ghost predicate Closed(p: Program, functions: set<nat>, sites: set<nat>) {
    && (forall c: nat, f: nat, s: Option<nat> | f in functions && p.InternalCall(c, f, s) ::
          c in functions && (s.Some? ==> s.value in sites))
    && (forall s: nat, t: nat | s in sites && p.Targets(s, t) :: t in functions)
  }

  /** The pair is part of every closed pair that holds the accessors. */
  ghost predicate Needed(p: Program, accessors: set<nat>, functions: set<nat>, sites: set<nat>) {
    forall fs: set<nat>, ss: set<nat> {:trigger Closed(p, fs, ss)} | accessors <= fs && Closed(p, fs, ss) ::
      functions <= fs && sites <= ss
  }

  /** The least closed pair that holds the accessors. */
  ghost predicate IsLeast(p: Program, accessors: set<nat>, functions: set<nat>, sites: set<nat>) {
    accessors <= functions && Closed(p, functions, sites) && Needed(p, accessors, functions, sites)
  }

  /** There is only one, so the order in which work is taken up is irrelevant. */
  lemma LeastIsUnique(
      p: Program, accessors: set<nat>, functions: set<nat>, sites: set<nat>, functions': set<nat>, sites': set<nat>)
    requires IsLeast(p, accessors, functions, sites) && IsLeast(p, accessors, functions', sites')
    ensures functions == functions' && sites == sites'
  {
    assert functions <= functions' && functions' <= functions;
    assert sites <= sites' && sites' <= sites;
  }

  /** Every rewritten callsite has a rewritten target. */
  lemma SitesHaveTargets(p: Program, accessors: set<nat>, functions: set<nat>, sites: set<nat>, site: nat)
    requires IsLeast(p, accessors, functions, sites) && site in sites
    ensures exists t: nat :: t in functions && p.Targets(site, t)
  {
    var justified := set s | s in sites && exists t: nat :: t in functions && p.Targets(s, t);
    forall c: nat, f: nat, s: Option<nat> | f in functions && p.InternalCall(c, f, s)
      ensures c in functions && (s.Some? ==> s.value in justified)
    {
      if s.Some? {
        assert p.InternalCall(c, f, Some(s.value)) && p.Targets(s.value, f);
      }
    }
    assert Closed(p, functions, justified);
    assert sites <= justified;
  }

  /** Giving `u` the context forces it on `w`: `w` calls `u`, or they are targets of one callsite. */
  ghost predicate Forces(p: Program, u: nat, w: nat) {
    || (exists s :: p.InternalCall(w, u, s))
    || (exists s: nat :: p.Targets(s, u) && p.Targets(s, w))
  }

  ghost function Forcing(p: Program): (nat, nat) -> bool {
    (u: nat, w: nat) => Forces(p, u, w)
  }

  ghost predicate ForcedBy(p: Program, accessors: set<nat>, f: nat) {
    exists a :: a in accessors && Reach(Forcing(p), a, f)
  }

  lemma ForcedStep(p: Program, accessors: set<nat>, u: nat, w: nat)
    requires ForcedBy(p, accessors, u) && Forces(p, u, w)
    ensures ForcedBy(p, accessors, w)
  {
    var a :| a in accessors && Reach(Forcing(p), a, u);
    ReachEdge(Forcing(p), u, w);
    ReachTrans(Forcing(p), a, u, w);
  }

  /** The least closed pair, without a fixpoint: what the accessors force, and the callsites into it. */
  lemma LeastIsForced(p: Program, accessors: set<nat>, functions: set<nat>, sites: set<nat>)
    requires IsLeast(p, accessors, functions, sites)
    ensures forall f: nat :: f in functions <==> ForcedBy(p, accessors, f)
    ensures forall s: nat :: s in sites <==> exists t: nat :: t in functions && p.Targets(s, t)
  {
    var forced := set f | f in functions && ForcedBy(p, accessors, f);
    var into := set s | s in sites && exists t: nat :: t in forced && p.Targets(s, t);
    ForcedIsClosed(p, accessors, functions, sites, forced, into);
    forall a | a in accessors
      ensures a in forced
    {
      ReachSelf(Forcing(p), a);
    }
    assert functions <= forced && sites <= into;
    forall f: nat | ForcedBy(p, accessors, f)
      ensures f in functions
    {
      ForcedIsNeeded(p, accessors, functions, sites, f);
    }
    forall s: nat, t: nat | t in functions && p.Targets(s, t)
      ensures s in sites
    {
      var c: nat :| p.InternalCall(c, t, Some(s));
    }
  }

  lemma ForcedIsNeeded(p: Program, accessors: set<nat>, functions: set<nat>, sites: set<nat>, f: nat)
    requires accessors <= functions && Closed(p, functions, sites) && ForcedBy(p, accessors, f)
    ensures f in functions
  {
    var a :| a in accessors && Reach(Forcing(p), a, f);
    forall u: nat, w: nat | u in functions && Forces(p, u, w)
      ensures w in functions
    {
      if s: nat :| p.Targets(s, u) && p.Targets(s, w) {
        var c: nat :| p.InternalCall(c, u, Some(s));
      }
    }
    ClosedUnderReach(Forcing(p), (g: nat) => g in functions, a, f);
  }

  lemma ForcedIsClosed(
      p: Program, accessors: set<nat>, functions: set<nat>, sites: set<nat>, forced: set<nat>, into: set<nat>)
    requires Closed(p, functions, sites)
    requires forced == (set f | f in functions && ForcedBy(p, accessors, f))
    requires into == (set s | s in sites && exists t: nat :: t in forced && p.Targets(s, t))
    ensures Closed(p, forced, into)
  {
    forall c: nat, f: nat, s: Option<nat> | f in forced && p.InternalCall(c, f, s)
      ensures c in forced && (s.Some? ==> s.value in into)
    {
      ForcedStep(p, accessors, f, c);
      if s.Some? {
        assert p.InternalCall(c, f, Some(s.value)) && p.Targets(s.value, f);
      }
    }
    forall s: nat, t: nat | s in into && p.Targets(s, t)
      ensures t in forced
    {
      var u: nat :| u in forced && p.Targets(s, u);
      ForcedStep(p, accessors, u, t);
    }
  }

  // ---------------------------------------------------------------------------------------------
  // Indexes over the edges

  datatype Index = Index(
    callers: seq<seq<(nat, Option<nat>)>>, unknownCallers: seq<bool>, unknownSites: set<nat>, targets: map<nat, set<nat>>)

  predicate HasTarget(targets: map<nat, set<nat>>, s: nat, t: nat) {
    s in targets && t in targets[s]
  }

  ghost predicate IndexOk(p: Program, index: Index) {
    && |index.callers| == |index.unknownCallers| == |p.funcs|
    && (forall c: nat, f: nat, s: Option<nat> | f < |p.funcs| :: (c, s) in index.callers[f] <==> p.InternalCall(c, f, s))
    && (forall f: nat | f < |p.funcs| :: index.unknownCallers[f] <==> p.HasUnknownCaller(f))
    && (forall s: nat :: s in index.unknownSites <==> p.HasUnknownCallee(s))
    && (forall s: nat, t: nat {:trigger HasTarget(index.targets, s, t)} {:trigger p.Targets(s, t)} ::
          HasTarget(index.targets, s, t) <==> p.Targets(s, t))
  }

  function AddEdge(p: Program, index: Index, e: CallEdge): Index
    requires |index.callers| == |index.unknownCallers| == |p.funcs| && EdgesInRange([e], |p.funcs|)
  {
    assert e in [e];
    if p.Internal(e) then
      var f := e.callee.func;
      var called := index.(callers := index.callers[f := index.callers[f] + [(e.caller.func, e.callsite)]]);
      if e.callsite.None? then called
      else
        var s := e.callsite.value;
        called.(targets := index.targets[s := (if s in index.targets then index.targets[s] else {}) + {f}])
    else if e.caller.UnknownCaller? && e.callee.FuncCallee? then
      index.(unknownCallers := index.unknownCallers[e.callee.func := true])
    else if e.caller.FuncCaller? && e.callee.UnknownCallee? && e.callsite.Some? then
      index.(unknownSites := index.unknownSites + {e.callsite.value})
    else index
  }

  lemma CallNext(p: Program, e: CallEdge, q: Program, c: nat, f: nat, s: Option<nat>)
    requires q == p.(edges := p.edges + [e])
    ensures q.InternalCall(c, f, s) <==>
              p.InternalCall(c, f, s) || (p.Internal(e) && e.caller.func == c && e.callee.func == f && e.callsite == s)
  {
    if p.InternalCall(c, f, s) {
      var d :| d in p.edges && d.caller == FuncCaller(c) && d.callee == FuncCallee(f) && d.callsite == s;
      assert d in q.edges;
    }
    if p.Internal(e) {
      assert e in q.edges && e.caller == FuncCaller(e.caller.func) && e.callee == FuncCallee(e.callee.func);
    }
  }

  lemma TargetNext(p: Program, e: CallEdge, q: Program, s: nat, t: nat)
    requires q == p.(edges := p.edges + [e])
    ensures q.Targets(s, t) <==> p.Targets(s, t) || (p.Internal(e) && e.callee.func == t && e.callsite == Some(s))
  {
    forall c: nat
      ensures q.InternalCall(c, t, Some(s)) <==>
                p.InternalCall(c, t, Some(s)) || (p.Internal(e) && e.caller.func == c && e.callee.func == t && e.callsite == Some(s))
    {
      CallNext(p, e, q, c, t, Some(s));
    }
    if p.Targets(s, t) {
      var c: nat :| p.InternalCall(c, t, Some(s));
      assert q.InternalCall(c, t, Some(s));
    } else if p.Internal(e) && e.callee.func == t && e.callsite == Some(s) {
      assert q.InternalCall(e.caller.func, t, Some(s));
    }
  }

  lemma UnknownNext(p: Program, e: CallEdge, q: Program, x: nat)
    requires q == p.(edges := p.edges + [e])
    ensures q.HasUnknownCaller(x) <==> p.HasUnknownCaller(x) || (e.caller.UnknownCaller? && e.callee == FuncCallee(x))
    ensures q.HasUnknownCallee(x) <==>
              p.HasUnknownCallee(x) || (e.caller.FuncCaller? && e.callee.UnknownCallee? && e.callsite == Some(x))
  {
    assert e in q.edges;
    assert forall d | d in p.edges :: d in q.edges;
  }

  lemma AddEdgeKeepsIndex(p: Program, index: Index, e: CallEdge, q: Program)
    requires IndexOk(p, index) && EdgesInRange([e], |p.funcs|) && q == p.(edges := p.edges + [e])
    ensures IndexOk(q, AddEdge(p, index, e))
  {
    assert e in [e];
    var next := AddEdge(p, index, e);
    forall c: nat, f: nat, s: Option<nat> | f < |q.funcs|
      ensures (c, s) in next.callers[f] <==> q.InternalCall(c, f, s)
    {
      CallNext(p, e, q, c, f, s);
    }
    forall s: nat, t: nat
      ensures HasTarget(next.targets, s, t) <==> q.Targets(s, t)
    {
      TargetNext(p, e, q, s, t);
      assert HasTarget(index.targets, s, t) <==> p.Targets(s, t);
    }
    forall x: nat
      ensures x < |q.funcs| ==> (next.unknownCallers[x] <==> q.HasUnknownCaller(x))
      ensures x in next.unknownSites <==> q.HasUnknownCallee(x)
    {
      UnknownNext(p, e, q, x);
    }
  }

  method BuildIndex(p: Program) returns (index: Index)
    requires p.Valid()
    ensures IndexOk(p, index)
  {
    index := Index(seq(|p.funcs|, _ => []), seq(|p.funcs|, _ => false), {}, map[]);
    for i := 0 to |p.edges|
      invariant IndexOk(p.(edges := p.edges[..i]), index)
    {
      assert p.edges[..i + 1] == p.edges[..i] + [p.edges[i]];
      assert p.edges[i] in p.edges;
      AddEdgeKeepsIndex(p.(edges := p.edges[..i]), index, p.edges[i], p.(edges := p.edges[..i + 1]));
      index := AddEdge(p.(edges := p.edges[..i]), index, p.edges[i]);
    }
    assert p.edges[..|p.edges|] == p.edges;
  }

  // ---------------------------------------------------------------------------------------------
  // The worklist

  /** All callers of `f` have been taken in. */
  ghost predicate Done(p: Program, functions: set<nat>, sites: set<nat>, f: nat) {
    forall c: nat, s: Option<nat> | p.InternalCall(c, f, s) :: c in functions && (s.Some? ==> s.value in sites)
  }

  /** What the worklist keeps; `current` is the function being taken up, if any. */
  ghost predicate Progress(
      p: Program, accessors: set<nat>, functions: set<nat>, sites: set<nat>, work: seq<nat>, current: set<nat>) {
    && accessors <= functions && Needed(p, accessors, functions, sites)
    && (forall f | f in functions :: f < |p.funcs|)
    && (forall f | f in work :: f in functions)
    && (forall f {:trigger Done(p, functions, sites, f)} | f in functions && f !in work && f !in current ::
          Done(p, functions, sites, f))
    && (forall s: nat, t: nat {:trigger p.Targets(s, t)} | s in sites && p.Targets(s, t) :: t in functions)
  }

  /** A caller of a needed function and all targets of its callsite are needed. */
  lemma NeededCall(
      p: Program, accessors: set<nat>, functions: set<nat>, sites: set<nat>, c: nat, f: nat, s: Option<nat>,
      more: set<nat>)
    requires Needed(p, accessors, functions, sites) && f in functions && p.InternalCall(c, f, s)
    requires forall t | t in more :: t == c || (s.Some? && p.Targets(s.value, t))
    ensures Needed(p, accessors, functions + more, if s.Some? then sites + {s.value} else sites)
  {
    forall fs: set<nat>, ss: set<nat> {:trigger Closed(p, fs, ss)} | accessors <= fs && Closed(p, fs, ss)
      ensures functions + more <= fs && (if s.Some? then sites + {s.value} else sites) <= ss
    {
      assert functions <= fs && sites <= ss && c in fs && (s.Some? ==> s.value in ss);
    }
  }

  /** Adds the missing targets of a newly rewritten callsite, in any order. */
  method AddTargets(targets: set<nat>, functions: set<nat>, work: seq<nat>) returns (functions': set<nat>, work': seq<nat>)
    ensures functions' == functions + targets
    ensures forall f :: f in work' <==> f in work || (f in targets && f !in functions)
    ensures functions' == functions ==> work' == work
  {
    functions', work' := functions, work;
    var rest := targets;
    while rest != {}
      invariant rest <= targets && functions' == functions + (targets - rest)
      invariant forall f :: f in work' <==> f in work || (f in targets - rest && f !in functions)
      invariant functions' == functions ==> work' == work
    {
      var target :| target in rest;
      rest := rest - {target};
      if target !in functions' {
        functions', work' := functions' + {target}, work' + [target];
      }
    }
  }

  /** Takes in one caller of `callee`: its callsite with all its targets, then the caller itself. */
  method TakeCaller(
      p: Program, index: Index, ghost accessors: set<nat>, callee: nat, caller: nat, callsite: Option<nat>,
      functions: set<nat>, sites: set<nat>, work: seq<nat>)
    returns (functions': set<nat>, sites': set<nat>, work': seq<nat>)
    requires p.Valid() && IndexOk(p, index) && callee in functions && p.InternalCall(caller, callee, callsite)
    requires Progress(p, accessors, functions, sites, work, {callee})
    ensures Progress(p, accessors, functions', sites', work', {callee})
    ensures functions <= functions' && sites <= sites' && (functions' == functions ==> work' == work)
    ensures caller in functions' && (callsite.Some? ==> callsite.value in sites')
  {
    functions', sites', work' := functions, sites, work;
    ghost var more := {caller};
    if callsite.Some? && callsite.value !in sites {
      var site := callsite.value;
      sites' := sites + {site};
      if site in index.targets {
        more := more + index.targets[site];
        forall t | t in index.targets[site]
          ensures p.Targets(site, t)
        {
          assert HasTarget(index.targets, site, t);
        }
        functions', work' := AddTargets(index.targets[site], functions, work);
      }
    }
    if caller !in functions' {
      functions', work' := functions' + {caller}, work' + [caller];
    }
    TakenKeepsProgress(p, index, accessors, callee, caller, callsite, functions, sites, work, functions', sites', work', more);
  }

  lemma TakenKeepsProgress(
      p: Program, index: Index, accessors: set<nat>, callee: nat, caller: nat, callsite: Option<nat>,
      functions: set<nat>, sites: set<nat>, work: seq<nat>, functions': set<nat>, sites': set<nat>, work': seq<nat>,
      more: set<nat>)
    requires p.Valid() && IndexOk(p, index) && callee in functions && p.InternalCall(caller, callee, callsite)
    requires Progress(p, accessors, functions, sites, work, {callee})
    requires functions' == functions + more && sites' == if callsite.Some? then sites + {callsite.value} else sites
    requires forall f :: f in work' <==> f in work || (f in more && f !in functions)
    requires forall t | t in more :: t == caller || (callsite.Some? && p.Targets(callsite.value, t))
    requires callsite.Some? && callsite.value !in sites && callsite.value in index.targets ==> index.targets[callsite.value] <= more
    ensures Progress(p, accessors, functions', sites', work', {callee})
  {
    NeededCall(p, accessors, functions, sites, caller, callee, callsite, more);
    forall f | f in functions'
      ensures f < |p.funcs|
    {
      if f !in functions && f != caller {
        var c: nat :| p.InternalCall(c, f, callsite);
      }
    }
    forall f {:trigger Done(p, functions', sites', f)} | f in functions' && f !in work' && f !in {callee}
      ensures Done(p, functions', sites', f)
    {
      assert Done(p, functions, sites, f);
    }
    forall s: nat, t: nat {:trigger p.Targets(s, t)} | s in sites' && p.Targets(s, t)
      ensures t in functions'
    {
      if s !in sites {
        assert HasTarget(index.targets, s, t);
      }
    }
  }

  /** Takes in every caller of `callee`. */
  method TakeCallers(
      p: Program, index: Index, ghost accessors: set<nat>, callee: nat, functions: set<nat>, sites: set<nat>, work: seq<nat>)
    returns (functions': set<nat>, sites': set<nat>, work': seq<nat>)
    requires p.Valid() && IndexOk(p, index) && callee in functions
    requires Progress(p, accessors, functions, sites, work, {callee})
    ensures Progress(p, accessors, functions', sites', work', {})
    ensures functions <= functions' && (functions' == functions ==> work' == work)
  {
    functions', sites', work' := functions, sites, work;
    var callers := index.callers[callee];
    for i := 0 to |callers|
      invariant Progress(p, accessors, functions', sites', work', {callee})
      invariant functions <= functions' && (functions' == functions ==> work' == work)
      invariant forall j | 0 <= j < i ::
                  callers[j].0 in functions' && (callers[j].1.Some? ==> callers[j].1.value in sites')
    {
      var (caller, callsite) := callers[i];
      assert (caller, callsite) in callers;
      functions', sites', work' := TakeCaller(p, index, accessors, callee, caller, callsite, functions', sites', work');
    }
    forall c: nat, s: Option<nat> | p.InternalCall(c, callee, s)
      ensures c in functions' && (s.Some? ==> s.value in sites')
    {
      assert (c, s) in callers;
    }
    assert Done(p, functions', sites', callee);
  }

  lemma InRangeSize(functions: set<nat>, n: nat)
    requires forall f | f in functions :: f < n
    ensures |functions| <= n
  {
    assert functions <= Below(n);
    SubsetSize(functions, Below(n));
  }

  /** The fixpoint of one field. */
  method CloseField(p: Program, index: Index, accessors: seq<nat>) returns (functions: set<nat>, sites: set<nat>)
    requires p.Valid() && IndexOk(p, index) && forall a | a in accessors :: a < |p.funcs|
    ensures IsLeast(p, Elements(accessors), functions, sites) && forall f | f in functions :: f < |p.funcs|
  {
    functions, sites := Elements(accessors), {};
    var work := accessors;
    assert forall f | f in functions :: f in accessors;
    while work != []
      invariant Progress(p, Elements(accessors), functions, sites, work, {})
      decreases |p.funcs| - |functions|, |work|
    {
      var callee := work[|work| - 1];
      ghost var before := functions;
      InRangeSize(before, |p.funcs|);
      assert forall f | f in work && f != callee :: f in work[..|work| - 1];
      work := work[..|work| - 1];
      functions, sites, work := TakeCallers(p, index, Elements(accessors), callee, functions, sites, work);
      InRangeSize(functions, |p.funcs|);
      SubsetSize(before, functions);
    }
    forall c: nat, f: nat, s: Option<nat> | f in functions && p.InternalCall(c, f, s)
      ensures c in functions && (s.Some? ==> s.value in sites)
    {
      assert Done(p, functions, sites, f);
    }
  }

  // ---------------------------------------------------------------------------------------------
  // Blockers

  /** What keeps a field's slice from being rewritten. */
  ghost predicate IsBlocker(p: Program, users: set<string>, functions: set<nat>, sites: set<nat>, b: Blocker) {
    match b
    case UnknownCallerTaint(f) => f in functions && f < |p.funcs| && p.HasUnknownCaller(f) && !p.EnteredByRuntime(f)
    case UnlocatableCallsite(f, s) => s in sites && s < |p.callsites| && f == p.callsites[s].caller && !p.ExactlyLocated(s)
    case UnknownCalleeTaint(f, s) => s in sites && s < |p.callsites| && f == p.callsites[s].caller && p.HasUnknownCallee(s)
    case InitializerDependency(i) => i in users
  }

  /** Everything about the slice is known: no obstacle of any kind is left in it. */
  ghost predicate Rewritable(p: Program, users: set<string>, functions: set<nat>, sites: set<nat>) {
    && (forall f | f in functions && f < |p.funcs| && p.HasUnknownCaller(f) :: p.EnteredByRuntime(f))
    && (forall s | s in sites :: s < |p.callsites| && p.ExactlyLocated(s) && !p.HasUnknownCallee(s))
    && users == {}
  }

  lemma NoBlockersMeansRewritable(
      p: Program, users: set<string>, functions: set<nat>, sites: set<nat>, blockers: set<Blocker>)
    requires forall b :: b in blockers <==> IsBlocker(p, users, functions, sites, b)
    requires forall s | s in sites :: s < |p.callsites|
    ensures blockers == {} <==> Rewritable(p, users, functions, sites)
  {
    assert forall i | i in users :: InitializerDependency(i) in blockers;
    if blockers == {} {
      forall f | f in functions && f < |p.funcs| && p.HasUnknownCaller(f)
        ensures p.EnteredByRuntime(f)
      {
        assert UnknownCallerTaint(f) !in blockers;
      }
      forall s | s in sites
        ensures p.ExactlyLocated(s) && !p.HasUnknownCallee(s)
      {
        assert UnlocatableCallsite(p.callsites[s].caller, s) !in blockers;
        assert UnknownCalleeTaint(p.callsites[s].caller, s) !in blockers;
      }
    }
    if Rewritable(p, users, functions, sites) {
      forall b: Blocker
        ensures b !in blockers
      {
        assert b in blockers <==> IsBlocker(p, users, functions, sites, b);
      }
    }
  }

  method CallerBlockers(p: Program, index: Index, functions: set<nat>) returns (blockers: set<Blocker>)
    requires IndexOk(p, index) && forall f | f in functions :: f < |p.funcs|
    ensures forall b :: b in blockers <==> b.UnknownCallerTaint? && IsBlocker(p, {}, functions, {}, b)
  {
    blockers := {};
    var rest := functions;
    while rest != {}
      invariant rest <= functions
      invariant forall b :: b in blockers <==> b.UnknownCallerTaint? && IsBlocker(p, {}, functions - rest, {}, b)
    {
      var f :| f in rest;
      rest := rest - {f};
      if index.unknownCallers[f] && !p.ExecutableEntry(f) {
        blockers := blockers + {UnknownCallerTaint(f)};
      }
    }
  }

  /** The test for a rewritten target at a callsite with an unresolved alternative always succeeds. */
  method SiteBlockers(p: Program, index: Index, functions: set<nat>, sites: set<nat>) returns (blockers: set<Blocker>)
    requires IndexOk(p, index) && forall s | s in sites :: s < |p.callsites| && exists t: nat :: t in functions && p.Targets(s, t)
    ensures forall b :: b in blockers <==>
              (b.UnlocatableCallsite? || b.UnknownCalleeTaint?) && IsBlocker(p, {}, {}, sites, b)
  {
    blockers := {};
    var rest := sites;
    while rest != {}
      invariant rest <= sites
      invariant forall b :: b in blockers <==>
                  (b.UnlocatableCallsite? || b.UnknownCalleeTaint?) && IsBlocker(p, {}, {}, sites - rest, b)
    {
      var s :| s in rest;
      rest := rest - {s};
      var caller := p.callsites[s].caller;
      if !p.Located(s) {
        blockers := blockers + {UnlocatableCallsite(caller, s)};
      }
      ghost var t: nat :| t in functions && p.Targets(s, t);
      assert HasTarget(index.targets, s, t);
      if s in index.unknownSites && s in index.targets && exists target :: target in index.targets[s] && target in functions {
        blockers := blockers + {UnknownCalleeTaint(caller, s)};
      }
    }
  }

  // ---------------------------------------------------------------------------------------------
  // The plan

  datatype Plan = Plan(functions: set<nat>, sites: set<nat>, fields: seq<FieldPlan>)

  /** Only mutable, defined globals with accessors get a field. */
  predicate Planned(globals: seq<GlobalInfo>, roots: seq<seq<nat>>, i: nat) {
    i < |globals| && i < |roots| && globals[i].mutable && globals[i].isDefinition && roots[i] != []
  }

  ghost predicate GetsField(globals: seq<GlobalInfo>, roots: seq<seq<nat>>, i: nat) {
    && i < |globals| && i < |roots| && globals[i] == GlobalInfo(globals[i].key, true, true)
    && exists accessor :: accessor in roots[i]
  }

  /** The initializers that use the address of the global. */
  ghost function AddressUsers(users: map<string, set<string>>, key: string): set<string> {
    set user | key in users && user in users[key]
  }

  lemma PlannedGetsField(globals: seq<GlobalInfo>, roots: seq<seq<nat>>, i: nat)
    ensures Planned(globals, roots, i) <==> GetsField(globals, roots, i)
  {
    if Planned(globals, roots, i) {
      assert roots[i][0] in roots[i];
    }
  }

  ghost predicate FieldOk(
      p: Program, globals: seq<GlobalInfo>, roots: seq<seq<nat>>, users: map<string, set<string>>, field: FieldPlan) {
    && GetsField(globals, roots, field.field)
    && field.accessors == Elements(roots[field.field])
    && IsLeast(p, field.accessors, field.functions, field.sites)
    && (forall b :: b in field.blockers <==>
          IsBlocker(p, AddressUsers(users, globals[field.field].key), field.functions, field.sites, b))
    && (field.blockers == {} <==>
          Rewritable(p, AddressUsers(users, globals[field.field].key), field.functions, field.sites))
  }

  function UsersOf(users: map<string, set<string>>, key: string): set<string> {
    if key in users then users[key] else {}
  }

  method PlanField(
      p: Program, index: Index, globals: seq<GlobalInfo>, roots: seq<seq<nat>>, users: map<string, set<string>>, i: nat)
    returns (field: FieldPlan)
    requires p.Valid() && IndexOk(p, index) && Planned(globals, roots, i) && forall a | a in roots[i] :: a < |p.funcs|
    ensures FieldOk(p, globals, roots, users, field) && field.field == i
  {
    var functions, sites := CloseField(p, index, roots[i]);
    forall s | s in sites
      ensures s < |p.callsites| && exists t: nat :: t in functions && p.Targets(s, t)
    {
      SitesHaveTargets(p, Elements(roots[i]), functions, sites, s);
    }
    var callerBlockers := CallerBlockers(p, index, functions);
    var siteBlockers := SiteBlockers(p, index, functions, sites);
    var initializers := UsersOf(users, globals[i].key);
    assert initializers == AddressUsers(users, globals[i].key);
    PlannedGetsField(globals, roots, i);
    var blockers := callerBlockers + siteBlockers + set initializer | initializer in initializers :: InitializerDependency(initializer);
    NoBlockersMeansRewritable(p, initializers, functions, sites, blockers);
    field := FieldPlan(i, Elements(roots[i]), functions, sites, blockers);
  }

  /** One field per planned global, in order; the plan's sets are the unions over the fields. */
  method ComputeContextRewritePlan(
      p: Program, globals: seq<GlobalInfo>, roots: seq<seq<nat>>, users: map<string, set<string>>)
    returns (plan: Plan)
    requires p.Valid() && |roots| == |globals|
    requires forall i, a | 0 <= i < |roots| && a in roots[i] :: a < |p.funcs|
    ensures forall field | field in plan.fields :: FieldOk(p, globals, roots, users, field)
    ensures forall i: nat :: GetsField(globals, roots, i) <==> exists field :: field in plan.fields && field.field == i
    ensures forall i, j | 0 <= i < j < |plan.fields| :: plan.fields[i].field < plan.fields[j].field
    ensures forall f: nat :: f in plan.functions <==> exists field :: field in plan.fields && f in field.functions
    ensures forall s: nat :: s in plan.sites <==> exists field :: field in plan.fields && s in field.sites
  {
    hide IndexOk, FieldOk;
    var index := BuildIndex(p);
    plan := Plan({}, {}, []);
    for i := 0 to |globals|
      invariant forall k | 0 <= k < |plan.fields| :: FieldOk(p, globals, roots, users, plan.fields[k]) && plan.fields[k].field < i
      invariant forall k: nat :: k < i && GetsField(globals, roots, k) <==> exists field :: field in plan.fields && field.field == k
      invariant forall k, j | 0 <= k < j < |plan.fields| :: plan.fields[k].field < plan.fields[j].field
      invariant forall f: nat :: f in plan.functions <==> exists field :: field in plan.fields && f in field.functions
      invariant forall s: nat :: s in plan.sites <==> exists field :: field in plan.fields && s in field.sites
    {
      PlannedGetsField(globals, roots, i);
      hide GetsField;
      if Planned(globals, roots, i) {
        var field := PlanField(p, index, globals, roots, users, i);
        plan := Plan(plan.functions + field.functions, plan.sites + field.sites, plan.fields + [field]);
      }
    }
  }
}
