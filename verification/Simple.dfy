/**
 The B2 simple-flow resolver: a depth-bounded backward walk from an indirect-call operand that cuts
 cycles only while their nodes are on the stack.
 */
module Simple {
  import opened Paths
  import opened Sorting
  import opened Pir
  import opened Producers
  import opened Chains
  import opened Preanalysis

  datatype WalkResult = Simple | Complex

  ghost function SiteOf(a: ActualSite): (nat, nat) {
    (a.caller, a.stmt)
  }

  ghost function Sites(list: seq<ActualSite>): set<(nat, nat)> {
    set a | a in list :: SiteOf(a)
  }

  ghost predicate AllActuals(c: Config, list: seq<ActualSite>, f: nat, i: nat) {
    forall a | a in list :: IsActualSite(c, a, f, i)
  }

  ghost predicate DistinctSites(list: seq<ActualSite>) {
    forall j, k | 0 <= j < k < |list| :: SiteOf(list[j]) != SiteOf(list[k])
  }

  lemma {:induction false} DistinctSitesCount(list: seq<ActualSite>)
    requires DistinctSites(list)
    ensures |Sites(list)| == |list|
  {
    if list != [] {
      var first, rest := list[0], list[1..];
      assert list == [first] + rest;
      DistinctSitesCount(rest);
      assert Sites(list) == Sites(rest) + {SiteOf(first)};
      assert SiteOf(first) !in Sites(rest);
    }
  }

  lemma ActualSitesCount(c: Config, list: seq<ActualSite>, f: nat, i: nat)
    requires NoDuplicates(list) && AllActuals(c, list, f, i)
    ensures |Sites(list)| == |list|
  {
    forall j, k | 0 <= j < k < |list|
      ensures SiteOf(list[j]) != SiteOf(list[k])
    {
      SiteDetermines(c, list[j], list[k], f, i);
    }
    DistinctSitesCount(list);
  }

  lemma SiteDetermines(c: Config, a: ActualSite, b: ActualSite, f: nat, i: nat)
    requires IsActualSite(c, a, f, i) && IsActualSite(c, b, f, i)
    ensures SiteOf(a) == SiteOf(b) ==> a == b
  {
  }

  /** The two counts agree exactly when every direct call passes the argument. */
  lemma CountsAgree(c: Config, ix: Index, f: nat, i: nat)
    requires IndexOk(c, ix) && f < |ix.directCallCount|
    ensures |Listed(ix.directActuals, (f, i))| == ix.directCallCount[f] <==>
            forall g: nat, s: nat | CallsDirectly(c, g, s, f) :: i < |Body(c, g)[s].args|
    ensures ix.directCallCount[f] == 0 <==> !exists g: nat, s: nat :: CallsDirectly(c, g, s, f)
  {
    var list := Listed(ix.directActuals, (f, i));
    ActualSitesCount(c, list, f, i);
    var passing := Sites(list);
    var calls := DirectCalls(c, f);
    assert passing <= calls;
    if |list| == |calls| {
      SubsetOfSameSize(passing, calls);
      forall g: nat, s: nat | CallsDirectly(c, g, s, f)
        ensures i < |Body(c, g)[s].args|
      {
        assert (g, s) in passing;
      }
    }
    if forall g: nat, s: nat | CallsDirectly(c, g, s, f) :: i < |Body(c, g)[s].args| {
      forall site | site in calls
        ensures site in passing
      {
        var a := ActualSite(site.0, site.1, Body(c, site.0)[site.1].args[i]);
        assert a in list && SiteOf(a) == site;
      }
      assert passing == calls;
    }
    if ix.directCallCount[f] != 0 {
      var site :| site in calls;
      assert CallsDirectly(c, site.0, site.1, f);
    }
    forall g: nat, s: nat | CallsDirectly(c, g, s, f)
      ensures calls != {}
    {
      assert (g, s) in calls;
    }
  }

  lemma SubsetOfSameSize<T>(a: set<T>, b: set<T>)
    requires a <= b && |a| == |b|
    ensures a == b
  {
    assert b == a + (b - a);
  }

  // ---------------------------------------------------------------------------------------------
  // What a walk has established

  /** Everything `n` produces outside `avoid` can be followed, and its function symbols are in `origins`. */
  ghost predicate Complete(c: Config, n: Node, avoid: set<Node>, origins: set<Origin>) {
    forall x {:trigger ReachAvoiding(Flow(c), avoid, n, x)} | ReachAvoiding(Flow(c), avoid, n, x) ::
      !Stuck(c, x) && (x.Symbol? ==> x.origin in origins)
  }

  ghost predicate Sound(c: Config, n: Node, t0: set<Origin>, t1: set<Origin>) {
    t0 <= t1 && forall t {:trigger Symbol(t)} | t in t1 && t !in t0 :: Produces(c, n, Symbol(t))
  }

  ghost predicate Broken(c: Config, n: Node) {
    exists x :: Produces(c, n, x) && Faulty(c, x)
  }

  /** The contract of resolving `n` while `avoid` is on the stack. */
  ghost predicate Outcome(c: Config, n: Node, avoid: set<Node>, t0: set<Origin>, t1: set<Origin>, r: WalkResult) {
    Sound(c, n, t0, t1) && if r.Simple? then Complete(c, n, avoid, t1) else Broken(c, n)
  }

  /** The same for a value used at `before`, which may also come too early. */
  ghost predicate ValueOutcome(
    c: Config, n: Node, before: nat, avoid: set<Node>, t0: set<Origin>, t1: set<Origin>, r: WalkResult)
  {
    Sound(c, n, t0, t1) && if r.Simple? then Complete(c, n, avoid, t1) else Late(c, n, before) || Broken(c, n)
  }

  ghost predicate ProducersComplete(c: Config, n: Node, avoid: set<Node>, origins: set<Origin>) {
    !Stuck(c, n) && forall m, pos | Uses(c, n, m, pos) :: Complete(c, m, avoid, origins)
  }

  lemma FaultyIsBroken(c: Config, n: Node)
    requires Faulty(c, n)
    ensures Broken(c, n)
  {
    ReachSelf(Flow(c), n);
  }

  lemma CompleteGrows(c: Config, n: Node, avoid: set<Node>, t0: set<Origin>, t1: set<Origin>)
    requires Complete(c, n, avoid, t0) && t0 <= t1
    ensures Complete(c, n, avoid, t1)
  {
  }

  /** A node is complete once its producers are, even if the stack only gained the node itself. */
  lemma CompleteFromProducers(c: Config, n: Node, avoid: set<Node>, more: set<Node>, origins: set<Origin>)
    requires !n.Symbol? && ProducersComplete(c, n, more, origins) && (more == avoid || more == avoid + {n})
    ensures Complete(c, n, avoid, origins)
  {
    forall x {:trigger ReachAvoiding(Flow(c), avoid, n, x)} | ReachAvoiding(Flow(c), avoid, n, x)
      ensures !Stuck(c, x) && (x.Symbol? ==> x.origin in origins)
    {
      if x != n {
        var m;
        if more == avoid {
          m := ReachAvoidingFirst(Flow(c), avoid, n, x);
        } else {
          m := ReachAvoidingSplit(Flow(c), avoid, n, x);
        }
        assert Feeds(c, n, m);
        var pos :| Uses(c, n, m, pos);
        assert ReachAvoiding(Flow(c), more, m, x);
      }
    }
  }

  /** A node on the stack is cut: nothing outside the stack is reached through it. */
  lemma CutIsComplete(c: Config, n: Node, avoid: set<Node>, origins: set<Origin>)
    requires n in avoid
    ensures Complete(c, n, avoid, origins)
  {
    forall x {:trigger ReachAvoiding(Flow(c), avoid, n, x)} | ReachAvoiding(Flow(c), avoid, n, x)
      ensures false
    {
      ReachAvoidingWeaken(Flow(c), avoid, n, x);
    }
  }

  lemma SymbolIsComplete(c: Config, t: Origin, avoid: set<Node>, origins: set<Origin>)
    requires t in origins
    ensures Complete(c, Symbol(t), avoid, origins)
  {
    assert forall m :: !Feeds(c, Symbol(t), m);
    forall x {:trigger ReachAvoiding(Flow(c), avoid, Symbol(t), x)} | ReachAvoiding(Flow(c), avoid, Symbol(t), x)
      ensures !Stuck(c, x) && (x.Symbol? ==> x.origin in origins)
    {
      if x != Symbol(t) {
        var _ := ReachAvoidingFirst(Flow(c), avoid, Symbol(t), x);
      }
    }
  }

  lemma SoundThrough(c: Config, n: Node, m: Node, pos: nat, t0: set<Origin>, t1: set<Origin>)
    requires Uses(c, n, m, pos) && Sound(c, m, t0, t1)
    ensures Sound(c, n, t0, t1)
  {
    assert Feeds(c, n, m);
    ReachEdge(Flow(c), n, m);
    forall t {:trigger Symbol(t)} | t in t1 && t !in t0
      ensures Produces(c, n, Symbol(t))
    {
      ReachTrans(Flow(c), n, m, Symbol(t));
    }
  }

  lemma SoundSelf(c: Config, n: Node, t: set<Origin>)
    ensures Sound(c, n, t, t)
  {
  }

  lemma SoundJoin(c: Config, n: Node, t0: set<Origin>, t1: set<Origin>, t2: set<Origin>)
    requires Sound(c, n, t0, t1) && Sound(c, n, t1, t2)
    ensures Sound(c, n, t0, t2)
  {
  }

  lemma BrokenThrough(c: Config, n: Node, m: Node, pos: nat)
    requires Uses(c, n, m, pos) && (Late(c, m, pos) || Broken(c, m))
    ensures Broken(c, n)
  {
    if Late(c, m, pos) {
      FaultyIsBroken(c, n);
    } else {
      assert Feeds(c, n, m);
      ReachEdge(Flow(c), n, m);
      var x :| Produces(c, m, x) && Faulty(c, x);
      ReachTrans(Flow(c), n, m, x);
      assert Produces(c, n, x);
    }
  }

  /** One more producer `m` of `n` resolved: what holds of `n` and of earlier producers afterwards. */
  lemma Absorb(c: Config, n: Node, m: Node, pos: nat, avoid: set<Node>, t0: set<Origin>, t: set<Origin>, t1: set<Origin>, r: WalkResult)
    requires Uses(c, n, m, pos) && Sound(c, n, t0, t) && ValueOutcome(c, m, pos, avoid, t, t1, r)
    ensures Sound(c, n, t0, t1)
    ensures r.Complex? ==> Broken(c, n)
    ensures r.Simple? ==> Complete(c, m, avoid, t1)
    ensures forall x {:trigger Complete(c, x, avoid, t1)} | Complete(c, x, avoid, t) :: Complete(c, x, avoid, t1)
  {
    SoundThrough(c, n, m, pos, t, t1);
    if r.Complex? {
      BrokenThrough(c, n, m, pos);
    }
    forall x | Complete(c, x, avoid, t)
      ensures Complete(c, x, avoid, t1)
    {
      CompleteGrows(c, x, avoid, t, t1);
    }
  }

  /** `m` is the only producer of `n`. */
  ghost predicate OnlyProducer(c: Config, n: Node, m: Node, pos: nat) {
    !n.Symbol? && !Stuck(c, n) && Uses(c, n, m, pos) && forall x, p | Uses(c, n, x, p) :: x == m && (m.Val? ==> p == pos)
  }

  lemma ThroughOnly(c: Config, n: Node, m: Node, pos: nat, avoid: set<Node>, t0: set<Origin>, t1: set<Origin>, r: WalkResult)
    requires OnlyProducer(c, n, m, pos) && ValueOutcome(c, m, pos, avoid, t0, t1, r)
    ensures Outcome(c, n, avoid, t0, t1, r)
    ensures r.Simple? ==> ProducersComplete(c, n, avoid, t1)
  {
    SoundThrough(c, n, m, pos, t0, t1);
    if r.Complex? {
      BrokenThrough(c, n, m, pos);
    } else {
      CompleteFromProducers(c, n, avoid, avoid, t1);
    }
  }

  /** Giving up on `n` is giving up on its only producer. */
  lemma FailsThroughOnly(c: Config, n: Node, m: Node, pos: nat, avoid: set<Node>)
    requires OnlyProducer(c, n, m, pos)
    ensures UsesFail(c, n, avoid) <==> Fails(c, m, pos, avoid)
  {
    if UsesFail(c, n, avoid) {
      var x, p :| Uses(c, n, x, p) && Fails(c, x, p, avoid);
      if !m.Val? {
        FailsAnywhere(c, m, p, pos, avoid);
      }
    }
  }

  lemma ResolvedSymbol(c: Config, n: Node, t: Origin, avoid: set<Node>, t0: set<Origin>)
    requires OnlyProducer(c, n, Symbol(t), 0)
    ensures Outcome(c, n, avoid, t0, t0 + {t}, Simple)
  {
    ReachSelf(Flow(c), Symbol(t));
    SymbolIsComplete(c, t, avoid, t0 + {t});
    ThroughOnly(c, n, Symbol(t), 0, avoid, t0, t0 + {t}, Simple);
  }

  /** The walk gives up on the value stored at `site`. */
  ghost predicate StoreFails(c: Config, site: StoreSite, d: nat, avoid: set<Node>) {
    match site
    case InFunction(f, s) => IsStmt(c, f, s) && Body(c, f)[s].Store? && Fails(c, Val(f, Body(c, f)[s].value, d), s, avoid)
    case InGlobalInit(s) =>
      s < |c.module_.globalInit| && c.module_.globalInit[s].Store? && Fails(c, Init(s, c.module_.globalInit[s].value, d), s, avoid)
  }

  lemma NoStoreFails(c: Config, ix: Index, place: Place, d: nat, avoid: set<Node>)
    requires IndexOk(c, ix)
    requires forall site | site in Listed(ix.storesByPlace, place) :: !StoreFails(c, site, d, avoid)
    ensures !UsesFail(c, At(place, d), avoid)
  {
    forall m, pos | Uses(c, At(place, d), m, pos)
      ensures !Fails(c, m, pos, avoid)
    {
      var site := if m.Val? then InFunction(m.func, pos) else InGlobalInit(pos);
      assert IsStoreSite(c, site, place);
      assert site in Listed(ix.storesByPlace, place);
    }
  }

  lemma StoreFailsThrough(c: Config, site: StoreSite, place: Place, d: nat, avoid: set<Node>)
    requires StoreFails(c, site, d, avoid) && IsStoreSite(c, site, place) && d <= c.depthLimit
    ensures UsesFail(c, At(place, d), avoid)
  {
    match site
    case InFunction(f, s) => assert Uses(c, At(place, d), Val(f, Body(c, f)[s].value, d), s);
    case InGlobalInit(s) => assert Uses(c, At(place, d), Init(s, c.module_.globalInit[s].value, d), s);
  }

  /** The value stored at `site` is complete. */
  ghost predicate StoreComplete(c: Config, site: StoreSite, d: nat, avoid: set<Node>, origins: set<Origin>) {
    match site
    case InFunction(f, s) =>
      IsStmt(c, f, s) && Body(c, f)[s].Store? && Complete(c, Val(f, Body(c, f)[s].value, d), avoid, origins)
    case InGlobalInit(s) =>
      s < |c.module_.globalInit| && c.module_.globalInit[s].Store?
      && Complete(c, Init(s, c.module_.globalInit[s].value, d), avoid, origins)
  }

  lemma StoreCompleteGrows(c: Config, site: StoreSite, d: nat, avoid: set<Node>, t0: set<Origin>, t1: set<Origin>)
    requires StoreComplete(c, site, d, avoid, t0) && t0 <= t1
    ensures StoreComplete(c, site, d, avoid, t1)
  {
  }

  lemma NoStores(c: Config, ix: Index, place: Place, d: nat)
    requires IndexOk(c, ix) && Listed(ix.storesByPlace, place) == []
    ensures Stuck(c, At(place, d))
  {
    if exists f, s :: StoresAt(c, f, s, place) {
      var f, s :| StoresAt(c, f, s, place);
      assert IsStoreSite(c, InFunction(f, s), place);
    }
    if exists s :: InitStoresAt(c, s, place) {
      var s :| InitStoresAt(c, s, place);
      assert IsStoreSite(c, InGlobalInit(s), place);
    }
  }

  lemma PlaceProducers(c: Config, ix: Index, place: Place, d: nat, avoid: set<Node>, origins: set<Origin>)
    requires IndexOk(c, ix) && d <= c.depthLimit && SafeGlobal(c, place.root) && Listed(ix.storesByPlace, place) != []
    requires forall site | site in Listed(ix.storesByPlace, place) :: StoreComplete(c, site, d, avoid, origins)
    ensures ProducersComplete(c, At(place, d), avoid, origins)
  {
    var n, stores := At(place, d), Listed(ix.storesByPlace, place);
    assert stores[0] in stores && IsStoreSite(c, stores[0], place);
    forall m, pos | Uses(c, n, m, pos)
      ensures Complete(c, m, avoid, origins)
    {
      var site := if m.Val? then InFunction(m.func, pos) else InGlobalInit(pos);
      assert IsStoreSite(c, site, place);
      assert site in stores;
    }
  }

  lemma ParamStuck(c: Config, ix: Index, callee: nat, param: nat, d: nat)
    requires IndexOk(c, ix) && callee < |c.module_.functions|
    requires ix.directCallCount[callee] == 0
          || |Listed(ix.directActuals, (callee, param))| != ix.directCallCount[callee]
    ensures Stuck(c, Param(callee, param, d))
  {
    CountsAgree(c, ix, callee, param);
  }

  lemma ParamProducers(c: Config, ix: Index, callee: nat, param: nat, d: nat, avoid: set<Node>, origins: set<Origin>)
    requires IndexOk(c, ix) && d <= c.depthLimit && callee < |c.module_.functions| && !c.externallyCallable[callee]
    requires ix.directCallCount[callee] != 0
    requires |Listed(ix.directActuals, (callee, param))| == ix.directCallCount[callee]
    requires forall a | a in Listed(ix.directActuals, (callee, param)) ::
               Complete(c, Val(a.caller, a.actual, d), avoid, origins)
    ensures ProducersComplete(c, Param(callee, param, d), avoid, origins)
  {
    CountsAgree(c, ix, callee, param);
    var n := Param(callee, param, d);
    forall m, pos | Uses(c, n, m, pos)
      ensures Complete(c, m, avoid, origins)
    {
      var a := ActualSite(m.func, pos, m.value);
      assert IsActualSite(c, a, callee, param);
      assert a in Listed(ix.directActuals, (callee, param));
    }
  }

  lemma NoActualFails(c: Config, ix: Index, callee: nat, param: nat, d: nat, avoid: set<Node>)
    requires IndexOk(c, ix)
    requires forall a | a in Listed(ix.directActuals, (callee, param)) :: !Fails(c, Val(a.caller, a.actual, d), a.stmt, avoid)
    ensures !UsesFail(c, Param(callee, param, d), avoid)
  {
    forall m, pos | Uses(c, Param(callee, param, d), m, pos)
      ensures !Fails(c, m, pos, avoid)
    {
      var a := ActualSite(m.func, pos, m.value);
      assert IsActualSite(c, a, callee, param);
      assert a in Listed(ix.directActuals, (callee, param));
    }
  }

  /** The initializer assignment that defines `n`, once all its sources are resolved. */
  lemma InitSourcesDone(c: Config, n: Node, before: nat, sources: seq<string>, d: nat, avoid: set<Node>, origins: set<Origin>)
    requires n.Init? && n.depth == d && d <= c.depthLimit && NamedFunction(c, n.value).None? && !NamesGlobal(c, n.value)
    requires GlobalInitDefinitionBefore(c.module_, n.before, n.value) == Some(before)
    requires c.module_.globalInit[before].Assign? && c.module_.globalInit[before].sources == sources && sources != []
    requires forall j | 0 <= j < |sources| ::
               Complete(c, Init(before, sources[j], d), avoid, origins) && !Fails(c, Init(before, sources[j], d), 0, avoid)
    ensures Complete(c, n, avoid, origins) && !Stuck(c, n) && !UsesFail(c, n, avoid)
  {
    forall m, pos | Uses(c, n, m, pos)
      ensures Complete(c, m, avoid, origins) && !Fails(c, m, pos, avoid)
    {
      var j :| 0 <= j < |sources| && sources[j] == m.value;
      assert m == Init(before, sources[j], d);
      FailsAnywhere(c, m, pos, 0, avoid);
    }
    CompleteFromProducers(c, n, avoid, avoid, origins);
  }

  lemma ActualFailsThrough(c: Config, a: ActualSite, callee: nat, param: nat, d: nat, avoid: set<Node>)
    requires IsActualSite(c, a, callee, param) && d <= c.depthLimit && Fails(c, Val(a.caller, a.actual, d), a.stmt, avoid)
    ensures UsesFail(c, Param(callee, param, d), avoid)
  {
    assert Uses(c, Param(callee, param, d), Val(a.caller, a.actual, d), a.stmt);
  }

  /** Every operand of the module is among the walk's values. */
  ghost predicate Covers(c: Config, values: set<string>) {
    (forall f: nat, s: nat, v | IsStmt(c, f, s) && v in Operands(Body(c, f)[s]) :: v in values)
  }

  // ---------------------------------------------------------------------------------------------
  // The walk

  class BackwardWalk {
    const c: Config
    const index: Index
    ghost const values: set<string>
    var visiting: set<Node>
    var origins: set<Origin>

    constructor (c: Config, index: Index, ghost values: set<string>)
      ensures this.c == c && this.index == index && this.values == values && visiting == {} && origins == {}
    {
      this.c, this.index, this.values, visiting, origins := c, index, values, {}, {};
    }

    ghost predicate Ready() {
      IndexOk(c, index) && Covers(c, values)
    }

    ghost predicate SafeRoot(g: string) {
      SafeGlobal(c, g)
    }

    predicate GlobalPlaceIsSimple(root: string) {
      root !in c.externallyWritable && IsGlobal(c.module_, root) && root !in index.unsafeGlobals
    }

    // Termination: depth, then room for further nodes on the stack, then how far a step is from
    // putting a node there.

    ghost function Left(d: nat): nat {
      if d > c.depthLimit then 0 else c.depthLimit + 1 - d
    }

    ghost function Room(): set<Node>
      reads this
    {
      (set f: nat, v: string, d: nat |
         f < |c.module_.functions| && v in values && d <= c.depthLimit :: Val(f, v, d)) - visiting
    }

    ghost function ValueRank(v: string): nat {
      if NamesGlobal(c, v) && SafeRoot(CanonicalSymbol(v)) then 5 else 1
    }

    ghost function PlaceRank(root: string): nat {
      if SafeRoot(root) then 4 else 0
    }

    method ResolveValue(f: nat, before: nat, v: string, d: nat) returns (r: WalkResult)
      requires Ready() && f < |c.module_.functions| && v in values
      modifies this
      ensures visiting == old(visiting)
      ensures ValueOutcome(c, Val(f, v, d), before, visiting, old(origins), origins, r)
      ensures r.Complex? <==> Fails(c, Val(f, v, d), before, visiting)
      decreases Left(d), Room(), ValueRank(v), 0
    {
      ghost var n := Val(f, v, d);
      FailsUnfold(c, n, before, visiting);
      if d > c.depthLimit {
        FaultyIsBroken(c, n);
        return Complex;
      }
      var target := NamedFunction(c, v);
      if target.Some? {
        var origin := Origin(target.value, Some(f));
        origins := origins + {origin};
        ResolvedSymbol(c, n, origin, visiting, old(origins));
        FailsThroughOnly(c, n, Symbol(origin), 0, visiting);
        SymbolNeverFails(c, origin, 0, visiting);
        return Simple;
      }
      if NamesGlobal(c, v) {
        r := ResolveGlobalPlace(Place(CanonicalSymbol(v), 0), d);
        ThroughOnly(c, n, At(Place(CanonicalSymbol(v), 0), d), 0, visiting, old(origins), origins, r);
        FailsThroughOnly(c, n, At(Place(CanonicalSymbol(v), 0), d), 0, visiting);
        return;
      }
      if Val(f, v, d) in visiting {
        CutIsComplete(c, n, visiting, origins);
        return Simple;
      }
      visiting := visiting + {Val(f, v, d)};
      assert Room() < old(Room()) by {
        assert n in old(Room()) && n !in Room();
      }
      r := ResolveValueInner(f, before, v, d);
      visiting := visiting - {Val(f, v, d)};
      if r.Simple? {
        CompleteFromProducers(c, n, visiting, visiting + {n}, origins);
      }
    }

    method ResolveValueInner(f: nat, before: nat, v: string, d: nat) returns (r: WalkResult)
      requires Ready() && f < |c.module_.functions| && d <= c.depthLimit
      requires NamedFunction(c, v).None? && !NamesGlobal(c, v)
      modifies this
      ensures visiting == old(visiting)
      ensures Sound(c, Val(f, v, d), old(origins), origins)
      ensures r.Simple? ==> ProducersComplete(c, Val(f, v, d), visiting, origins)
      ensures r.Complex? ==> Late(c, Val(f, v, d), before) || Broken(c, Val(f, v, d))
      ensures r.Complex? <==>
                || Stuck(c, Val(f, v, d)) || Late(c, Val(f, v, d), before)
                || UsesFail(c, Val(f, v, d), visiting)
      decreases Left(d), Room(), 9, 0
    {
      hide Complete, Broken, Fails;
      ghost var n := Val(f, v, d);
      var param := ParamIndex(c.module_.functions[f].params, v);
      if param.Some? {
        r := ResolveParamActuals(f, param.value, d + 1);
        ThroughOnly(c, n, Param(f, param.value, d + 1), 0, visiting, old(origins), origins, r);
        FailsThroughOnly(c, n, Param(f, param.value, d + 1), 0, visiting);
        return;
      }
      var def := LastDef(Body(c, f), v);
      if def.None? {
        FaultyIsBroken(c, n);
        return Complex;
      }
      if def.value >= before {
        return Complex;
      }
      match Body(c, f)[def.value]
      case Assign(_, sources) =>
        r := ResolveAllSources(f, def.value, sources, d, n);
      case Gep(_, base, _) =>
        assert base in Operands(Body(c, f)[def.value]);
        r := ResolveValue(f, def.value, base, d);
        ThroughOnly(c, n, Val(f, base, d), def.value, visiting, old(origins), origins, r);
        FailsThroughOnly(c, n, Val(f, base, d), def.value, visiting);
      case Load(_, address) =>
        var place := FunctionPlace(c.module_, Body(c, f), def.value, address);
        if place.Some? {
          r := ResolveGlobalPlace(place.value, d);
          ThroughOnly(c, n, At(place.value, d), def.value, visiting, old(origins), origins, r);
          FailsThroughOnly(c, n, At(place.value, d), def.value, visiting);
        } else {
          FaultyIsBroken(c, n);
          r := Complex;
        }
      case CallDirect(callee, _, _, _) =>
        r := ResolveReturnValues(callee, d + 1, n);
      case _ =>
        FaultyIsBroken(c, n);
        r := Complex;
    }

    /** All sources of the assignment that defines `n`. */
    method ResolveAllSources(f: nat, before: nat, sources: seq<string>, d: nat, ghost n: Node) returns (r: WalkResult)
      requires Ready() && f < |c.module_.functions| && d <= c.depthLimit
      requires n.Val? && n.func == f && n.depth == d && IsLocal(c, f, n.value) && Def(c, f, n.value) == Some(before)
      requires Body(c, f)[before].Assign? && Body(c, f)[before].sources == sources
      modifies this
      ensures visiting == old(visiting)
      ensures Sound(c, n, old(origins), origins)
      ensures r.Simple? ==> ProducersComplete(c, n, visiting, origins)
      ensures r.Complex? ==> Broken(c, n)
      ensures r.Complex? <==> Stuck(c, n) || UsesFail(c, n, visiting)
      decreases Left(d), Room(), 8, 0
    {
      hide Complete, Sound, Broken, Fails;
      SoundSelf(c, n, origins);
      if sources == [] {
        FaultyIsBroken(c, n);
        return Complex;
      }
      for k := 0 to |sources|
        invariant visiting == old(visiting) && Sound(c, n, old(origins), origins)
        invariant forall j | 0 <= j < k :: Complete(c, Val(f, sources[j], d), visiting, origins)
        invariant forall j | 0 <= j < k :: !Fails(c, Val(f, sources[j], d), before, visiting)
      {
        ghost var m, t := Val(f, sources[k], d), origins;
        assert sources[k] in Operands(Body(c, f)[before]) && Uses(c, n, m, before);
        r := ResolveValue(f, before, sources[k], d);
        Absorb(c, n, m, before, visiting, old(origins), t, origins, r);
        if r.Complex? {
          return;
        }
      }
      return Simple;
    }

    /** The values that `callee` returns, for the call that defines `n`. */
    method ResolveReturnValues(callee: string, d: nat, ghost n: Node) returns (r: WalkResult)
      requires Ready() && d <= c.depthLimit + 1
      requires n.Val? && n.depth + 1 == d && IsLocal(c, n.func, n.value) && Def(c, n.func, n.value).Some?
      requires Body(c, n.func)[Def(c, n.func, n.value).value].CallDirect?
      requires Body(c, n.func)[Def(c, n.func, n.value).value].callee == callee
      modifies this
      ensures visiting == old(visiting)
      ensures Sound(c, n, old(origins), origins)
      ensures r.Simple? ==> ProducersComplete(c, n, visiting, origins)
      ensures r.Complex? ==> Broken(c, n)
      ensures r.Complex? <==> Stuck(c, n) || UsesFail(c, n, visiting)
      decreases Left(d), Room(), 8, 1
    {
      var index := NamedFunction(c, callee);
      if index.None? {
        FaultyIsBroken(c, n);
        return Complex;
      }
      r := ResolveReturnsOf(index.value, d);
      ThroughOnly(c, n, Ret(index.value, d), Def(c, n.func, n.value).value, visiting, old(origins), origins, r);
      FailsThroughOnly(c, n, Ret(index.value, d), Def(c, n.func, n.value).value, visiting);
    }

    /** The return statements of one function. */
    method ResolveReturnsOf(callee: nat, d: nat) returns (r: WalkResult)
      requires Ready() && callee < |c.module_.functions|
      modifies this
      ensures visiting == old(visiting)
      ensures Outcome(c, Ret(callee, d), visiting, old(origins), origins, r)
      ensures forall pos :: r.Complex? <==> Fails(c, Ret(callee, d), pos, visiting)
      decreases Left(d), Room(), 8, 0
    {
      hide Fails, Complete, Sound, Broken;
      SoundSelf(c, Ret(callee, d), origins);
      ghost var n := Ret(callee, d);
      FailsEverywhere(c, n, visiting);
      if d > c.depthLimit || c.module_.functions[callee].external {
        FaultyIsBroken(c, n);
        return Complex;
      }
      var sawReturn := false;
      var body := Body(c, callee);
      for s := 0 to |body|
        invariant visiting == old(visiting) && Sound(c, n, old(origins), origins)
        invariant sawReturn <==> exists j: nat :: j < s && ReturnsAt(c, callee, j)
        invariant forall j: nat | j < s && ReturnsAt(c, callee, j) ::
                    Complete(c, Val(callee, body[j].returned.value, d), visiting, origins)
        invariant forall j: nat | j < s && ReturnsAt(c, callee, j) ::
                    !Fails(c, Val(callee, body[j].returned.value, d), j, visiting)
      {
        if body[s].Return? && body[s].returned.Some? {
          sawReturn := true;
          var v := body[s].returned.value;
          ghost var m, t := Val(callee, v, d), origins;
          assert v in Operands(body[s]) && ReturnsAt(c, callee, s) && Uses(c, n, m, s);
          r := ResolveValue(callee, s, v, d);
          Absorb(c, n, m, s, visiting, old(origins), t, origins, r);
          if r.Complex? {
            return;
          }
        }
      }
      if sawReturn {
        CompleteFromProducers(c, n, visiting, visiting, origins);
        return Simple;
      } else {
        FaultyIsBroken(c, n);
        return Complex;
      }
    }

    method ResolveParamActuals(callee: nat, param: nat, d: nat) returns (r: WalkResult)
      requires Ready() && callee < |c.module_.functions|
      modifies this
      ensures visiting == old(visiting)
      ensures Outcome(c, Param(callee, param, d), visiting, old(origins), origins, r)
      ensures forall pos :: r.Complex? <==> Fails(c, Param(callee, param, d), pos, visiting)
      decreases Left(d), Room(), 8, 0
    {
      hide Complete, Sound, Broken, Fails, UsesFail, CallsDirectly;
      SoundSelf(c, Param(callee, param, d), origins);
      ghost var n := Param(callee, param, d);
      FailsEverywhere(c, n, visiting);
      if d > c.depthLimit || c.externallyCallable[callee] {
        FaultyIsBroken(c, n);
        return Complex;
      }
      var callCount := index.directCallCount[callee];
      var actuals := Listed(index.directActuals, (callee, param));
      if callCount == 0 || |actuals| != callCount {
        ParamStuck(c, index, callee, param, d);
        FaultyIsBroken(c, n);
        return Complex;
      }
      for k := 0 to |actuals|
        invariant visiting == old(visiting) && Sound(c, n, old(origins), origins)
        invariant forall j | 0 <= j < k :: Complete(c, Val(actuals[j].caller, actuals[j].actual, d), visiting, origins)
        invariant forall j | 0 <= j < k :: !Fails(c, Val(actuals[j].caller, actuals[j].actual, d), actuals[j].stmt, visiting)
      {
        assert actuals[k] in actuals;
        ghost var t := origins;
        r := ResolveActual(actuals[k], callee, param, d);
        SoundJoin(c, n, old(origins), t, origins);
        if r.Complex? {
          ActualFailsThrough(c, actuals[k], callee, param, d, visiting);
          return;
        }
      }
      ParamProducers(c, index, callee, param, d, visiting, origins);
      NoActualFails(c, index, callee, param, d, visiting);
      CompleteFromProducers(c, n, visiting, visiting, origins);
      return Simple;
    }

    /** The actual argument passed at one call. */
    method ResolveActual(a: ActualSite, callee: nat, param: nat, d: nat) returns (r: WalkResult)
      requires Ready() && d <= c.depthLimit && IsActualSite(c, a, callee, param)
      modifies this
      ensures visiting == old(visiting)
      ensures Sound(c, Param(callee, param, d), old(origins), origins)
      ensures r.Simple? ==> Complete(c, Val(a.caller, a.actual, d), visiting, origins)
      ensures r.Complex? ==> Broken(c, Param(callee, param, d))
      ensures r.Complex? <==> Fails(c, Val(a.caller, a.actual, d), a.stmt, visiting)
      ensures forall x {:trigger Complete(c, x, visiting, origins)} |
                Complete(c, x, old(visiting), old(origins)) :: Complete(c, x, visiting, origins)
      decreases Left(d), Room(), 7, 0
    {
      ghost var n, m := Param(callee, param, d), Val(a.caller, a.actual, d);
      assert a.actual in Operands(Body(c, a.caller)[a.stmt]);
      assert Uses(c, n, m, a.stmt);
      r := ResolveValue(a.caller, a.stmt, a.actual, d);
      Absorb(c, n, m, a.stmt, visiting, old(origins), old(origins), origins, r);
    }

    method ResolveGlobalPlace(place: Place, d: nat) returns (r: WalkResult)
      requires Ready()
      modifies this
      ensures visiting == old(visiting)
      ensures Outcome(c, At(place, d), visiting, old(origins), origins, r)
      ensures forall pos :: r.Complex? <==> Fails(c, At(place, d), pos, visiting)
      decreases Left(d), Room(), PlaceRank(place.root), 0
    {
      hide Fails, UsesFail, StoreFails, StoreComplete, Complete, Sound, Broken;
      SoundSelf(c, At(place, d), origins);
      ghost var n := At(place, d);
      FailsEverywhere(c, n, visiting);
      if d > c.depthLimit || !GlobalPlaceIsSimple(place.root) {
        FaultyIsBroken(c, n);
        return Complex;
      }
      var stores := Listed(index.storesByPlace, place);
      if stores == [] {
        assert Stuck(c, n) by { NoStores(c, index, place, d); }
        FaultyIsBroken(c, n);
        return Complex;
      }
      for k := 0 to |stores|
        invariant visiting == old(visiting) && Sound(c, n, old(origins), origins)
        invariant forall j | 0 <= j < k :: StoreComplete(c, stores[j], d, visiting, origins)
        invariant forall j | 0 <= j < k :: !StoreFails(c, stores[j], d, visiting)
      {
        assert stores[k] in stores && IsStoreSite(c, stores[k], place);
        ghost var t := origins;
        r := ResolveStore(stores[k], place, d);
        SoundJoin(c, n, old(origins), t, origins);
        forall j | 0 <= j < k
          ensures StoreComplete(c, stores[j], d, visiting, origins)
        {
          StoreCompleteGrows(c, stores[j], d, visiting, t, origins);
        }
        if r.Complex? {
          StoreFailsThrough(c, stores[k], place, d, visiting);
          return;
        }
      }
      PlaceProducers(c, index, place, d, visiting, origins);
      NoStoreFails(c, index, place, d, visiting);
      CompleteFromProducers(c, n, visiting, visiting, origins);
      return Simple;
    }

    /** The value stored at one site. */
    method ResolveStore(site: StoreSite, place: Place, d: nat) returns (r: WalkResult)
      requires Ready() && d <= c.depthLimit && IsStoreSite(c, site, place) && SafeRoot(place.root)
      modifies this
      ensures visiting == old(visiting)
      ensures Sound(c, At(place, d), old(origins), origins)
      ensures r.Simple? ==> StoreComplete(c, site, d, visiting, origins)
      ensures r.Complex? ==> Broken(c, At(place, d))
      ensures r.Complex? <==> StoreFails(c, site, d, visiting)
      decreases Left(d), Room(), 3, |c.module_.globalInit| + 1, 1
    {
      ghost var n := At(place, d);
      match site
      case InFunction(f, s) =>
        var v := Body(c, f)[s].value;
        assert v in Operands(Body(c, f)[s]);
        if NamesGlobal(c, v) {
          StoredGlobalIsUnsafe(c, f, s);
        }
        assert Uses(c, n, Val(f, v, d), s);
        r := ResolveValue(f, s, v, d);
        Absorb(c, n, Val(f, v, d), s, visiting, old(origins), old(origins), origins, r);
      case InGlobalInit(s) =>
        var v := c.module_.globalInit[s].value;
        assert Uses(c, n, Init(s, v, d), s);
        r := ResolveGlobalInitValue(s, v, d);
        Absorb(c, n, Init(s, v, d), s, visiting, old(origins), old(origins), origins, r);
    }

    method ResolveGlobalInitValue(before: nat, v: string, d: nat) returns (r: WalkResult)
      requires Ready() && d <= c.depthLimit
      modifies this
      ensures visiting == old(visiting)
      ensures Outcome(c, Init(before, v, d), visiting, old(origins), origins, r)
      ensures forall pos :: r.Complex? <==> Fails(c, Init(before, v, d), pos, visiting)
      decreases Left(d), Room(), 3, before, 0
    {
      ghost var n := Init(before, v, d);
      FailsEverywhere(c, n, visiting);
      var target := NamedFunction(c, v);
      if target.Some? {
        var origin := Origin(target.value, None);
        origins := origins + {origin};
        ResolvedSymbol(c, n, origin, visiting, old(origins));
        FailsThroughOnly(c, n, Symbol(origin), 0, visiting);
        SymbolNeverFails(c, origin, 0, visiting);
        return Simple;
      }
      if NamesGlobal(c, v) {
        var place := Place(CanonicalSymbol(v), 0);
        r := ResolveGlobalPlace(place, d + 1);
        ThroughOnly(c, n, At(place, d + 1), 0, visiting, old(origins), origins, r);
        FailsThroughOnly(c, n, At(place, d + 1), 0, visiting);
        return;
      }
      var def := GlobalInitDefinitionBefore(c.module_, before, v);
      if def.None? {
        FaultyIsBroken(c, n);
        return Complex;
      }
      match c.module_.globalInit[def.value]
      case Assign(_, sources) =>
        r := ResolveAllGlobalInitSources(def.value, sources, d, n);
      case Gep(_, base, _) =>
        r := ResolveGlobalInitValue(def.value, base, d);
        ThroughOnly(c, n, Init(def.value, base, d), 0, visiting, old(origins), origins, r);
        FailsThroughOnly(c, n, Init(def.value, base, d), 0, visiting);
      case _ =>
        FaultyIsBroken(c, n);
        r := Complex;
    }

    /** All sources of the initializer assignment that defines `n`. */
    lemma NoInitSourceIsStuck(n: Node, before: nat)
      requires n.Init? && NamedFunction(c, n.value).None? && !NamesGlobal(c, n.value)
      requires GlobalInitDefinitionBefore(c.module_, n.before, n.value) == Some(before)
      requires c.module_.globalInit[before].Assign? && c.module_.globalInit[before].sources == []
      ensures Stuck(c, n)
    {
    }

    lemma InitSourceIsUsed(n: Node, before: nat, source: string)
      requires n.Init? && n.depth <= c.depthLimit && NamedFunction(c, n.value).None? && !NamesGlobal(c, n.value)
      requires GlobalInitDefinitionBefore(c.module_, n.before, n.value) == Some(before)
      requires c.module_.globalInit[before].Assign? && source in c.module_.globalInit[before].sources
      ensures Uses(c, n, Init(before, source, n.depth), 0)
    {
    }

    method ResolveAllGlobalInitSources(before: nat, sources: seq<string>, d: nat, ghost n: Node) returns (r: WalkResult)
      requires Ready() && d <= c.depthLimit
      requires n.Init? && n.depth == d && NamedFunction(c, n.value).None? && !NamesGlobal(c, n.value)
      requires GlobalInitDefinitionBefore(c.module_, n.before, n.value) == Some(before)
      requires c.module_.globalInit[before].Assign? && c.module_.globalInit[before].sources == sources
      modifies this
      ensures visiting == old(visiting)
      ensures Outcome(c, n, visiting, old(origins), origins, r)
      ensures r.Complex? <==> Stuck(c, n) || UsesFail(c, n, visiting)
      decreases Left(d), Room(), 3, before, 1
    {
      hide Fails, Complete, Sound, Broken, Stuck, Uses, NamedFunction, NamesGlobal, GlobalInitDefinitionBefore;
      SoundSelf(c, n, origins);
      if sources == [] {
        NoInitSourceIsStuck(n, before);
        FaultyIsBroken(c, n);
        return Complex;
      }
      for k := 0 to |sources|
        invariant visiting == old(visiting) && Sound(c, n, old(origins), origins)
        invariant forall j | 0 <= j < k :: Complete(c, Init(before, sources[j], d), visiting, origins)
        invariant forall j | 0 <= j < k :: !Fails(c, Init(before, sources[j], d), 0, visiting)
      {
        ghost var m, t := Init(before, sources[k], d), origins;
        InitSourceIsUsed(n, before, sources[k]);
        r := ResolveGlobalInitValue(before, sources[k], d);
        Absorb(c, n, m, 0, visiting, old(origins), t, origins, r);
        if r.Complex? {
          return;
        }
      }
      InitSourcesDone(c, n, before, sources, d, visiting, origins);
      return Simple;
    }
  }
}
