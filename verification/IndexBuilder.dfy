/** The one pass over the module that fills the resolver's index. */
module IndexBuilder {
  import opened Sorting
  import opened Pir
  import opened Producers
  import opened Preanalysis

  // What each table lists once the pass has recorded the statements `done`.

  ghost predicate StoresTo(c: Config, m: map<Place, seq<StoreSite>>, done: set<StoreSite>) {
    forall place, site :: site in Listed(m, place) <==> IsStoreSite(c, site, place) && site in done
  }

  ghost predicate UnsafeTo(c: Config, unsafes: set<string>, done: set<StoreSite>) {
    forall g :: g in unsafes <==>
      || (exists f, s :: FunctionExposes(c, f, s, g) && InFunction(f, s) in done)
      || (exists s :: InitExposes(c, s, g) && InGlobalInit(s) in done)
  }

  ghost function CallsTo(c: Config, callee: nat, done: set<StoreSite>): set<(nat, nat)> {
    set site | site in DirectCalls(c, callee) && InFunction(site.0, site.1) in done
  }

  ghost predicate CountsTo(c: Config, counts: seq<nat>, done: set<StoreSite>) {
    && |counts| == |c.module_.functions|
    && forall f: nat | f < |counts| :: counts[f] == |CallsTo(c, f, done)|
  }

  ghost predicate ActualsTo(c: Config, m: map<(nat, nat), seq<ActualSite>>, done: set<StoreSite>) {
    && (forall f, i :: NoDuplicates(Listed(m, (f, i))))
    && (forall f, i, a :: a in Listed(m, (f, i)) <==>
          IsActualSite(c, a, f, i) && InFunction(a.caller, a.stmt) in done)
  }

  ghost predicate SymbolsTo(c: Config, m: map<nat, seq<StoreSite>>, done: set<StoreSite>) {
    forall t, site :: site in Listed(m, t) <==> IsSymbolUse(c, site, t) && site in done
  }

  ghost predicate LocalsTo(c: Config, m: map<(nat, string), seq<nat>>, done: set<StoreSite>) {
    forall f, v, s: nat :: s in Listed(m, (f, v)) <==>
      IsStmt(c, f, s) && v in Operands(Body(c, f)[s]) && InFunction(f, s) in done
  }

  /** The consumer takes the result of `callee` at one of the statements done. */
  ghost predicate ConsumedIn(c: Config, r: Consumer, callee: nat, done: set<StoreSite>) {
    exists s: nat :: ConsumesAt(c, r, s, callee) && InFunction(r.caller, s) in done
  }

  ghost predicate ConsumersTo(c: Config, m: map<nat, seq<Consumer>>, done: set<StoreSite>) {
    forall t, r {:trigger r in Listed(m, t)} {:trigger ConsumedIn(c, r, t, done)} :: r in Listed(m, t) <==> ConsumedIn(c, r, t, done)
  }

  lemma ConsumedAlsoIn(c: Config, r: Consumer, callee: nat, done: set<StoreSite>, site: StoreSite)
    ensures ConsumedIn(c, r, callee, done + {site}) <==>
              ConsumedIn(c, r, callee, done) || (site.InFunction? && site.func == r.caller && ConsumesAt(c, r, site.stmt, callee))
  {
    if s: nat :| ConsumesAt(c, r, s, callee) && InFunction(r.caller, s) in done {
      assert InFunction(r.caller, s) in done + {site};
    }
    if site.InFunction? && site.func == r.caller && ConsumesAt(c, r, site.stmt, callee) {
      assert InFunction(r.caller, site.stmt) in done + {site};
    }
  }

  ghost predicate IndexTo(c: Config, ix: Index, done: set<StoreSite>) {
    && ValidConfig(c)
    && StoresTo(c, ix.storesByPlace, done) && UnsafeTo(c, ix.unsafeGlobals, done)
    && CountsTo(c, ix.directCallCount, done) && ActualsTo(c, ix.directActuals, done)
    && SymbolsTo(c, ix.functionSymbolUses, done) && LocalsTo(c, ix.localUses, done)
    && ConsumersTo(c, ix.returnConsumers, done)
  }

  /** Every statement of the module. */
  ghost predicate AllStatements(c: Config, done: set<StoreSite>) {
    && (forall f, s | IsStmt(c, f, s) :: InFunction(f, s) in done)
    && (forall s: nat | s < |c.module_.globalInit| :: InGlobalInit(s) in done)
  }

  /** Once every statement is recorded the tables are the scans. */
  lemma PassOver(c: Config, ix: Index, done: set<StoreSite>)
    requires IndexTo(c, ix, done) && AllStatements(c, done)
    ensures IndexOk(c, ix)
  {
    forall f: nat | f < |ix.directCallCount|
      ensures CallsTo(c, f, done) == DirectCalls(c, f)
    {
    }
    forall t, r
      ensures r in Listed(ix.returnConsumers, t) <==> IsConsumer(c, r, t)
    {
      if IsConsumer(c, r, t) {
        var s: nat :| ConsumesAt(c, r, s, t);
        assert InFunction(r.caller, s) in done && ConsumedIn(c, r, t, done);
      }
    }
  }

  // ---------------------------------------------------------------------------------------------
  // Recording one statement

  method RecordStore(c: Config, ghost done: set<StoreSite>, m: map<Place, seq<StoreSite>>, f: nat, s: nat) returns (m': map<Place, seq<StoreSite>>)
    requires IsStmt(c, f, s) && StoresTo(c, m, done) && ValidConfig(c)
    ensures StoresTo(c, m', done + {InFunction(f, s)})
  {
    m' := m;
    if c.reachable[f] && Body(c, f)[s].Store? {
      var place := FunctionPlace(c.module_, Body(c, f), s, Body(c, f)[s].address);
      if place.Some? {
        m' := Pushed(m, place.value, InFunction(f, s));
      }
    }
  }

  method RecordInitStore(c: Config, ghost done: set<StoreSite>, m: map<Place, seq<StoreSite>>, s: nat) returns (m': map<Place, seq<StoreSite>>)
    requires s < |c.module_.globalInit| && StoresTo(c, m, done)
    ensures StoresTo(c, m', done + {InGlobalInit(s)})
  {
    m' := m;
    if c.module_.globalInit[s].Store? {
      var place := GlobalInitPlace(c.module_, s, c.module_.globalInit[s].address);
      if place.Some? {
        m' := Pushed(m, place.value, InGlobalInit(s));
      }
    }
  }

  function Root(c: Config, place: Option<Place>, operand: string): (r: set<string>)
    ensures forall g :: g in r <==> Exposes(c, place, operand, g)
  {
    if place.Some? then {place.value.root}
    else if NamesGlobal(c, operand) then {CanonicalSymbol(operand)} else {}
  }

  function Missed(c: Config, place: Option<Place>, operand: string): (r: set<string>)
    ensures forall g :: g in r <==> Misses(c, place, operand, g)
  {
    if place.None? && NamesGlobal(c, operand) then {CanonicalSymbol(operand)} else {}
  }

  function Roots(c: Config, operands: seq<string>, placeOf: string -> Option<Place>): (r: set<string>)
    ensures forall g :: g in r <==> exists operand :: operand in operands && Exposes(c, placeOf(operand), operand, g)
  {
    if operands == [] then {}
    else
      assert operands == [operands[0]] + operands[1..];
      Root(c, placeOf(operands[0]), operands[0]) + Roots(c, operands[1..], placeOf)
  }

  function ExposedGlobals(c: Config, stmt: Stmt, placeOf: string -> Option<Place>): (r: set<string>)
    ensures forall g :: g in r <==> StmtExposes(c, stmt, placeOf, g)
  {
    match stmt
    case Load(_, address) => Missed(c, placeOf(address), address)
    case Store(address, value) => Missed(c, placeOf(address), address) + Root(c, placeOf(value), value)
    case Gep(_, base, Some(_)) => Missed(c, placeOf(base), base)
    case Gep(_, base, None) => Root(c, placeOf(base), base)
    case _ => Roots(c, Operands(stmt), placeOf)
  }

  method RecordUnsafe(c: Config, ghost done: set<StoreSite>, unsafes: set<string>, f: nat, s: nat) returns (unsafes': set<string>)
    requires IsStmt(c, f, s) && UnsafeTo(c, unsafes, done) && ValidConfig(c)
    ensures UnsafeTo(c, unsafes', done + {InFunction(f, s)})
  {
    unsafes' := unsafes;
    if c.reachable[f] {
      var placeOf := (value: string) => FunctionPlace(c.module_, c.module_.functions[f].body, s, value);
      var more := ExposedGlobals(c, Body(c, f)[s], placeOf);
      unsafes' := unsafes + more;
      SamePlaces(c, f, s, placeOf);
    }
  }

  lemma SamePlaces(c: Config, f: nat, s: nat, placeOf: string -> Option<Place>)
    requires IsStmt(c, f, s) && IsReachable(c, f)
    requires forall v :: placeOf(v) == FunctionPlace(c.module_, Body(c, f), s, v)
    ensures forall g :: StmtExposes(c, Body(c, f)[s], placeOf, g) <==> FunctionExposes(c, f, s, g)
  {
    assert forall v :: placeOf(v) == PlacesIn(c, f, s)(v);
  }

  lemma SameInitPlaces(c: Config, s: nat, placeOf: string -> Option<Place>)
    requires s < |c.module_.globalInit| && forall v :: placeOf(v) == GlobalInitPlace(c.module_, s, v)
    ensures forall g :: StmtExposes(c, c.module_.globalInit[s], placeOf, g) <==> InitExposes(c, s, g)
  {
    assert forall v :: placeOf(v) == PlacesInInit(c, s)(v);
  }

  method RecordInitUnsafe(c: Config, ghost done: set<StoreSite>, unsafes: set<string>, s: nat) returns (unsafes': set<string>)
    requires s < |c.module_.globalInit| && UnsafeTo(c, unsafes, done)
    ensures UnsafeTo(c, unsafes', done + {InGlobalInit(s)})
  {
    var placeOf := (value: string) => GlobalInitPlace(c.module_, s, value);
    var more := ExposedGlobals(c, c.module_.globalInit[s], placeOf);
    unsafes' := unsafes + more;
    SameInitPlaces(c, s, placeOf);
  }

  /** The calls of one statement: the count, and one actual for each argument position. */
  method RecordCall(c: Config, ghost done: set<StoreSite>, counts: seq<nat>, m: map<(nat, nat), seq<ActualSite>>, f: nat, s: nat)
    returns (counts': seq<nat>, m': map<(nat, nat), seq<ActualSite>>)
    requires IsStmt(c, f, s) && ValidConfig(c) && InFunction(f, s) !in done
    requires CountsTo(c, counts, done) && ActualsTo(c, m, done)
    ensures CountsTo(c, counts', done + {InFunction(f, s)}) && ActualsTo(c, m', done + {InFunction(f, s)})
  {
    counts', m' := counts, m;
    CountNext(c, done, f, s);
    if Body(c, f)[s].CallDirect? {
      ExactIsCallee(c, Body(c, f)[s].callee);
      hide IsCallee, ActualsTo, CallsTo;
      var callee := ExactFunction(c, Body(c, f)[s].callee);
      if callee.Some? && c.reachable[f] {
        counts' := counts[callee.value := counts[callee.value] + 1];
        m' := RecordActuals(c, done, m, f, s, callee.value);
      }
    }
  }

  lemma CountNext(c: Config, done: set<StoreSite>, f: nat, s: nat)
    requires IsStmt(c, f, s) && ValidConfig(c) && InFunction(f, s) !in done
    ensures forall callee: nat ::
              |CallsTo(c, callee, done + {InFunction(f, s)})|
              == |CallsTo(c, callee, done)| + if CallsDirectly(c, f, s, callee) then 1 else 0
  {
    forall callee: nat
      ensures |CallsTo(c, callee, done + {InFunction(f, s)})|
           == |CallsTo(c, callee, done)| + if CallsDirectly(c, f, s, callee) then 1 else 0
    {
      var before, after := CallsTo(c, callee, done), CallsTo(c, callee, done + {InFunction(f, s)});
      assert after == before + if CallsDirectly(c, f, s, callee) then {(f, s)} else {};
      assert (f, s) !in before;
    }
  }

  method RecordActuals(c: Config, ghost done: set<StoreSite>, m: map<(nat, nat), seq<ActualSite>>, f: nat, s: nat, callee: nat)
    returns (m': map<(nat, nat), seq<ActualSite>>)
    requires CallsDirectly(c, f, s, callee) && ActualsTo(c, m, done) && InFunction(f, s) !in done
    ensures ActualsTo(c, m', done + {InFunction(f, s)})
  {
    var args := Body(c, f)[s].args;
    m' := m;
    for i := 0 to |args|
      invariant Extended(m, m', f, s, args, callee, i)
    {
      ExtendedNext(m, m', f, s, args, callee, i);
      m' := Pushed(m', (callee, i), ActualSite(f, s, args[i]));
    }
    forall g, k
      ensures NoDuplicates(Listed(m', (g, k)))
      ensures forall a :: a in Listed(m', (g, k)) <==>
                IsActualSite(c, a, g, k) && InFunction(a.caller, a.stmt) in done + {InFunction(f, s)}
    {
      assert Listed(m', (g, k)) == Extension(m, f, s, args, callee, |args|, g, k);
      ActualNext(c, done, m, f, s, callee, g, k);
    }
  }

  ghost function Extension(
    m: map<(nat, nat), seq<ActualSite>>, f: nat, s: nat, args: seq<string>, callee: nat, i: nat, g: nat, k: nat): seq<ActualSite>
    requires i <= |args|
  {
    if g == callee && k < i then Listed(m, (g, k)) + [ActualSite(f, s, args[k])] else Listed(m, (g, k))
  }

  /** `m'` is `m` with the first `i` arguments of the call added. */
  ghost predicate Extended(
    m: map<(nat, nat), seq<ActualSite>>, m': map<(nat, nat), seq<ActualSite>>, f: nat, s: nat, args: seq<string>,
    callee: nat, i: nat)
  {
    i <= |args| && forall g, k {:trigger Listed(m', (g, k))} :: Listed(m', (g, k)) == Extension(m, f, s, args, callee, i, g, k)
  }

  lemma ExtendedNext(
      m: map<(nat, nat), seq<ActualSite>>, m': map<(nat, nat), seq<ActualSite>>, f: nat, s: nat, args: seq<string>,
      callee: nat, i: nat)
    requires Extended(m, m', f, s, args, callee, i) && i < |args|
    ensures Extended(m, Pushed(m', (callee, i), ActualSite(f, s, args[i])), f, s, args, callee, i + 1)
  {
    var next := Pushed(m', (callee, i), ActualSite(f, s, args[i]));
    forall g: nat, k: nat
      ensures Listed(next, (g, k)) == Extension(m, f, s, args, callee, i + 1, g, k)
    {
      assert Listed(m', (g, k)) == Extension(m, f, s, args, callee, i, g, k);
      if (g, k) != (callee, i) {
        assert Listed(next, (g, k)) == Listed(m', (g, k));
      }
    }
  }

  lemma ActualNext(
      c: Config, done: set<StoreSite>, m: map<(nat, nat), seq<ActualSite>>, f: nat, s: nat, callee: nat, g: nat, k: nat)
    requires CallsDirectly(c, f, s, callee) && ActualsTo(c, m, done) && InFunction(f, s) !in done
    ensures var args := Body(c, f)[s].args;
            var list := Extension(m, f, s, args, callee, |args|, g, k);
            NoDuplicates(list) && forall a :: a in list <==>
              IsActualSite(c, a, g, k) && InFunction(a.caller, a.stmt) in done + {InFunction(f, s)}
  {
    ExactIsCallee(c, Body(c, f)[s].callee);
    hide IsCallee;
    forall a | a in Listed(m, (g, k))
      ensures a.caller != f || a.stmt != s
    {
      assert InFunction(a.caller, a.stmt) in done;
    }
  }

  /** The functions that `operands` name, each once, in the order of their first mention. */
  method TargetsOf(c: Config, operands: seq<string>) returns (targets: seq<nat>)
    ensures forall t :: t in targets <==> Mentions(c, operands, t)
  {
    targets := [];
    for i := 0 to |operands|
      invariant forall t :: t in targets <==> Mentions(c, operands[..i], t)
    {
      assert operands[..i + 1] == operands[..i] + [operands[i]];
      var target := NamedFunction(c, operands[i]);
      if target.Some? && target.value !in targets {
        targets := targets + [target.value];
      }
      assert forall t: nat :: Mentions(c, operands[..i + 1], t) <==> Mentions(c, operands[..i], t) || (target.Some? && target.value == t);
    }
    assert operands[..|operands|] == operands;
  }

  method PushAll(m: map<nat, seq<StoreSite>>, targets: seq<nat>, site: StoreSite) returns (m': map<nat, seq<StoreSite>>)
    ensures forall t, x :: x in Listed(m', t) <==> x in Listed(m, t) || (t in targets && x == site)
  {
    m' := m;
    for i := 0 to |targets|
      invariant forall t, x :: x in Listed(m', t) <==> x in Listed(m, t) || (t in targets[..i] && x == site)
    {
      assert targets[..i + 1] == targets[..i] + [targets[i]];
      ghost var last := m';
      m' := Pushed(m', targets[i], site);
      assert forall t, x :: x in Listed(m', t) <==> x in Listed(last, t) || (t == targets[i] && x == site);
    }
    assert targets[..|targets|] == targets;
  }

  method RecordSymbolUses(c: Config, ghost done: set<StoreSite>, m: map<nat, seq<StoreSite>>, f: nat, s: nat) returns (m': map<nat, seq<StoreSite>>)
    requires IsStmt(c, f, s) && SymbolsTo(c, m, done) && ValidConfig(c)
    ensures SymbolsTo(c, m', done + {InFunction(f, s)})
  {
    var targets := TargetsOf(c, ValueOperands(Body(c, f)[s]));
    m' := m;
    if c.reachable[f] {
      m' := PushAll(m, targets, InFunction(f, s));
    }
  }

  method RecordInitSymbolUses(c: Config, ghost done: set<StoreSite>, m: map<nat, seq<StoreSite>>, s: nat) returns (m': map<nat, seq<StoreSite>>)
    requires s < |c.module_.globalInit| && SymbolsTo(c, m, done)
    ensures SymbolsTo(c, m', done + {InGlobalInit(s)})
  {
    var targets := TargetsOf(c, InitEscapeOperands(c.module_.globalInit[s]));
    m' := PushAll(m, targets, InGlobalInit(s));
  }

  method RecordLocalUses(c: Config, ghost done: set<StoreSite>, m: map<(nat, string), seq<nat>>, f: nat, s: nat)
    returns (m': map<(nat, string), seq<nat>>)
    requires IsStmt(c, f, s) && LocalsTo(c, m, done)
    ensures LocalsTo(c, m', done + {InFunction(f, s)})
  {
    var operands := Operands(Body(c, f)[s]);
    m' := m;
    for i := 0 to |operands|
      invariant forall g, v, t: nat :: t in Listed(m', (g, v)) <==>
                  t in Listed(m, (g, v)) || (g == f && t == s && v in operands[..i])
    {
      assert operands[..i + 1] == operands[..i] + [operands[i]];
      m' := Pushed(m', (f, operands[i]), s);
    }
    assert operands[..|operands|] == operands;
  }

  method RecordConsumer(c: Config, ghost done: set<StoreSite>, m: map<nat, seq<Consumer>>, f: nat, s: nat) returns (m': map<nat, seq<Consumer>>)
    requires IsStmt(c, f, s) && ConsumersTo(c, m, done)
    ensures ConsumersTo(c, m', done + {InFunction(f, s)})
  {
    hide IsCallee;
    m' := m;
    var stmt := Body(c, f)[s];
    if stmt.CallDirect? && stmt.result.Some? {
      ExactIsCallee(c, stmt.callee);
      var callee := ExactFunction(c, stmt.callee);
      if callee.Some? {
        m' := Pushed(m, callee.value, Consumer(f, stmt.result.value));
      }
    }
    forall t, r
      ensures r in Listed(m', t) <==>
              exists x: nat :: ConsumesAt(c, r, x, t) && InFunction(r.caller, x) in done + {InFunction(f, s)}
    {
      ConsumerNext(c, done, f, s, t, r);
      assert r in Listed(m', t) <==> r in Listed(m, t) || (r.caller == f && ConsumesAt(c, r, s, t));
    }
  }

  lemma ConsumerNext(c: Config, done: set<StoreSite>, f: nat, s: nat, t: nat, r: Consumer)
    ensures (exists x: nat :: ConsumesAt(c, r, x, t) && InFunction(r.caller, x) in done + {InFunction(f, s)}) <==>
            || (exists x: nat :: ConsumesAt(c, r, x, t) && InFunction(r.caller, x) in done)
            || (r.caller == f && ConsumesAt(c, r, s, t))
  {
    if exists x: nat :: ConsumesAt(c, r, x, t) && InFunction(r.caller, x) in done {
      var x: nat :| ConsumesAt(c, r, x, t) && InFunction(r.caller, x) in done;
      assert InFunction(r.caller, x) in done + {InFunction(f, s)};
    }
  }

  // ---------------------------------------------------------------------------------------------
  // The pass

  method RecordFunctionStmt(c: Config, ghost done: set<StoreSite>, ix: Index, f: nat, s: nat) returns (ix': Index)
    requires IsStmt(c, f, s) && IndexTo(c, ix, done) && InFunction(f, s) !in done
    ensures IndexTo(c, ix', done + {InFunction(f, s)})
  {
    var locals := RecordLocalUses(c, done, ix.localUses, f, s);
    var counts, actuals := RecordCall(c, done, ix.directCallCount, ix.directActuals, f, s);
    var consumers := RecordConsumer(c, done, ix.returnConsumers, f, s);
    var stores := RecordStore(c, done, ix.storesByPlace, f, s);
    var unsafes := RecordUnsafe(c, done, ix.unsafeGlobals, f, s);
    var symbols := RecordSymbolUses(c, done, ix.functionSymbolUses, f, s);
    ix' := Index(counts, actuals, stores, unsafes, symbols, locals, consumers);
  }

  method RecordInitStmt(c: Config, ghost done: set<StoreSite>, ix: Index, s: nat) returns (ix': Index)
    requires s < |c.module_.globalInit| && IndexTo(c, ix, done)
    ensures IndexTo(c, ix', done + {InGlobalInit(s)})
  {
    var stores := RecordInitStore(c, done, ix.storesByPlace, s);
    var unsafes := RecordInitUnsafe(c, done, ix.unsafeGlobals, s);
    var symbols := RecordInitSymbolUses(c, done, ix.functionSymbolUses, s);
    ix' := ix.(storesByPlace := stores, unsafeGlobals := unsafes, functionSymbolUses := symbols);
    InitStmtKeepsTables(c, ix, done, s);
  }

  lemma InitStmtKeepsTables(c: Config, ix: Index, done: set<StoreSite>, s: nat)
    requires IndexTo(c, ix, done)
    ensures CountsTo(c, ix.directCallCount, done + {InGlobalInit(s)})
    ensures ActualsTo(c, ix.directActuals, done + {InGlobalInit(s)})
    ensures LocalsTo(c, ix.localUses, done + {InGlobalInit(s)})
    ensures ConsumersTo(c, ix.returnConsumers, done + {InGlobalInit(s)})
  {
    forall g: nat
      ensures CallsTo(c, g, done) == CallsTo(c, g, done + {InGlobalInit(s)})
    {
    }
    forall t, r {:trigger ConsumedIn(c, r, t, done)}
      ensures r in Listed(ix.returnConsumers, t) <==> ConsumedIn(c, r, t, done + {InGlobalInit(s)})
    {
      ConsumedAlsoIn(c, r, t, done, InGlobalInit(s));
    }
  }

  method BuildPreanalysis(c: Config) returns (ix: Index)
    requires ValidConfig(c)
    ensures IndexOk(c, ix)
  {
    ix := Index(seq(|c.module_.functions|, _ => 0), map[], map[], {}, map[], map[], map[]);
    ghost var done: set<StoreSite> := {};
    EmptyIndex(c, ix);
    for f := 0 to |c.module_.functions|
      invariant IndexTo(c, ix, done)
      invariant forall site :: site in done <==> site.InFunction? && IsStmt(c, site.func, site.stmt) && site.func < f
    {
      for s := 0 to |Body(c, f)|
        invariant IndexTo(c, ix, done)
        invariant forall site :: site in done <==>
                    site.InFunction? && IsStmt(c, site.func, site.stmt)
                    && (site.func < f || (site.func == f && site.stmt < s))
      {
        ix := RecordFunctionStmt(c, done, ix, f, s);
        done := done + {InFunction(f, s)};
      }
    }
    for s := 0 to |c.module_.globalInit|
      invariant IndexTo(c, ix, done)
      invariant forall f, t | IsStmt(c, f, t) :: InFunction(f, t) in done
      invariant forall t: nat | t < s :: InGlobalInit(t) in done
    {
      ix := RecordInitStmt(c, done, ix, s);
      done := done + {InGlobalInit(s)};
    }
    PassOver(c, ix, done);
  }

  lemma EmptyIndex(c: Config, ix: Index)
    requires ValidConfig(c)
    requires ix == Index(seq(|c.module_.functions|, _ => 0), map[], map[], {}, map[], map[], map[])
    ensures IndexTo(c, ix, {})
  {
    forall g: nat
      ensures CallsTo(c, g, {}) == {}
    {
    }
  }
}
