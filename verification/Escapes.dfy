/**
 Unsafe escapes of function addresses: a depth-bounded forward walk from every use of the address as a
 value, with the same on-stack cycle cut as the backward walk.
 */
module Escapes {
  import opened Paths
  import opened Sorting
  import opened Pir
  import opened Producers
  import opened Preanalysis

  datatype Local = Local(func: nat, value: string, depth: nat)

  /** A store through `address` only reaches memory the resolver tracks. */
  ghost predicate TrackedStore(c: Config, f: nat, s: nat, address: string)
    requires IsStmt(c, f, s)
  {
    var place := FunctionPlace(c.module_, Body(c, f), s, address);
    SafeGlobal(c, if place.Some? then place.value.root else CanonicalSymbol(address))
  }

  /** Argument `i` of this call cannot be followed into the callee. */
  predicate ArgumentEscapes(c: Config, callee: string, vararg: bool, i: nat) {
    vararg ||
    match NamedFunction(c, callee)
    case None => true
    case Some(t) => c.module_.functions[t].external || i >= |c.module_.functions[t].params|
  }

  ghost predicate ArgumentFlows(c: Config, callee: string, vararg: bool, i: nat, d: nat, m: Local) {
    && !ArgumentEscapes(c, callee, vararg, i)
    && m == Local(NamedFunction(c, callee).value,
                  c.module_.functions[NamedFunction(c, callee).value].params[i], d + 1)
  }

  ghost predicate ReturnEscapes(c: Config, f: nat, v: string)
    requires ValidConfig(c) && f < |c.module_.functions|
  {
    || c.externallyCallable[f] || c.module_.functions[f].addressTaken
    || (v != "" && !exists r :: IsConsumer(c, r, f))
  }

  ghost predicate ReturnFlows(c: Config, f: nat, d: nat, m: Local)
    requires ValidConfig(c) && f < |c.module_.functions|
  {
    && !c.externallyCallable[f] && !c.module_.functions[f].addressTaken
    && m.depth == d + 1 && IsConsumer(c, Consumer(m.func, m.value), f)
  }

  /** Statement `s` lets the value `v` out. */
  ghost predicate EscapesAt(c: Config, f: nat, s: nat, v: string)
    requires ValidConfig(c) && IsStmt(c, f, s)
  {
    match Body(c, f)[s]
    case Store(address, value) => if value == v then !TrackedStore(c, f, s, address) else address == v
    case CallDirect(callee, args, _, vararg) =>
      exists i: nat :: i < |args| && args[i] == v && ArgumentEscapes(c, callee, vararg, i)
    case Return(returned) => returned == Some(v) && ReturnEscapes(c, f, v)
    case CallIndirect(operand, args, _) => operand != v && v in args
    case Load(_, address) => address == v
    case Opaque(_, _, operands) => v in operands
    case Unknown(operands, results) => v in operands || v in results
    case _ => false
  }

  /** Statement `s` passes the value `v` on to the local `m`. */
  ghost predicate FlowsAt(c: Config, f: nat, s: nat, v: string, d: nat, m: Local)
    requires ValidConfig(c) && IsStmt(c, f, s)
  {
    match Body(c, f)[s]
    case Assign(dest, sources) => v in sources && m == Local(f, dest, d)
    case ScalarOp(dest, lhs, rhs) => (lhs == v || rhs == v) && m == Local(f, dest, d)
    case Gep(dest, base, _) => base == v && m == Local(f, dest, d)
    case CallDirect(callee, args, _, vararg) =>
      exists i: nat :: i < |args| && args[i] == v && ArgumentFlows(c, callee, vararg, i, d, m)
    case Return(returned) => returned == Some(v) && ReturnFlows(c, f, d, m)
    case _ => false
  }

  ghost predicate PassesAt(c: Config, n: Local, s: nat, m: Local) {
    ValidConfig(c) && IsStmt(c, n.func, s) && FlowsAt(c, n.func, s, n.value, n.depth, m)
  }

  /** Some statement of the body passes `n` on to `m`. */
  ghost predicate Passes(c: Config, n: Local, m: Local) {
    n.depth <= c.depthLimit && exists s :: PassesAt(c, n, s, m)
  }

  ghost function Spread(c: Config): (Local, Local) -> bool {
    (n: Local, m: Local) => Passes(c, n, m)
  }

  ghost predicate LetsOut(c: Config, n: Local, s: nat) {
    ValidConfig(c) && IsStmt(c, n.func, s) && EscapesAt(c, n.func, s, n.value)
  }

  /** The walk exceeds its depth at `n`, or some statement of the body lets `n` out. */
  ghost predicate Escaping(c: Config, n: Local) {
    n.depth > c.depthLimit || exists s :: LetsOut(c, n, s)
  }

  ghost predicate EscapesFrom(c: Config, n: Local, avoid: set<Local>) {
    exists x :: ReachAvoiding(Spread(c), avoid, n, x) && Escaping(c, x)
  }

  lemma EscapesNow(c: Config, n: Local, avoid: set<Local>)
    requires Escaping(c, n) && n !in avoid
    ensures EscapesFrom(c, n, avoid)
  {
    ReachAvoidingSelf(Spread(c), avoid, n);
  }

  lemma NoEscapeThroughStack(c: Config, n: Local, avoid: set<Local>)
    requires n in avoid
    ensures !EscapesFrom(c, n, avoid)
  {
    forall x | ReachAvoiding(Spread(c), avoid, n, x)
      ensures false
    {
      ReachAvoidingWeaken(Spread(c), avoid, n, x);
    }
  }

  /** Why cutting a cycle hides no escape: a shortest escaping chain never returns to its start. */
  lemma EscapesUnfold(c: Config, n: Local, avoid: set<Local>)
    requires n !in avoid
    ensures EscapesFrom(c, n, avoid) <==>
            Escaping(c, n) || exists m :: Passes(c, n, m) && EscapesFrom(c, m, avoid + {n})
  {
    if EscapesFrom(c, n, avoid) {
      var x :| ReachAvoiding(Spread(c), avoid, n, x) && Escaping(c, x);
      if x != n {
        var m := ReachAvoidingSplit(Spread(c), avoid, n, x);
        assert Passes(c, n, m) && EscapesFrom(c, m, avoid + {n});
      }
    }
    if Escaping(c, n) {
      EscapesNow(c, n, avoid);
    }
    if exists m :: Passes(c, n, m) && EscapesFrom(c, m, avoid + {n}) {
      var m :| Passes(c, n, m) && EscapesFrom(c, m, avoid + {n});
      var x :| ReachAvoiding(Spread(c), avoid + {n}, m, x) && Escaping(c, x);
      ReachAvoidingStep(Spread(c), avoid, avoid + {n}, n, m, x);
    }
  }

  /** Statement `s` lets `v` out, at once or through a local it passes `v` to. */
  ghost predicate UseEscapes(c: Config, f: nat, s: nat, v: string, d: nat, avoid: set<Local>)
    requires ValidConfig(c) && IsStmt(c, f, s)
  {
    EscapesAt(c, f, s, v) || exists m :: FlowsAt(c, f, s, v, d, m) && EscapesFrom(c, m, avoid)
  }

  /** The statements that the index lists for a local. */
  ghost predicate UsesLocal(c: Config, n: Local, s: nat) {
    IsStmt(c, n.func, s) && n.value in Operands(Body(c, n.func)[s])
  }

  /** No statement gets hold of a local that is not listed for it. */
  lemma UsesAreListed(c: Config, n: Local, s: nat)
    ensures LetsOut(c, n, s) ==> UsesLocal(c, n, s)
    ensures forall m | PassesAt(c, n, s, m) :: UsesLocal(c, n, s)
  {
  }

  /** Uses and chains agree: the step from one value to all its uses. */
  lemma EscapesByUses(c: Config, n: Local, avoid: set<Local>)
    requires ValidConfig(c) && n !in avoid && n.depth <= c.depthLimit
    ensures EscapesFrom(c, n, avoid) <==>
            exists s :: UsesLocal(c, n, s) && UseEscapes(c, n.func, s, n.value, n.depth, avoid + {n})
  {
    EscapesUnfold(c, n, avoid);
    var later := avoid + {n};
    if EscapesFrom(c, n, avoid) && !Escaping(c, n) {
      var m :| Passes(c, n, m) && EscapesFrom(c, m, later);
      var s: nat :| PassesAt(c, n, s, m);
      UsesAreListed(c, n, s);
      assert UseEscapes(c, n.func, s, n.value, n.depth, later);
    }
    if Escaping(c, n) {
      var s: nat :| LetsOut(c, n, s);
      UsesAreListed(c, n, s);
      assert UseEscapes(c, n.func, s, n.value, n.depth, later);
    }
    if s: nat :| UsesLocal(c, n, s) && UseEscapes(c, n.func, s, n.value, n.depth, later) && !LetsOut(c, n, s) {
      var m :| FlowsAt(c, n.func, s, n.value, n.depth, m) && EscapesFrom(c, m, later);
      assert PassesAt(c, n, s, m) && Passes(c, n, m);
    }
  }

  // ---------------------------------------------------------------------------------------------
  // Uses of the function symbol itself

  predicate SameSymbol(value: string, t: string) {
    CanonicalSymbol(value) == t
  }

  predicate AnySame(values: seq<string>, t: string) {
    exists v | v in values :: SameSymbol(v, t)
  }

  ghost predicate SymbolEscapesAt(c: Config, f: nat, s: nat, t: string)
    requires ValidConfig(c) && IsStmt(c, f, s)
  {
    match Body(c, f)[s]
    case Store(address, value) => SameSymbol(value, t) && !TrackedStore(c, f, s, address)
    case CallDirect(callee, args, _, vararg) =>
      exists i: nat :: i < |args| && SameSymbol(args[i], t) && ArgumentEscapes(c, callee, vararg, i)
    case CallIndirect(operand, args, _) => !SameSymbol(operand, t) && AnySame(args, t)
    case Return(returned) => returned.Some? && SameSymbol(returned.value, t) && ReturnEscapes(c, f, t)
    case Load(_, address) => SameSymbol(address, t)
    case Gep(_, base, _) => SameSymbol(base, t)
    case Opaque(_, _, operands) => AnySame(operands, t)
    case Unknown(operands, results) => AnySame(operands, t) || AnySame(results, t)
    case _ => false
  }

  ghost predicate SymbolFlowsAt(c: Config, f: nat, s: nat, t: string, m: Local)
    requires ValidConfig(c) && IsStmt(c, f, s)
  {
    match Body(c, f)[s]
    case Assign(dest, sources) => AnySame(sources, t) && m == Local(f, dest, 0)
    case ScalarOp(dest, lhs, rhs) => (SameSymbol(lhs, t) || SameSymbol(rhs, t)) && m == Local(f, dest, 0)
    case CallDirect(callee, args, _, vararg) =>
      exists i: nat :: i < |args| && SameSymbol(args[i], t) && ArgumentFlows(c, callee, vararg, i, 0, m)
    case Return(returned) => returned.Some? && SameSymbol(returned.value, t) && ReturnFlows(c, f, 0, m)
    case _ => false
  }

  /** What an initializer statement may do with a function address without losing it. */
  ghost predicate InitUseUnsafe(c: Config, stmt: Stmt, t: string) {
    match stmt
    case Assign(_, _) => false
    case ScalarOp(dest, lhs, rhs) => AnySame([dest, lhs, rhs], t)
    case Store(address, value) => SameSymbol(value, t) && !SafeGlobal(c, CanonicalSymbol(address))
    case CallIndirect(operand, args, result) =>
      AnySame(args, t) || (!SameSymbol(operand, t) && result.Some? && SameSymbol(result.value, t))
    case CallDirect(callee, args, result, _) =>
      SameSymbol(callee, t) || AnySame(args, t) || (result.Some? && SameSymbol(result.value, t))
    case Opaque(Marker, result, _) => result.Some? && SameSymbol(result.value, t)
    case Gep(_, base, _) => SameSymbol(base, t)
    case Load(_, address) => SameSymbol(address, t)
    case Return(returned) => returned.Some? && SameSymbol(returned.value, t)
    case Opaque(_, _, operands) => AnySame(operands, t)
    case Unknown(operands, results) => AnySame(operands, t) || AnySame(results, t)
    case GlobalRef(_) => false
  }

  /** The function symbol gets out at this site, at once or through a chain that escapes. */
  ghost predicate SiteLeaks(c: Config, site: StoreSite, t: string) {
    match site
    case InFunction(f, s) =>
      ValidConfig(c) && IsStmt(c, f, s) &&
      (SymbolEscapesAt(c, f, s, t) || exists m :: SymbolFlowsAt(c, f, s, t, m) && EscapesFrom(c, m, {}))
    case InGlobalInit(s) => s < |c.module_.globalInit| && InitUseUnsafe(c, c.module_.globalInit[s], t)
  }

  /** Whether the walk goes past the site at all: bodies that are not reachable do not matter. */
  predicate InReach(c: Config, site: StoreSite) {
    match site
    case InFunction(f, _) => IsReachable(c, f)
    case InGlobalInit(_) => true
  }

  /** The specification of the walk: some statement that can run starts a chain through which `t` escapes. */
  ghost predicate Leaks(c: Config, t: string) {
    FunctionIndex(c.module_.functions, t).None? || exists site :: InReach(c, site) && SiteLeaks(c, site, t)
  }

  lemma SymbolIsMentioned(c: Config, operands: seq<string>, v: string, t: string)
    requires v in operands && SameSymbol(v, t) && FunctionIndex(c.module_.functions, t).Some?
    ensures Mentions(c, operands, FunctionIndex(c.module_.functions, t).value)
  {
    assert NamedFunction(c, v) == FunctionIndex(c.module_.functions, t);
  }

  /** A statement of a body through which the symbol gets anywhere has it among its value operands. */
  lemma SymbolIsOperand(c: Config, f: nat, s: nat, t: string) returns (v: string)
    requires ValidConfig(c) && IsStmt(c, f, s) && (SymbolEscapesAt(c, f, s, t) || exists m :: SymbolFlowsAt(c, f, s, t, m))
    ensures v in ValueOperands(Body(c, f)[s]) && SameSymbol(v, t)
  {
    v :| v in ValueOperands(Body(c, f)[s]) && SameSymbol(v, t);
  }

  lemma InitSymbolIsOperand(c: Config, stmt: Stmt, t: string) returns (v: string)
    requires InitUseUnsafe(c, stmt, t)
    ensures v in InitEscapeOperands(stmt) && SameSymbol(v, t)
  {
    v :| v in InitEscapeOperands(stmt) && SameSymbol(v, t);
  }

  /** The table of symbol uses is complete: wherever the address of a function gets out, it is a recorded use. */
  lemma LeaksAreRecorded(c: Config, site: StoreSite, t: string)
    requires InReach(c, site) && SiteLeaks(c, site, t) && FunctionIndex(c.module_.functions, t).Some?
    ensures IsSymbolUse(c, site, FunctionIndex(c.module_.functions, t).value)
  {
    match site
    case InFunction(f, s) =>
      var v := SymbolIsOperand(c, f, s, t);
      SymbolIsMentioned(c, ValueOperands(Body(c, f)[s]), v, t);
    case InGlobalInit(s) =>
      var v := InitSymbolIsOperand(c, c.module_.globalInit[s], t);
      SymbolIsMentioned(c, InitEscapeOperands(c.module_.globalInit[s]), v, t);
  }

  // ---------------------------------------------------------------------------------------------
  // The walk

  /** Every name a walk may put on its stack. */
  ghost predicate CoversNames(c: Config, names: set<string>) {
    && (forall f: nat, s: nat | IsStmt(c, f, s) && Dest(Body(c, f)[s]).Some? :: Dest(Body(c, f)[s]).value in names)
    && (forall f: nat, v | f < |c.module_.functions| && v in c.module_.functions[f].params :: v in names)
  }

  class EscapeWalk {
    const c: Config
    const index: Index
    ghost const names: set<string>
    var visiting: set<Local>
    /** Answers already computed, by canonical symbol. */
    var cache: map<string, bool>

    constructor (c: Config, index: Index, ghost names: set<string>)
      ensures this.c == c && this.index == index && this.names == names && visiting == {} && cache == map[]
    {
      this.c, this.index, this.names, visiting, cache := c, index, names, {}, map[];
    }

    ghost predicate Ready() {
      (IndexOk(c, index) && CoversNames(c, names)) == true
    }

    /** Only nodes within the depth limit are ever put on the stack. */
    ghost predicate Shallow()
      reads this
    {
      forall n | n in visiting :: n.depth <= c.depthLimit
    }

    ghost predicate CacheOk()
      reads this
    {
      forall t | t in cache :: cache[t] == Leaks(c, t)
    }

    ghost function Left(d: nat): nat {
      if d > c.depthLimit then 0 else c.depthLimit + 1 - d
    }

    ghost function Room(): set<Local>
      reads this
    {
      (set f: nat, v: string, d: nat |
         f < |c.module_.functions| && v in names && d <= c.depthLimit :: Local(f, v, d)) - visiting
    }

    predicate GlobalIsNeverAddressTaken(global: string) {
      var g := CanonicalSymbol(global);
      g !in c.externallyWritable && IsGlobal(c.module_, g) && g !in index.unsafeGlobals
    }

    predicate PlaceIsSimple(root: string) {
      root !in c.externallyWritable && IsGlobal(c.module_, root) && root !in index.unsafeGlobals
    }

    predicate StoreIsTracked(f: nat, s: nat, address: string)
      requires Ready() && IsStmt(c, f, s)
      ensures StoreIsTracked(f, s, address) == TrackedStore(c, f, s, address)
    {
      var place := FunctionPlace(c.module_, Body(c, f), s, address);
      if place.Some? then PlaceIsSimple(place.value.root) else GlobalIsNeverAddressTaken(address)
    }

    method LocalValueEscapes(f: nat, v: string, d: nat) returns (r: bool)
      requires Ready() && Shallow() && f < |c.module_.functions| && v in names
      modifies this`visiting
      ensures visiting == old(visiting)
      ensures r == EscapesFrom(c, Local(f, v, d), visiting)
      decreases Left(d), Room(), 0
    {
      ghost var n := Local(f, v, d);
      if d > c.depthLimit {
        EscapesNow(c, n, visiting);
        return true;
      }
      if Local(f, v, d) in visiting {
        NoEscapeThroughStack(c, n, visiting);
        return false;
      }
      EscapesByUses(c, n, visiting);
      visiting := visiting + {Local(f, v, d)};
      assert n in old(Room()) && n !in Room();
      r := AnyUseEscapes(f, v, d);
      visiting := visiting - {Local(f, v, d)};
    }

    /** The uses of a local that is on the stack. */
    method AnyUseEscapes(f: nat, v: string, d: nat) returns (r: bool)
      requires Ready() && Shallow() && f < |c.module_.functions| && d <= c.depthLimit
      modifies this`visiting
      ensures visiting == old(visiting)
      ensures r <==> exists s :: UsesLocal(c, Local(f, v, d), s) && UseEscapes(c, f, s, v, d, visiting)
      decreases Left(d), Room(), 3
    {
      var uses := Listed(index.localUses, (f, v));
      for k := 0 to |uses|
        invariant visiting == old(visiting)
        invariant forall j | 0 <= j < k :: IsStmt(c, f, uses[j]) && !UseEscapes(c, f, uses[j], v, d, visiting)
      {
        assert uses[k] in uses && UsesLocal(c, Local(f, v, d), uses[k]);
        r := LocalValueUseEscapes(f, uses[k], v, d);
        if r {
          return;
        }
      }
      assert forall s | UsesLocal(c, Local(f, v, d), s) :: s in uses;
      return false;
    }

    method LocalValueUseEscapes(f: nat, s: nat, v: string, d: nat) returns (r: bool)
      requires Ready() && Shallow() && IsStmt(c, f, s) && d <= c.depthLimit
      modifies this`visiting
      ensures visiting == old(visiting)
      ensures r == UseEscapes(c, f, s, v, d, visiting)
      decreases Left(d), Room(), 2
    {
      match Body(c, f)[s]
      case Assign(dest, sources) =>
        if v in sources { r := LocalValueEscapes(f, dest, d); } else { r := false; }
      case ScalarOp(dest, lhs, rhs) =>
        if lhs == v || rhs == v { r := LocalValueEscapes(f, dest, d); } else { r := false; }
      case Gep(dest, base, _) =>
        if base == v { r := LocalValueEscapes(f, dest, d); } else { r := false; }
      case Store(address, value) =>
        r := if value == v then !StoreIsTracked(f, s, address) else address == v;
      case CallDirect(callee, args, _, vararg) =>
        r := ArgumentsEscape(callee, args, vararg, (arg: string) => arg == v, d);
      case Return(returned) =>
        if returned == Some(v) { r := ReturnValueEscapes(f, v, d); } else { r := false; }
      case CallIndirect(operand, args, _) =>
        r := operand != v && v in args;
      case Load(_, address) =>
        r := address == v;
      case Opaque(_, _, operands) =>
        r := v in operands;
      case Unknown(operands, results) =>
        r := v in operands || v in results;
      case GlobalRef(_) =>
        r := false;
    }

    /** Some argument selected by `selects` escapes, at the call or through the callee's parameter. */
    method ArgumentsEscape(callee: string, args: seq<string>, vararg: bool, selects: string -> bool, d: nat)
      returns (r: bool)
      requires Ready() && Shallow() && d <= c.depthLimit
      modifies this`visiting
      ensures visiting == old(visiting)
      ensures r <==>
              || (exists i: nat :: i < |args| && selects(args[i]) && ArgumentEscapes(c, callee, vararg, i))
              || (exists m, i: nat :: i < |args| && selects(args[i]) && ArgumentFlows(c, callee, vararg, i, d, m)
                                      && EscapesFrom(c, m, visiting))
      decreases Left(d), Room(), 1
    {
      for i := 0 to |args|
        invariant visiting == old(visiting)
        invariant forall j: nat | j < i && selects(args[j]) ::
                    !ArgumentEscapes(c, callee, vararg, j)
                    && forall m | ArgumentFlows(c, callee, vararg, j, d, m) :: !EscapesFrom(c, m, visiting)
      {
        if selects(args[i]) {
          r := CallArgEscapes(callee, vararg, i, d);
          if r {
            return;
          }
        }
      }
      return false;
    }

    method CallArgEscapes(callee: string, vararg: bool, i: nat, d: nat) returns (r: bool)
      requires Ready() && Shallow() && d <= c.depthLimit
      modifies this`visiting
      ensures visiting == old(visiting)
      ensures r <==> ArgumentEscapes(c, callee, vararg, i)
                     || exists m :: ArgumentFlows(c, callee, vararg, i, d, m) && EscapesFrom(c, m, visiting)
      decreases Left(d), Room(), 0
    {
      if vararg {
        return true;
      }
      var target := NamedFunction(c, callee);
      if target.None? {
        return true;
      }
      var func := c.module_.functions[target.value];
      if func.external || i >= |func.params| {
        return true;
      }
      assert func.params[i] in func.params;
      r := LocalValueEscapes(target.value, func.params[i], d + 1);
      assert ArgumentFlows(c, callee, vararg, i, d, Local(target.value, func.params[i], d + 1));
    }

    method ReturnValueEscapes(f: nat, v: string, d: nat) returns (r: bool)
      requires Ready() && Shallow() && f < |c.module_.functions| && d <= c.depthLimit
      modifies this`visiting
      ensures visiting == old(visiting)
      ensures r <==> ReturnEscapes(c, f, v) || exists m :: ReturnFlows(c, f, d, m) && EscapesFrom(c, m, visiting)
      decreases Left(d), Room(), 1
    {
      if c.externallyCallable[f] || c.module_.functions[f].addressTaken {
        return true;
      }
      var consumers := Listed(index.returnConsumers, f);
      for k := 0 to |consumers|
        invariant visiting == old(visiting)
        invariant forall j | 0 <= j < k ::
                    !EscapesFrom(c, Local(consumers[j].caller, consumers[j].dest, d + 1), visiting)
      {
        var consumer := consumers[k];
        assert consumer in consumers && IsConsumer(c, consumer, f);
        r := LocalValueEscapes(consumer.caller, consumer.dest, d + 1);
        if r {
          assert ReturnFlows(c, f, d, Local(consumer.caller, consumer.dest, d + 1));
          return;
        }
      }
      r := consumers == [] && v != "";
      forall m | ReturnFlows(c, f, d, m)
        ensures !EscapesFrom(c, m, visiting)
      {
        assert Consumer(m.func, m.value) in consumers;
      }
      if consumers != [] {
        assert consumers[0] in consumers && IsConsumer(c, consumers[0], f);
      }
    }

    method FunctionSymbolUseEscapes(f: nat, s: nat, t: string) returns (r: bool)
      requires Ready() && IsStmt(c, f, s) && visiting == {}
      modifies this`visiting
      ensures visiting == {}
      ensures r == SiteLeaks(c, InFunction(f, s), t)
    {
      match Body(c, f)[s]
      case Assign(dest, sources) =>
        if AnySame(sources, t) { r := LocalValueEscapes(f, dest, 0); } else { r := false; }
      case ScalarOp(dest, lhs, rhs) =>
        if SameSymbol(lhs, t) || SameSymbol(rhs, t) { r := LocalValueEscapes(f, dest, 0); } else { r := false; }
      case Store(address, value) =>
        r := SameSymbol(value, t) && !StoreIsTracked(f, s, address);
      case CallDirect(callee, args, _, vararg) =>
        r := ArgumentsEscape(callee, args, vararg, (arg: string) => SameSymbol(arg, t), 0);
      case CallIndirect(operand, args, _) =>
        r := !SameSymbol(operand, t) && AnySame(args, t);
      case Return(returned) =>
        if returned.Some? && SameSymbol(returned.value, t) {
          r := ReturnValueEscapes(f, t, 0);
        } else {
          r := false;
        }
      case Load(_, address) =>
        r := SameSymbol(address, t);
      case Gep(_, base, _) =>
        r := SameSymbol(base, t);
      case Opaque(_, _, operands) =>
        r := AnySame(operands, t);
      case Unknown(operands, results) =>
        r := AnySame(operands, t) || AnySame(results, t);
      case GlobalRef(_) =>
        r := false;
    }

    method InitUseEscapes(stmt: Stmt, t: string) returns (r: bool)
      requires Ready()
      ensures r == InitUseUnsafe(c, stmt, t)
    {
      match stmt
      case Assign(_, _) => r := false;
      case ScalarOp(dest, lhs, rhs) => r := AnySame([dest, lhs, rhs], t);
      case Store(address, value) => r := SameSymbol(value, t) && !GlobalIsNeverAddressTaken(address);
      case CallIndirect(operand, args, result) =>
        r := AnySame(args, t) || (!SameSymbol(operand, t) && result.Some? && SameSymbol(result.value, t));
      case CallDirect(callee, args, result, _) =>
        r := SameSymbol(callee, t) || AnySame(args, t) || (result.Some? && SameSymbol(result.value, t));
      case Opaque(Marker, result, _) => r := result.Some? && SameSymbol(result.value, t);
      case _ =>
        r := AnySame(Operands(stmt), t);
        OperandsAppear(stmt);
    }

    method SymbolUseEscapes(site: StoreSite, target: nat, t: string) returns (r: bool)
      requires Ready() && visiting == {} && IsSymbolUse(c, site, target)
      modifies this`visiting
      ensures visiting == {} && r == SiteLeaks(c, site, t)
    {
      match site {
        case InFunction(f, s) => r := FunctionSymbolUseEscapes(f, s, t);
        case InGlobalInit(s) => r := InitUseEscapes(c.module_.globalInit[s], t);
      }
    }

    /** Tries the uses of a function in turn. */
    method AnySymbolUseEscapes(uses: seq<StoreSite>, target: nat, t: string) returns (r: bool)
      requires Ready() && visiting == {} && forall site | site in uses :: IsSymbolUse(c, site, target)
      modifies this`visiting
      ensures visiting == {} && (r <==> exists site :: site in uses && SiteLeaks(c, site, t))
    {
      hide SiteLeaks, IsSymbolUse;
      for k := 0 to |uses|
        invariant visiting == {}
        invariant forall j | 0 <= j < k :: !SiteLeaks(c, uses[j], t)
      {
        r := SymbolUseEscapes(uses[k], target, t);
        if r {
          return;
        }
      }
      return false;
    }

    lemma SymbolUsesListed(target: nat)
      requires Ready()
      ensures forall site :: site in Listed(index.functionSymbolUses, target) <==> IsSymbolUse(c, site, target)
    {
    }

    /** The recorded uses suffice: every leak is among them, and none of them lies out of reach. */
    lemma UsesDecide(uses: seq<StoreSite>, target: nat, t: string)
      requires FunctionIndex(c.module_.functions, t) == Some(target)
      requires forall site :: site in uses <==> IsSymbolUse(c, site, target)
      ensures Leaks(c, t) <==> exists site :: site in uses && SiteLeaks(c, site, t)
    {
      if site :| InReach(c, site) && SiteLeaks(c, site, t) {
        LeaksAreRecorded(c, site, t);
      }
      if site :| site in uses && SiteLeaks(c, site, t) {
        assert InReach(c, site);
      }
    }

    method ComputeFunctionHasUnsafeEscape(t: string) returns (r: bool)
      requires Ready() && visiting == {}
      modifies this`visiting
      ensures visiting == {}
      ensures r == Leaks(c, t)
    {
      var target := FunctionIndex(c.module_.functions, t);
      if target.None? {
        return true;
      }
      SymbolUsesListed(target.value);
      var uses := Listed(index.functionSymbolUses, target.value);
      r := AnySymbolUseEscapes(uses, target.value, t);
      UsesDecide(uses, target.value, t);
    }

    /** The cached form: it answers exactly what a fresh computation would. */
    method FunctionHasUnsafeEscape(target: string) returns (r: bool)
      requires Ready() && visiting == {} && CacheOk()
      modifies this
      ensures visiting == {} && CacheOk()
      ensures r == Leaks(c, CanonicalSymbol(target))
      ensures cache == old(cache)[CanonicalSymbol(target) := r]
    {
      var t := CanonicalSymbol(target);
      if t in cache {
        assert cache == cache[t := cache[t]];
        return cache[t];
      }
      r := ComputeFunctionHasUnsafeEscape(t);
      cache := cache[t := r];
    }
  }
}
