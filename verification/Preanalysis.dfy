/**
 The index that the simple-flow resolver builds in one pass over the module, and what each table must
 list.
 */
module Preanalysis {
  import opened Sorting
  import opened Pir
  import opened Producers

  datatype StoreSite = InFunction(func: nat, stmt: nat) | InGlobalInit(stmt: nat)
  datatype ActualSite = ActualSite(caller: nat, stmt: nat, actual: string)
  datatype Consumer = Consumer(caller: nat, dest: string)

  datatype Index = Index(
    directCallCount: seq<nat>, directActuals: map<(nat, nat), seq<ActualSite>>,
    storesByPlace: map<Place, seq<StoreSite>>, unsafeGlobals: set<string>,
    functionSymbolUses: map<nat, seq<StoreSite>>, localUses: map<(nat, string), seq<nat>>,
    returnConsumers: map<nat, seq<Consumer>>)

  /** `get(&key).cloned().unwrap_or_default()`. */
  function Listed<K, T>(m: map<K, seq<T>>, k: K): seq<T> {
    if k in m then m[k] else []
  }

  /** `entry(key).or_default().push(value)`. */
  function Pushed<K(!new), T>(m: map<K, seq<T>>, k: K, x: T): (r: map<K, seq<T>>)
    ensures Listed(r, k) == Listed(m, k) + [x]
    ensures forall j | j != k :: Listed(r, j) == Listed(m, j)
  {
    m[k := Listed(m, k) + [x]]
  }

  ghost predicate IsStoreSite(c: Config, site: StoreSite, place: Place) {
    match site
    case InFunction(f, s) => StoresAt(c, f, s, place)
    case InGlobalInit(s) => InitStoresAt(c, s, place)
  }

  ghost predicate IsActualSite(c: Config, a: ActualSite, callee: nat, i: nat) {
    && CallsDirectly(c, a.caller, a.stmt, callee)
    && i < |Body(c, a.caller)[a.stmt].args| && Body(c, a.caller)[a.stmt].args[i] == a.actual
  }

  ghost function DirectCalls(c: Config, callee: nat): set<(nat, nat)> {
    set g: nat, s: nat | g < |c.module_.functions| && s < |Body(c, g)| && CallsDirectly(c, g, s, callee) :: (g, s)
  }

  /** Operands that a statement uses as values: not the callee of a direct call. */
  function ValueOperands(stmt: Stmt): seq<string> {
    if stmt.CallDirect? then stmt.args else Operands(stmt)
  }

  function OptionList(value: Option<string>): seq<string> {
    if value.Some? then [value.value] else []
  }

  /** Positions of an initializer statement through which a function may get out. */
  function InitEscapeOperands(stmt: Stmt): seq<string> {
    match stmt
    case Assign(_, _) => []
    case ScalarOp(dest, lhs, rhs) => [dest, lhs, rhs]
    case Store(_, value) => [value]
    case CallDirect(callee, args, result, _) => [callee] + args + OptionList(result)
    case CallIndirect(operand, args, result) => [operand] + args + OptionList(result)
    case Opaque(Marker, result, _) => OptionList(result)
    case _ => Operands(stmt)
  }

  ghost predicate Mentions(c: Config, operands: seq<string>, t: nat) {
    exists v :: v in operands && NamedFunction(c, v) == Some(t)
  }

  /** A place where the address of function `t` is used as a value. */
  ghost predicate IsSymbolUse(c: Config, site: StoreSite, t: nat) {
    match site
    case InFunction(f, s) => IsStmt(c, f, s) && IsReachable(c, f) && Mentions(c, ValueOperands(Body(c, f)[s]), t)
    case InGlobalInit(s) =>
      s < |c.module_.globalInit| && Mentions(c, InitEscapeOperands(c.module_.globalInit[s]), t)
  }

  /** `consumer` receives what `callee` returns. */
  ghost predicate ConsumesAt(c: Config, consumer: Consumer, s: nat, callee: nat) {
    IsStmt(c, consumer.caller, s) && Body(c, consumer.caller)[s].CallDirect?
    && IsCallee(c, Body(c, consumer.caller)[s].callee, callee)
    && Body(c, consumer.caller)[s].result == Some(consumer.dest)
  }

  ghost predicate IsConsumer(c: Config, consumer: Consumer, callee: nat) {
    exists s: nat :: ConsumesAt(c, consumer, s, callee)
  }

  /** Each table lists exactly the sites that a scan of the module finds. */
  ghost predicate IndexOk(c: Config, ix: Index) {
    && ValidConfig(c)
    && (forall place, site :: site in Listed(ix.storesByPlace, place) <==> IsStoreSite(c, site, place))
    && (forall g :: g in ix.unsafeGlobals <==> UnsafeGlobal(c, g))
    && |ix.directCallCount| == |c.module_.functions|
    && (forall f: nat | f < |ix.directCallCount| :: ix.directCallCount[f] == |DirectCalls(c, f)|)
    && (forall f, i :: NoDuplicates(Listed(ix.directActuals, (f, i))))
    && (forall f, i, a :: a in Listed(ix.directActuals, (f, i)) <==> IsActualSite(c, a, f, i))
    && (forall t, site :: site in Listed(ix.functionSymbolUses, t) <==> IsSymbolUse(c, site, t))
    && (forall f, v, s: nat :: s in Listed(ix.localUses, (f, v)) <==> IsStmt(c, f, s) && v in Operands(Body(c, f)[s]))
    && (forall t, r :: r in Listed(ix.returnConsumers, t) <==> IsConsumer(c, r, t))
  }
}
