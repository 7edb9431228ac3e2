/**
 The producer graph of the simple-flow resolver, read straight off the statements: which values,
 parameters, returns and global places feed a value, and where the flow cannot be followed.
 */
module Producers {
  import opened Paths
  import opened Sorting
  import opened Pir

  datatype Config = Config(
    module_: Module, depthLimit: nat, reachable: seq<bool>, externallyCallable: seq<bool>,
    externallyWritable: set<string>)

  ghost predicate ValidConfig(c: Config) {
    |c.reachable| == |c.externallyCallable| == |c.module_.functions|
  }

  /** A function symbol and the function whose body names it, none for the initializer. */
  datatype Origin = Origin(target: nat, owner: Option<nat>)

  datatype Node =
    | Val(func: nat, value: string, depth: nat)
    | Param(func: nat, index: nat, depth: nat)
    | Ret(func: nat, depth: nat)
    | At(place: Place, depth: nat)
    | Init(before: nat, value: string, depth: nat)
    | Symbol(origin: Origin)

  function Body(c: Config, f: nat): seq<Stmt>
    requires f < |c.module_.functions|
  {
    c.module_.functions[f].body
  }

  function NamedFunction(c: Config, value: string): (d: Option<nat>)
    ensures d.Some? ==> d.value < |c.module_.functions|
  {
    FunctionIndex(c.module_.functions, CanonicalSymbol(value))
  }

  /** A direct callee counts for argument flow only under its exact key. */
  function ExactFunction(c: Config, callee: string): (d: Option<nat>)
    ensures d.Some? ==> d.value < |c.module_.functions|
  {
    var d := NamedFunction(c, callee);
    if d.Some? && c.module_.functions[d.value].key == callee then d else None
  }

  /** Both are the same symbol, each with or without a sigil. */
  ghost predicate SpelledAlike(a: string, b: string) {
    exists symbol :: Spells(a, symbol) && Spells(b, symbol)
  }

  lemma AlikeIsSame(a: string, b: string)
    ensures SpelledAlike(a, b) <==> CanonicalSymbol(a) == CanonicalSymbol(b)
  {
    CanonicalIsSpelled(a, CanonicalSymbol(a));
    CanonicalIsSpelled(b, CanonicalSymbol(a));
    if symbol :| Spells(a, symbol) && Spells(b, symbol) {
      CanonicalIsSpelled(a, symbol);
      CanonicalIsSpelled(b, symbol);
    }
  }

  /** The value is spelled like function `t` and like none behind it. */
  ghost predicate IsNamed(c: Config, value: string, t: nat) {
    && t < |c.module_.functions| && SpelledAlike(value, c.module_.functions[t].key)
    && forall j | t < j < |c.module_.functions| :: !SpelledAlike(value, c.module_.functions[j].key)
  }

  /** What a value names: the last function, or some global, that is spelled like it. */
  lemma NamesAreSpelled(c: Config, value: string)
    ensures forall t: nat :: NamedFunction(c, value) == Some(t) <==> IsNamed(c, value, t)
    ensures NamesGlobal(c, value) <==> exists g :: g in c.module_.globals && SpelledAlike(value, g.key)
  {
    forall key: string
      ensures SpelledAlike(value, key) <==> CanonicalSymbol(value) == CanonicalSymbol(key)
    {
      AlikeIsSame(value, key);
    }
    hide SpelledAlike, CanonicalSymbol;
  }

  /** The callee is the very key of the function that it names. */
  ghost predicate IsCallee(c: Config, callee: string, t: nat) {
    IsNamed(c, callee, t) && c.module_.functions[t].key == callee
  }

  lemma ExactIsCallee(c: Config, callee: string)
    ensures forall t: nat :: ExactFunction(c, callee) == Some(t) <==> IsCallee(c, callee, t)
  {
    NamesAreSpelled(c, callee);
    hide IsNamed;
  }

  predicate NamesGlobal(c: Config, value: string) {
    IsGlobal(c.module_, CanonicalSymbol(value))
  }

  predicate IsStmt(c: Config, f: nat, s: nat) {
    f < |c.module_.functions| && s < |Body(c, f)|
  }

  predicate IsReachable(c: Config, f: nat) {
    f < |c.reachable| && c.reachable[f]
  }

  // ---------------------------------------------------------------------------------------------
  // Globals whose address gets out of hand

  function DirectGlobal(c: Config, operand: string): Option<string> {
    if NamesGlobal(c, operand) then Some(CanonicalSymbol(operand)) else None
  }

  /** `operand` carries the address of global `g` into a use the resolver does not track. */
  predicate Exposes(c: Config, place: Option<Place>, operand: string, g: string) {
    if place.Some? then place.value.root == g else DirectGlobal(c, operand) == Some(g)
  }

  /** A memory access through `operand` whose place is unknown. */
  predicate Misses(c: Config, place: Option<Place>, operand: string, g: string) {
    place.None? && DirectGlobal(c, operand) == Some(g)
  }

  ghost predicate StmtExposes(c: Config, stmt: Stmt, placeOf: string -> Option<Place>, g: string) {
    match stmt
    case Load(_, address) => Misses(c, placeOf(address), address, g)
    case Store(address, value) =>
      Misses(c, placeOf(address), address, g) || Exposes(c, placeOf(value), value, g)
    case Gep(_, base, Some(_)) => Misses(c, placeOf(base), base, g)
    case Gep(_, base, None) => Exposes(c, placeOf(base), base, g)
    case _ => exists operand :: Appears(stmt, operand) && Exposes(c, placeOf(operand), operand, g)
  }

  ghost function PlacesIn(c: Config, f: nat, s: nat): string -> Option<Place>
    requires f < |c.module_.functions|
  {
    (value: string) => FunctionPlace(c.module_, Body(c, f), s, value)
  }

  ghost function PlacesInInit(c: Config, s: nat): string -> Option<Place> {
    (value: string) => GlobalInitPlace(c.module_, s, value)
  }

  ghost predicate FunctionExposes(c: Config, f: nat, s: nat, g: string) {
    IsStmt(c, f, s) && IsReachable(c, f) && StmtExposes(c, Body(c, f)[s], PlacesIn(c, f, s), g)
  }

  ghost predicate InitExposes(c: Config, s: nat, g: string) {
    s < |c.module_.globalInit| && StmtExposes(c, c.module_.globalInit[s], PlacesInInit(c, s), g)
  }

  ghost predicate UnsafeGlobal(c: Config, g: string) {
    (exists f, s :: FunctionExposes(c, f, s, g)) || (exists s :: InitExposes(c, s, g))
  }

  /** The global is written only where the resolver sees it. */
  ghost predicate SafeGlobal(c: Config, g: string) {
    g !in c.externallyWritable && IsGlobal(c.module_, g) && !UnsafeGlobal(c, g)
  }

  /** A global stored as a value is unsafe: this is what ends chains of globals stored in globals. */
  lemma StoredGlobalIsUnsafe(c: Config, f: nat, s: nat)
    requires IsStmt(c, f, s) && IsReachable(c, f) && Body(c, f)[s].Store? && NamesGlobal(c, Body(c, f)[s].value)
    ensures UnsafeGlobal(c, CanonicalSymbol(Body(c, f)[s].value))
  {
    assert FunctionExposes(c, f, s, CanonicalSymbol(Body(c, f)[s].value));
  }

  // ---------------------------------------------------------------------------------------------
  // Sites

  /** A store into `place` by a reachable function. */
  ghost predicate StoresAt(c: Config, f: nat, s: nat, place: Place) {
    IsStmt(c, f, s) && IsReachable(c, f) && Body(c, f)[s].Store?
    && FunctionPlace(c.module_, Body(c, f), s, Body(c, f)[s].address) == Some(place)
  }

  /** A store into `place` by the global initializer. */
  ghost predicate InitStoresAt(c: Config, s: nat, place: Place) {
    s < |c.module_.globalInit| && c.module_.globalInit[s].Store?
    && GlobalInitPlace(c.module_, s, c.module_.globalInit[s].address) == Some(place)
  }

  /** A direct call of `callee` by a reachable function. */
  ghost predicate CallsDirectly(c: Config, f: nat, s: nat, callee: nat) {
    IsStmt(c, f, s) && IsReachable(c, f) && Body(c, f)[s].CallDirect? && IsCallee(c, Body(c, f)[s].callee, callee)
  }

  ghost predicate ReturnsAt(c: Config, f: nat, s: nat) {
    IsStmt(c, f, s) && Body(c, f)[s].Return? && Body(c, f)[s].returned.Some?
  }

  // ---------------------------------------------------------------------------------------------
  // The graph

  /** `v` is neither a function, nor a global, nor a parameter of `f`: only a statement can define it. */
  predicate IsLocal(c: Config, f: nat, v: string) {
    f < |c.module_.functions| && NamedFunction(c, v).None? && !NamesGlobal(c, v)
    && ParamIndex(c.module_.functions[f].params, v).None?
  }

  function Def(c: Config, f: nat, v: string): (d: Option<nat>)
    requires f < |c.module_.functions|
    ensures d.Some? ==> d.value < |Body(c, f)|
  {
    LastDef(Body(c, f), v)
  }

  /** `b` is a producer that the definition `body[i]` of a local feeds on. */
  ghost predicate DefFeeds(c: Config, f: nat, i: nat, d: nat, b: Node)
    requires IsStmt(c, f, i)
  {
    match Body(c, f)[i]
    case Assign(_, sources) => b.Val? && b.func == f && b.depth == d && b.value in sources
    case Gep(_, base, _) => b == Val(f, base, d)
    case Load(_, address) =>
      b.At? && b.depth == d && FunctionPlace(c.module_, Body(c, f), i, address) == Some(b.place)
    case CallDirect(callee, _, _, _) => b.Ret? && b.depth == d + 1 && NamedFunction(c, callee) == Some(b.func)
    case _ => false
  }

  /** `a` takes its value from `b`; for a value `b` of a body, `pos` is the statement that uses it. */
  ghost predicate Uses(c: Config, a: Node, b: Node, pos: nat) {
    match a
    case Val(f, v, d) =>
      d <= c.depthLimit && f < |c.module_.functions| &&
      (match NamedFunction(c, v)
       case Some(t) => b == Symbol(Origin(t, Some(f)))
       case None =>
         if NamesGlobal(c, v) then b == At(Place(CanonicalSymbol(v), 0), d)
         else
           match ParamIndex(c.module_.functions[f].params, v)
           case Some(i) => b == Param(f, i, d + 1)
           case None => Def(c, f, v).Some? && pos == Def(c, f, v).value && DefFeeds(c, f, pos, d, b))
    case Param(f, i, d) =>
      d <= c.depthLimit && b.Val? && b.depth == d && CallsDirectly(c, b.func, pos, f)
      && i < |Body(c, b.func)[pos].args| && Body(c, b.func)[pos].args[i] == b.value
    case Ret(f, d) =>
      d <= c.depthLimit && b.Val? && b.func == f && b.depth == d && ReturnsAt(c, f, pos)
      && Body(c, f)[pos].returned.value == b.value
    case At(place, d) =>
      d <= c.depthLimit &&
      (|| (b.Val? && b.depth == d && StoresAt(c, b.func, pos, place) && Body(c, b.func)[pos].value == b.value)
       || (b.Init? && b.depth == d && b.before == pos && InitStoresAt(c, pos, place)
           && c.module_.globalInit[pos].value == b.value))
    case Init(before, v, d) =>
      d <= c.depthLimit &&
      (match NamedFunction(c, v)
       case Some(t) => b == Symbol(Origin(t, None))
       case None =>
         if NamesGlobal(c, v) then b == At(Place(CanonicalSymbol(v), 0), d + 1)
         else
           var def := GlobalInitDefinitionBefore(c.module_, before, v);
           def.Some? && b.Init? && b.before == def.value && b.depth == d &&
           (match c.module_.globalInit[def.value]
            case Assign(_, sources) => b.value in sources
            case Gep(_, base, _) => b.value == base
            case _ => false))
    case Symbol(_) => false
  }

  ghost predicate Feeds(c: Config, a: Node, b: Node) {
    exists pos :: Uses(c, a, b, pos)
  }

  ghost function Flow(c: Config): (Node, Node) -> bool {
    (a: Node, b: Node) => Feeds(c, a, b)
  }

  ghost predicate Produces(c: Config, a: Node, b: Node) {
    Reach(Flow(c), a, b)
  }

  /** The statement that defines a local is of no use to the resolver. */
  ghost predicate DefStuck(c: Config, f: nat, i: nat)
    requires IsStmt(c, f, i)
  {
    match Body(c, f)[i]
    case Assign(_, sources) => sources == []
    case Gep(_, _, _) => false
    case Load(_, address) => FunctionPlace(c.module_, Body(c, f), i, address).None?
    case CallDirect(callee, _, _, _) => NamedFunction(c, callee).None?
    case _ => true
  }

  /** The flow cannot be followed beyond this node. */
  ghost predicate Stuck(c: Config, a: Node) {
    match a
    case Val(f, v, d) =>
      d > c.depthLimit || (IsLocal(c, f, v) && (Def(c, f, v).None? || DefStuck(c, f, Def(c, f, v).value)))
    case Param(f, i, d) =>
      || d > c.depthLimit
      || !(f < |c.externallyCallable|) || c.externallyCallable[f]
      || !(exists g: nat, s: nat :: CallsDirectly(c, g, s, f))
      || (exists g: nat, s: nat :: CallsDirectly(c, g, s, f) && |Body(c, g)[s].args| <= i)
    case Ret(f, d) =>
      || d > c.depthLimit
      || !(f < |c.module_.functions|) || c.module_.functions[f].external
      || !(exists s :: ReturnsAt(c, f, s))
    case At(place, d) =>
      || d > c.depthLimit
      || !SafeGlobal(c, place.root)
      || !((exists f, s :: StoresAt(c, f, s, place)) || (exists s :: InitStoresAt(c, s, place)))
    case Init(before, v, d) =>
      || d > c.depthLimit
      || (NamedFunction(c, v).None? && !NamesGlobal(c, v) && InitDefStuck(c, before, v))
    case Symbol(_) => false
  }

  ghost predicate InitDefStuck(c: Config, before: nat, v: string) {
    var def := GlobalInitDefinitionBefore(c.module_, before, v);
    || def.None?
    || (match c.module_.globalInit[def.value]
        case Assign(_, sources) => sources == []
        case Gep(_, _, _) => false
        case _ => true)
  }

  /** A local used at `pos` whose definition comes no earlier. */
  ghost predicate Late(c: Config, b: Node, pos: nat) {
    b.Val? && IsLocal(c, b.func, b.value) && Def(c, b.func, b.value).Some? && Def(c, b.func, b.value).value >= pos
  }

  /** Following `a` fails here: it is stuck, or it uses a local before its definition. */
  ghost predicate Faulty(c: Config, a: Node) {
    Stuck(c, a) || exists b, pos :: Uses(c, a, b, pos) && Late(c, b, pos)
  }
}
