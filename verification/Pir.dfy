/** The statements that the simple-flow and initial-value resolvers read. */
module Pir {
  import opened Sorting

  /**
   What an opaque statement is. `VaList` covers va_start, va_end and va_copy; `Marker` covers alloca and
   va_arg, which have no value operands.
   */
  datatype OpaqueKind = PtrToInt | IntToPtr | Memcpy | Memset | VaList | Marker

  datatype Stmt =
    | Assign(dest: string, sources: seq<string>)
    | ScalarOp(dest: string, lhs: string, rhs: string)
    | Gep(dest: string, base: string, byteOff: Option<int>)
    | Load(dest: string, address: string)
    | Store(address: string, value: string)
    | CallDirect(callee: string, args: seq<string>, result: Option<string>, vararg: bool)
    | CallIndirect(operand: string, args: seq<string>, result: Option<string>)
    | Return(returned: Option<string>)
    | Opaque(kind: OpaqueKind, result: Option<string>, operands: seq<string>)
    | Unknown(operands: seq<string>, results: seq<string>)
    | GlobalRef(global: string)

  datatype Func = Func(
    key: string, params: seq<string>, body: seq<Stmt>, external: bool, exported: bool, addressTaken: bool)
  datatype Global = Global(key: string, exported: bool)
  datatype Module = Module(functions: seq<Func>, globals: seq<Global>, globalInit: seq<Stmt>)

  /** A byte offset inside a global. */
  datatype Place = Place(root: string, byteOff: int)

  function CanonicalSymbol(value: string): string {
    if value != [] && value[0] == '@' then value[1..] else value
  }

  /** `value` is `symbol`, with or without a sigil in front. */
  ghost predicate Spells(value: string, symbol: string) {
    value == "@" + symbol || (value == symbol && !("@" <= symbol))
  }

  lemma CanonicalIsSpelled(value: string, symbol: string)
    ensures CanonicalSymbol(value) == symbol <==> Spells(value, symbol)
  {
    if value != [] && value[0] == '@' {
      assert value == "@" + value[1..];
      assert ("@" + symbol)[1..] == symbol;
    }
  }

  /** `i64::checked_add`. */
  function CheckedAdd(a: int, b: int): Option<int> {
    if -0x8000_0000_0000_0000 <= a + b < 0x8000_0000_0000_0000 then Some(a + b) else None
  }

  function Dest(stmt: Stmt): Option<string> {
    match stmt
    case Assign(dest, _) => Some(dest)
    case ScalarOp(dest, _, _) => Some(dest)
    case Gep(dest, _, _) => Some(dest)
    case Load(dest, _) => Some(dest)
    case Store(_, _) => None
    case CallDirect(_, _, result, _) => result
    case CallIndirect(_, _, result) => result
    case Return(_) => None
    case Opaque(_, result, _) => result
    case Unknown(_, results) => if results == [] then None else Some(results[0])
    case GlobalRef(_) => None
  }

  /** The statement gives the value its meaning. */
  ghost predicate Defines(stmt: Stmt, value: string) {
    match stmt
    case Assign(dest, _) => value == dest
    case ScalarOp(dest, _, _) => value == dest
    case Gep(dest, _, _) => value == dest
    case Load(dest, _) => value == dest
    case CallDirect(_, _, result, _) => result == Some(value)
    case CallIndirect(_, _, result) => result == Some(value)
    case Opaque(_, result, _) => result == Some(value)
    case Unknown(_, results) => [value] <= results
    case Store(_, _) => false
    case Return(_) => false
    case GlobalRef(_) => false
  }

  lemma DestDefines(stmt: Stmt, value: string)
    ensures Dest(stmt) == Some(value) <==> Defines(stmt, value)
  {
  }

  /** What an unknown statement yields counts as operands too. */
  function Operands(stmt: Stmt): seq<string> {
    match stmt
    case Assign(_, sources) => sources
    case ScalarOp(_, lhs, rhs) => [lhs, rhs]
    case Gep(_, base, _) => [base]
    case Load(_, address) => [address]
    case Store(address, value) => [address, value]
    case CallDirect(callee, args, _, _) => [callee] + args
    case CallIndirect(operand, args, _) => [operand] + args
    case Return(returned) => if returned.Some? then [returned.value] else []
    case Opaque(_, _, operands) => operands
    case Unknown(operands, results) => operands + results
    case GlobalRef(_) => []
  }

  /** The value appears in the statement, be it as the callee of a direct call. */
  ghost predicate Appears(stmt: Stmt, value: string) {
    match stmt
    case Assign(_, sources) => value in sources
    case ScalarOp(_, lhs, rhs) => value == lhs || value == rhs
    case Gep(_, base, _) => value == base
    case Load(_, address) => value == address
    case Store(address, stored) => value == address || value == stored
    case CallDirect(callee, args, _, _) => value == callee || value in args
    case CallIndirect(operand, args, _) => value == operand || value in args
    case Return(returned) => returned == Some(value)
    case Opaque(_, _, operands) => value in operands
    case Unknown(operands, results) => value in operands || value in results
    case GlobalRef(_) => false
  }

  lemma OperandsAppear(stmt: Stmt)
    ensures forall value :: value in Operands(stmt) <==> Appears(stmt, value)
  {
  }

  /** The last statement that defines `value`: the entry a table filled in statement order keeps. */
  function LastDef(body: seq<Stmt>, value: string): (d: Option<nat>)
    ensures d.Some? ==> d.value < |body| && Dest(body[d.value]) == Some(value)
    ensures d.Some? ==> forall j | d.value < j < |body| :: Dest(body[j]) != Some(value)
    ensures d.None? ==> forall j | 0 <= j < |body| :: Dest(body[j]) != Some(value)
  {
    if body == [] then None
    else if Dest(body[|body| - 1]) == Some(value) then Some(|body| - 1)
    else
      assert forall j | 0 <= j < |body| - 1 :: body[..|body| - 1][j] == body[j];
      LastDef(body[..|body| - 1], value)
  }

  /** The function a symbol names; with equal names the last one, as in a table filled in order. */
  function FunctionIndex(functions: seq<Func>, symbol: string): (d: Option<nat>)
    ensures d.Some? ==> d.value < |functions| && CanonicalSymbol(functions[d.value].key) == symbol
    ensures d.Some? ==> forall j | d.value < j < |functions| :: CanonicalSymbol(functions[j].key) != symbol
    ensures d.None? ==> forall f | f in functions :: CanonicalSymbol(f.key) != symbol
  {
    if functions == [] then None
    else if CanonicalSymbol(functions[|functions| - 1].key) == symbol then Some(|functions| - 1)
    else
      assert functions == functions[..|functions| - 1] + [functions[|functions| - 1]];
      FunctionIndex(functions[..|functions| - 1], symbol)
  }

  predicate IsGlobal(m: Module, symbol: string) {
    exists g | g in m.globals :: CanonicalSymbol(g.key) == symbol
  }

  function ParamIndex(params: seq<string>, value: string): (d: Option<nat>)
    ensures d.Some? ==> d.value < |params| && params[d.value] == value && value !in params[..d.value]
    ensures d.None? ==> value !in params
  {
    if params == [] then None
    else if params[0] == value then Some(0)
    else
      var rest := ParamIndex(params[1..], value);
      assert params == [params[0]] + params[1..];
      if rest.None? then None
      else
        assert params[..rest.value + 1] == [params[0]] + params[1..][..rest.value];
        Some(rest.value + 1)
  }

  function Shifted(place: Option<Place>, byteOff: int): Option<Place> {
    if place.None? || CheckedAdd(place.value.byteOff, byteOff).None? then None
    else Some(Place(place.value.root, CheckedAdd(place.value.byteOff, byteOff).value))
  }

  /** The global place that `value` addresses just before statement `before` of a function body. */
  function FunctionPlace(m: Module, body: seq<Stmt>, before: nat, value: string): Option<Place>
    decreases before
  {
    var symbol := CanonicalSymbol(value);
    if IsGlobal(m, symbol) then Some(Place(symbol, 0))
    else
      var def := LastDef(body, value);
      if def.None? || def.value >= before then None
      else
        match body[def.value]
        case Gep(_, base, Some(byteOff)) => Shifted(FunctionPlace(m, body, def.value, base), byteOff)
        case Assign(_, sources) => if |sources| == 1 then FunctionPlace(m, body, def.value, sources[0]) else None
        case _ => None
  }

  /** The last definition of `value` among the initializer statements before `before`. */
  function GlobalInitDefinitionBefore(m: Module, before: nat, value: string): (d: Option<nat>)
    ensures d.Some? ==> d.value < before && d.value < |m.globalInit| && Dest(m.globalInit[d.value]) == Some(value)
  {
    LastDef(if before <= |m.globalInit| then m.globalInit[..before] else m.globalInit, value)
  }

  function GlobalInitPlace(m: Module, before: nat, value: string): Option<Place>
    decreases before
  {
    var symbol := CanonicalSymbol(value);
    if IsGlobal(m, symbol) then Some(Place(symbol, 0))
    else
      var def := GlobalInitDefinitionBefore(m, before, value);
      if def.None? then None
      else
        match m.globalInit[def.value]
        case Gep(_, base, Some(byteOff)) => Shifted(GlobalInitPlace(m, def.value, base), byteOff)
        case Assign(_, sources) => if |sources| == 1 then GlobalInitPlace(m, def.value, sources[0]) else None
        case _ => None
  }
}
