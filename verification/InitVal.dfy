/** The initial-value resolver: what the initializer stores, and which indirect calls that settles. */
module InitVal {
  import opened Sorting
  import opened Paths
  import opened Pir

  datatype Source = FunctionSource(key: string) | GlobalSource(key: string)

  datatype SlotValue = SlotValue(targets: set<string>, sites: set<Source>)

  function Joined(a: SlotValue, b: SlotValue): SlotValue {
    SlotValue(a.targets + b.targets, a.sites + b.sites)
  }

  // ---------------------------------------------------------------------------------------------
  // Statements as this resolver reads them

  /** An unknown statement defines nothing here. */
  function InitDest(stmt: Stmt): Option<string> {
    if stmt.Unknown? then None else Dest(stmt)
  }

  /** The callee of a direct call is not an operand here; a referenced global is. */
  function InitOperands(stmt: Stmt): seq<string> {
    match stmt
    case CallDirect(_, args, _, _) => args
    case GlobalRef(global) => [global]
    case _ => Operands(stmt)
  }

  /** The last definition in a body. */
  function InitDef(body: seq<Stmt>, value: string): (d: Option<nat>)
    ensures d.Some? ==> d.value < |body| && InitDest(body[d.value]) == Some(value)
    ensures d.Some? ==> forall j | d.value < j < |body| :: InitDest(body[j]) != Some(value)
    ensures d.None? ==> forall j | 0 <= j < |body| :: InitDest(body[j]) != Some(value)
  {
    if body == [] then None
    else if InitDest(body[|body| - 1]) == Some(value) then Some(|body| - 1)
    else
      assert forall j | 0 <= j < |body| - 1 :: body[..|body| - 1][j] == body[j];
      InitDef(body[..|body| - 1], value)
  }

  /** The last definition before a statement of the initializer. */
  function InitDefBefore(m: Module, before: nat, value: string): (d: Option<nat>)
    ensures d.Some? ==> d.value < before && d.value < |m.globalInit|
  {
    InitDef(if before <= |m.globalInit| then m.globalInit[..before] else m.globalInit, value)
  }

  predicate NamesGlobal(m: Module, key: string) {
    exists g | g in m.globals :: g.key == key
  }

  /** A global under its own key, or under its key with a sigil. */
  function GlobalKey(m: Module, operand: string): (r: Option<string>)
    ensures r.Some? ==> NamesGlobal(m, r.value)
  {
    if NamesGlobal(m, operand) then Some(operand)
    else if CanonicalSymbol(operand) != operand && NamesGlobal(m, CanonicalSymbol(operand)) then Some(CanonicalSymbol(operand))
    else None
  }

  predicate NamesFunction(m: Module, key: string) {
    exists f | f in m.functions :: f.key == key
  }

  /** The place a value addresses before a statement of a function. */
  function PlaceIn(m: Module, body: seq<Stmt>, before: nat, value: string): Option<Place>
    decreases before
  {
    var global := GlobalKey(m, value);
    if global.Some? then Some(Place(global.value, 0))
    else
      var def := InitDef(body, value);
      if def.None? || def.value >= before then None
      else
        match body[def.value]
        case Gep(_, base, Some(byteOff)) => Shifted(PlaceIn(m, body, def.value, base), byteOff)
        case Assign(_, sources) => if |sources| == 1 then PlaceIn(m, body, def.value, sources[0]) else None
        case _ => None
  }

  /** The place a value addresses before a statement of the initializer. */
  function InitPlace(m: Module, before: nat, value: string): (r: Option<Place>)
    ensures r.Some? ==> NamesGlobal(m, r.value.root)
    decreases before
  {
    var global := GlobalKey(m, value);
    if global.Some? then Some(Place(global.value, 0))
    else
      var def := InitDefBefore(m, before, value);
      if def.None? then None
      else
        match m.globalInit[def.value]
        case Gep(_, base, Some(byteOff)) => Shifted(InitPlace(m, def.value, base), byteOff)
        case Assign(_, sources) => if |sources| == 1 then InitPlace(m, def.value, sources[0]) else None
        case _ => None
  }

  /** What a value holds before a statement of the initializer. */
  function InitValue(m: Module, before: nat, value: string): Option<SlotValue>
    decreases before, 1, 0
  {
    var symbol := CanonicalSymbol(value);
    if NamesFunction(m, symbol) then Some(SlotValue({symbol}, {FunctionSource(symbol)}))
    else
      var global := GlobalKey(m, value);
      if global.Some? then Some(SlotValue({}, {GlobalSource(global.value)}))
      else
        var def := InitDefBefore(m, before, value);
        if def.None? then None
        else
          match m.globalInit[def.value]
          case Assign(_, sources) => if sources == [] then None else InitValues(m, def.value, sources)
          case Gep(_, base, _) => InitValue(m, def.value, base)
          case _ => None
  }

  function InitValues(m: Module, before: nat, sources: seq<string>): Option<SlotValue>
    decreases before, 2, |sources|
  {
    if sources == [] then Some(SlotValue({}, {}))
    else
      var rest := InitValues(m, before, sources[..|sources| - 1]);
      if rest.None? then None
      else
        var last := InitValue(m, before, sources[|sources| - 1]);
        if last.None? then None else Some(Joined(rest.value, last.value))
  }

  // ---------------------------------------------------------------------------------------------
  // Executing the initializer

  datatype Reason =
    | StoreAddressUnresolved | StoreValueUnresolved | UnsupportedStatement(kind: StmtKind) | DynamicGep | NoModeledInitializer

  datatype StmtKind = UnknownKind | PtrToIntKind | IntToPtrKind | MemcpyKind | MemsetKind | DirectCallKind | IndirectCallKind

  datatype Diagnostic = Diagnostic(reason: Reason, stmt: Option<nat>)

  function Mentioned(m: Module, stmt: Stmt): (r: set<string>)
    ensures forall g :: g in r ==> NamesGlobal(m, g)
  {
    set operand | operand in InitOperands(stmt) && GlobalKey(m, operand).Some? :: GlobalKey(m, operand).value
  }

  /** The kind of a statement that is not executed, unless it has no effect at all. */
  function UnsupportedKind(stmt: Stmt): Option<StmtKind> {
    match stmt
    case Unknown(_, _) => Some(UnknownKind)
    case CallDirect(_, _, _, _) => Some(DirectCallKind)
    case CallIndirect(_, _, _) => Some(IndirectCallKind)
    case Opaque(PtrToInt, _, _) => Some(PtrToIntKind)
    case Opaque(IntToPtr, _, _) => Some(IntToPtrKind)
    case Opaque(Memcpy, _, _) => Some(MemcpyKind)
    case Opaque(Memset, _, _) => Some(MemsetKind)
    case _ => None
  }

  datatype Effect = Nothing | Record(place: Place, value: SlotValue) | Poison(globals: set<string>, reason: Reason)

  /** What one statement of the initializer does to the slots. */
  function EffectOf(m: Module, i: nat): Effect
    requires i < |m.globalInit|
  {
    var stmt := m.globalInit[i];
    if stmt.Store? then
      var place := InitPlace(m, i, stmt.address);
      if place.None? then Poison(Mentioned(m, stmt), StoreAddressUnresolved)
      else
        var value := InitValue(m, i, stmt.value);
        if value.None? then Poison({place.value.root}, StoreValueUnresolved) else Record(place.value, value.value)
    else if UnsupportedKind(stmt).Some? then Poison(Mentioned(m, stmt), UnsupportedStatement(UnsupportedKind(stmt).value))
    else if stmt.Gep? && stmt.byteOff.None? then
      var place := InitPlace(m, i, stmt.base);
      Poison(if place.Some? then {place.value.root} else Mentioned(m, stmt), DynamicGep)
    else Nothing
  }

  /** What the whole initializer does, statement by statement. */
  function Effects(m: Module): (effects: seq<Effect>)
    ensures |effects| == |m.globalInit| && forall i | 0 <= i < |effects| :: effects[i] == EffectOf(m, i)
  {
    seq(|m.globalInit|, i requires 0 <= i < |m.globalInit| => EffectOf(m, i))
  }

  ghost predicate PoisonedBy(effects: seq<Effect>, i: nat, global: string) {
    i < |effects| && effects[i].Poison? && global in effects[i].globals
  }

  ghost predicate RecordedBy(effects: seq<Effect>, i: nat, place: Place, value: SlotValue) {
    i < |effects| && effects[i] == Record(place, value)
  }

  /** The slot holds what the last recording store before `n` put there. */
  ghost predicate LastRecorded(effects: seq<Effect>, n: nat, place: Place, value: SlotValue) {
    exists i: nat :: i < n && RecordedBy(effects, i, place, value) && forall j: nat, w | i < j < n :: !RecordedBy(effects, j, place, w)
  }

  ghost predicate SomeRecorded(effects: seq<Effect>, n: nat, place: Place) {
    exists i: nat, w :: i < n && RecordedBy(effects, i, place, w)
  }

  ghost predicate SomePoisoned(effects: seq<Effect>, n: nat, global: string) {
    exists i: nat :: i < n && PoisonedBy(effects, i, global)
  }

  /** The diagnostics of a global: one for every statement that poisons it, in order. */
  ghost function Trail(effects: seq<Effect>, n: nat, global: string): seq<Diagnostic>
    requires n <= |effects|
  {
    if n == 0 then []
    else
      Trail(effects, n - 1, global)
      + if PoisonedBy(effects, n - 1, global) then [Diagnostic(effects[n - 1].reason, Some(n - 1))] else []
  }

  /** No statement uses the reason that stands for the absence of an initializer. */
  ghost predicate Genuine(effects: seq<Effect>) {
    forall i | 0 <= i < |effects| && effects[i].Poison? :: effects[i].reason != NoModeledInitializer
  }

  lemma PoisonNext(effects: seq<Effect>, n: nat, global: string)
    ensures SomePoisoned(effects, n + 1, global) <==> SomePoisoned(effects, n, global) || PoisonedBy(effects, n, global)
  {
    if i: nat :| i < n && PoisonedBy(effects, i, global) {
      assert i < n + 1;
    }
  }

  lemma {:induction false} TrailIsPoison(effects: seq<Effect>, n: nat, global: string)
    requires n <= |effects| && Genuine(effects)
    ensures Trail(effects, n, global) != [] <==> SomePoisoned(effects, n, global)
    ensures forall d | d in Trail(effects, n, global) :: d.reason != NoModeledInitializer
  {
    if n > 0 {
      TrailIsPoison(effects, n - 1, global);
      PoisonNext(effects, n - 1, global);
    }
  }

  ghost predicate StateAfter(
      effects: seq<Effect>, n: nat, slots: map<Place, SlotValue>, poisoned: set<string>, diagnostics: map<string, seq<Diagnostic>>)
  {
    && n <= |effects|
    && (forall p {:trigger p in slots} :: p in slots <==> SomeRecorded(effects, n, p))
    && (forall p {:trigger slots[p]} | p in slots :: LastRecorded(effects, n, p, slots[p]))
    && (forall g {:trigger g in poisoned} :: g in poisoned <==> SomePoisoned(effects, n, g))
    && diagnostics.Keys == poisoned
    && (forall g {:trigger diagnostics[g]} | g in diagnostics :: diagnostics[g] == Trail(effects, n, g))
  }

  class InitValResolver {
    const m: Module
    var slots: map<Place, SlotValue>
    var poisoned: set<string>
    var diagnostics: map<string, seq<Diagnostic>>

    /** The state after the first `n` statements. */
    ghost predicate Executed(n: nat)
      reads this
    {
      StateAfter(Effects(m), n, slots, poisoned, diagnostics)
    }

    constructor (m: Module)
      ensures this.m == m && Executed(0)
    {
      this.m := m;
      slots, poisoned, diagnostics := map[], {}, map[];
    }

    method PoisonGlobals(globals: set<string>, reason: Reason, stmt: nat)
      modifies this`poisoned, this`diagnostics
      requires diagnostics.Keys == poisoned
      ensures poisoned == old(poisoned) + globals && diagnostics.Keys == poisoned
      ensures forall g | g in diagnostics :: diagnostics[g] ==
                (if g in old(diagnostics) then old(diagnostics)[g] else [])
                + if g in globals then [Diagnostic(reason, Some(stmt))] else []
    {
      var rest := globals;
      while rest != {}
        invariant rest <= globals && poisoned == old(poisoned) + (globals - rest) && diagnostics.Keys == poisoned
        invariant forall g | g in diagnostics :: diagnostics[g] ==
                    (if g in old(diagnostics) then old(diagnostics)[g] else [])
                    + if g in globals - rest then [Diagnostic(reason, Some(stmt))] else []
      {
        var g :| g in rest;
        rest := rest - {g};
        var before := if g in diagnostics then diagnostics[g] else [];
        diagnostics := diagnostics[g := before + [Diagnostic(reason, Some(stmt))]];
        poisoned := poisoned + {g};
      }
    }

    /** Executes the initializer statement by statement. */
    method BuildInitSlots()
      requires Executed(0)
      modifies this`slots, this`poisoned, this`diagnostics
      ensures Executed(|m.globalInit|)
    {
      for i := 0 to |m.globalInit|
        invariant Executed(i)
      {
        Execute(i);
      }
    }

    method Execute(i: nat)
      requires i < |m.globalInit| && Executed(i)
      modifies this`slots, this`poisoned, this`diagnostics
      ensures Executed(i + 1)
    {
      ghost var effects, slots0, poisoned0, diagnostics0 := Effects(m), slots, poisoned, diagnostics;
      EffectsAreGenuine(m);
      var effect := EffectOf(m, i);
      if effect.Record? {
        slots := slots[effect.place := effect.value];
      } else if effect.Poison? {
        PoisonGlobals(effect.globals, effect.reason, i);
      }
      SlotsNext(effects, i, slots0, slots);
      PoisonsNext(effects, i, poisoned0, diagnostics0, poisoned, diagnostics);
    }

    method CompleteGlobals() returns (complete: set<string>)
      requires Executed(|m.globalInit|)
      ensures forall g :: g in complete <==> IsComplete(m, g)
    {
      complete := set p | p in slots && p.root !in poisoned :: p.root;
      forall g
        ensures g in complete <==> IsComplete(m, g)
      {
        if IsComplete(m, g) {
          var p: Place :| p.root == g && SomeRecorded(Effects(m), |m.globalInit|, p);
          assert p in slots;
        }
      }
    }
  }

  ghost predicate Poisoned(m: Module, g: string) {
    SomePoisoned(Effects(m), |m.globalInit|, g)
  }

  /** Something was stored in the global, and nothing was stored in it that is not understood. */
  ghost predicate IsComplete(m: Module, g: string) {
    (exists p: Place :: p.root == g && SomeRecorded(Effects(m), |m.globalInit|, p)) && !Poisoned(m, g)
  }

  lemma EffectsAreGenuine(m: Module)
    ensures Genuine(Effects(m))
  {
  }

  /** How one more statement changes what a place holds. */
  lemma RecordNext(effects: seq<Effect>, i: nat, p: Place, was: Option<SlotValue>)
    requires i < |effects| && (was.Some? <==> SomeRecorded(effects, i, p))
    requires was.Some? ==> LastRecorded(effects, i, p, was.value)
    ensures var effect := effects[i];
            if effect.Record? && effect.place == p then SomeRecorded(effects, i + 1, p) && LastRecorded(effects, i + 1, p, effect.value)
            else (SomeRecorded(effects, i + 1, p) <==> was.Some?) && (was.Some? ==> LastRecorded(effects, i + 1, p, was.value))
  {
    var effect := effects[i];
    if effect.Record? && effect.place == p {
      assert RecordedBy(effects, i, p, effect.value);
    } else {
      assert forall w :: !RecordedBy(effects, i, p, w);
      if was.Some? {
        var k: nat :| k < i && RecordedBy(effects, k, p, was.value) && forall j: nat, w | k < j < i :: !RecordedBy(effects, j, p, w);
        assert k < i + 1;
      }
      if k: nat, w :| k < i + 1 && RecordedBy(effects, k, p, w) {
        assert k < i;
      }
    }
  }

  lemma SlotsNext(effects: seq<Effect>, i: nat, slots0: map<Place, SlotValue>, slots: map<Place, SlotValue>)
    requires i < |effects|
    requires forall p {:trigger p in slots0} :: p in slots0 <==> SomeRecorded(effects, i, p)
    requires forall p {:trigger slots0[p]} | p in slots0 :: LastRecorded(effects, i, p, slots0[p])
    requires slots == if effects[i].Record? then slots0[effects[i].place := effects[i].value] else slots0
    ensures forall p {:trigger p in slots} :: p in slots <==> SomeRecorded(effects, i + 1, p)
    ensures forall p {:trigger slots[p]} | p in slots :: LastRecorded(effects, i + 1, p, slots[p])
  {
    forall p
      ensures p in slots <==> SomeRecorded(effects, i + 1, p)
      ensures p in slots ==> LastRecorded(effects, i + 1, p, slots[p])
    {
      RecordNext(effects, i, p, if p in slots0 then Some(slots0[p]) else None);
    }
  }

  lemma PoisonsNext(
      effects: seq<Effect>, i: nat, poisoned0: set<string>, diagnostics0: map<string, seq<Diagnostic>>, poisoned: set<string>,
      diagnostics: map<string, seq<Diagnostic>>)
    requires i < |effects| && Genuine(effects)
    requires forall g {:trigger g in poisoned0} :: g in poisoned0 <==> SomePoisoned(effects, i, g)
    requires diagnostics0.Keys == poisoned0 && diagnostics.Keys == poisoned
    requires forall g {:trigger diagnostics0[g]} | g in diagnostics0 :: diagnostics0[g] == Trail(effects, i, g)
    requires forall g :: g in poisoned <==> g in poisoned0 || PoisonedBy(effects, i, g)
    requires forall g | g in diagnostics :: diagnostics[g] ==
               (if g in diagnostics0 then diagnostics0[g] else [])
               + if PoisonedBy(effects, i, g) then [Diagnostic(effects[i].reason, Some(i))] else []
    ensures forall g {:trigger g in poisoned} :: g in poisoned <==> SomePoisoned(effects, i + 1, g)
    ensures forall g {:trigger diagnostics[g]} | g in diagnostics :: diagnostics[g] == Trail(effects, i + 1, g)
  {
    forall g
      ensures g in poisoned <==> SomePoisoned(effects, i + 1, g)
      ensures g in diagnostics ==> diagnostics[g] == Trail(effects, i + 1, g)
    {
      PoisonNext(effects, i, g);
      TrailIsPoison(effects, i, g);
    }
  }
}
