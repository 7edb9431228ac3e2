/** What the initializer stores and what it poisons, said by the chains of definitions it follows. */
module InitialValues {
  import opened Sorting
  import opened Paths
  import opened Pir
  import opened InitVal
  import opened InitValQuery
  import opened Places

  // ---------------------------------------------------------------------------------------------
  // What a value holds

  ghost predicate SpellsFunction(m: Module, value: string, key: string) {
    Spells(value, key) && exists f :: f in m.functions && f.key == key
  }

  /** What a value that names something holds: a function is both a target and a site, a global is a site only. */
  ghost predicate Names(m: Module, value: string, item: Item) {
    match item
    case TargetItem(symbol) => SpellsFunction(m, value, symbol)
    case SiteItem(FunctionSource(key)) => SpellsFunction(m, value, key)
    case SiteItem(GlobalSource(key)) => KeyOf(m, value, key) && forall symbol :: !SpellsFunction(m, value, symbol)
  }

  ghost predicate NamesSomething(m: Module, value: string) {
    exists item :: Names(m, value, item)
  }

  ghost predicate SourceOf(stmt: Stmt, source: string) {
    (stmt.Assign? && source in stmt.sources) || (stmt.Gep? && source == stmt.base)
  }

  /** From a value that names nothing to a source of its last definition; what it is shifted by does not matter. */
  ghost predicate InitFollows(m: Module, p: Position, q: Position) {
    !NamesSomething(m, p.1) && LastIn(InitRules(m), q.0, p.0, p.1) && SourceOf(m.globalInit[q.0], q.1)
  }

  ghost function InitChain(m: Module): (Position, Position) -> bool {
    (p, q) => InitFollows(m, p, q)
  }

  /** No chain from here stops anywhere but at a named function or global. */
  ghost predicate AllNamed(m: Module, p: Position) {
    forall q | Reach(InitChain(m), p, q) :: NamesSomething(m, q.1) || exists next :: InitFollows(m, q, next)
  }

  /** Some chain from here ends at a value that names `item`. */
  ghost predicate ChainNames(m: Module, p: Position, item: Item) {
    exists q :: Reach(InitChain(m), p, q) && Names(m, q.1, item)
  }

  lemma FunctionsAreSpelled(m: Module, value: string)
    ensures forall key :: SpellsFunction(m, value, key) <==> key == CanonicalSymbol(value) && NamesFunction(m, key)
  {
    forall key
      ensures Spells(value, key) <==> key == CanonicalSymbol(value)
    {
      CanonicalIsSpelled(value, key);
    }
  }

  lemma NamedIsExact(m: Module, before: nat, value: string)
    ensures NamesSomething(m, value) <==> NamesFunction(m, CanonicalSymbol(value)) || GlobalKey(m, value).Some?
    ensures NamesSomething(m, value) ==> InitValue(m, before, value).Some?
    ensures NamesSomething(m, value) ==> forall item :: Holds(InitValue(m, before, value).value, item) <==> Names(m, value, item)
  {
    FunctionsAreSpelled(m, value);
    GlobalKeyIs(m, value);
    if NamesFunction(m, CanonicalSymbol(value)) {
      assert Names(m, value, TargetItem(CanonicalSymbol(value)));
    } else if GlobalKey(m, value).Some? {
      assert Names(m, value, SiteItem(GlobalSource(GlobalKey(m, value).value)));
    }
  }

  lemma FirstHop(m: Module, p: Position, q: Position)
    requires Reach(InitChain(m), p, q)
    ensures q == p || exists next :: InitFollows(m, p, next) && Reach(InitChain(m), next, q)
  {
    if q != p {
      var next := ReachFirst(InitChain(m), p, q);
      assert InitFollows(m, p, next);
    }
  }

  lemma AddHop(m: Module, p: Position, next: Position, q: Position)
    requires InitFollows(m, p, next) && Reach(InitChain(m), next, q)
    ensures Reach(InitChain(m), p, q)
  {
    ReachEdge(InitChain(m), p, next);
    ReachTrans(InitChain(m), p, next, q);
  }

  /** A value that names nothing has what its sources have, if it has any. */
  lemma SourcesTell(m: Module, p: Position)
    requires !NamesSomething(m, p.1)
    ensures AllNamed(m, p) <==>
              (exists next :: InitFollows(m, p, next)) && forall next | InitFollows(m, p, next) :: AllNamed(m, next)
    ensures forall item :: ChainNames(m, p, item) <==> exists next :: InitFollows(m, p, next) && ChainNames(m, next, item)
  {
    ReachSelf(InitChain(m), p);
    forall q | Reach(InitChain(m), p, q)
      ensures q == p || exists next :: InitFollows(m, p, next) && Reach(InitChain(m), next, q)
    {
      FirstHop(m, p, q);
    }
    forall next, q | InitFollows(m, p, next) && Reach(InitChain(m), next, q)
      ensures Reach(InitChain(m), p, q)
    {
      AddHop(m, p, next, q);
    }
    forall item
      ensures ChainNames(m, p, item) <==> exists next :: InitFollows(m, p, next) && ChainNames(m, next, item)
    {
      if ChainNames(m, p, item) {
        var q :| Reach(InitChain(m), p, q) && Names(m, q.1, item);
        assert q != p;
        var next :| InitFollows(m, p, next) && Reach(InitChain(m), next, q);
        assert ChainNames(m, next, item);
      }
      if next :| InitFollows(m, p, next) && ChainNames(m, next, item) {
        var q :| Reach(InitChain(m), next, q) && Names(m, q.1, item);
        assert Reach(InitChain(m), p, q);
      }
    }
  }

  lemma StartTells(m: Module, p: Position)
    requires NamesSomething(m, p.1)
    ensures AllNamed(m, p) && forall item :: ChainNames(m, p, item) <==> Names(m, p.1, item)
  {
    ReachSelf(InitChain(m), p);
    forall q | Reach(InitChain(m), p, q)
      ensures q == p
    {
      FirstHop(m, p, q);
    }
  }

  /** A value is known exactly when every chain ends at a name, and it holds what those names stand for. */
  lemma {:induction false} InitValueIsExact(m: Module, before: nat, value: string)
    ensures InitValue(m, before, value).Some? <==> AllNamed(m, (before, value))
    ensures InitValue(m, before, value).Some? ==>
              forall item :: Holds(InitValue(m, before, value).value, item) <==> ChainNames(m, (before, value), item)
    decreases before, 1, 0
  {
    var p := (before, value);
    NamedIsExact(m, before, value);
    if NamesSomething(m, value) {
      StartTells(m, p);
    } else {
      SourcesTell(m, p);
      InitDefBeforeIs(m, before, value);
      var def := InitDefBefore(m, before, value);
      if def.None? {
        assert forall next :: !InitFollows(m, p, next);
      } else {
        var stmt := m.globalInit[def.value];
        assert forall next :: InitFollows(m, p, next) <==> next.0 == def.value && SourceOf(stmt, next.1);
        if stmt.Assign? {
          InitValuesAreExact(m, def.value, stmt.sources);
          if stmt.sources != [] {
            assert InitFollows(m, p, (def.value, stmt.sources[0]));
          }
          assert forall source | source in stmt.sources :: InitFollows(m, p, (def.value, source));
        } else if stmt.Gep? {
          InitValueIsExact(m, def.value, stmt.base);
          assert InitFollows(m, p, (def.value, stmt.base));
        }
      }
    }
  }

  lemma {:induction false} InitValuesAreExact(m: Module, before: nat, sources: seq<string>)
    ensures InitValues(m, before, sources).Some? <==> forall source | source in sources :: AllNamed(m, (before, source))
    ensures InitValues(m, before, sources).Some? ==>
              forall item :: Holds(InitValues(m, before, sources).value, item) <==>
                exists source :: source in sources && ChainNames(m, (before, source), item)
    decreases before, 2, |sources|
  {
    if sources != [] {
      var rest, last := sources[..|sources| - 1], sources[|sources| - 1];
      assert sources == rest + [last];
      InitValuesAreExact(m, before, rest);
      InitValueIsExact(m, before, last);
      if InitValues(m, before, sources).Some? {
        var a, b := InitValues(m, before, rest).value, InitValue(m, before, last).value;
        assert forall item :: Holds(Joined(a, b), item) <==> Holds(a, item) || Holds(b, item);
      }
    }
  }

  // ---------------------------------------------------------------------------------------------
  // Stores and poison

  /** The callee of a direct call does not count here, and a referenced global does. */
  ghost predicate InitAppears(stmt: Stmt, value: string) {
    match stmt
    case CallDirect(_, args, _, _) => value in args
    case GlobalRef(global) => value == global
    case _ => Appears(stmt, value)
  }

  ghost predicate Mentions(m: Module, stmt: Stmt, global: string) {
    exists value :: InitAppears(stmt, value) && KeyOf(m, value, global)
  }

  ghost predicate HasPlace(m: Module, before: nat, value: string) {
    exists place :: Denotes(InitRules(m), before, value, place)
  }

  ghost predicate HasPlaceIn(m: Module, before: nat, value: string, global: string) {
    exists byteOff :: Denotes(InitRules(m), before, value, Place(global, byteOff))
  }

  /** A statement whose effect on memory is not followed. */
  predicate NotFollowed(stmt: Stmt) {
    || stmt.Unknown? || stmt.CallDirect? || stmt.CallIndirect?
    || (stmt.Opaque? && (stmt.kind.Memcpy? || stmt.kind.Memset? || stmt.kind.PtrToInt? || stmt.kind.IntToPtr?))
  }

  /**
   What a statement makes unusable: a store whose value is unknown, or a variable offset, the global that the
   address lies in; a store to nowhere known, or a statement that is not followed, every global it mentions.
   */
  ghost predicate Spoils(m: Module, i: nat, global: string)
    requires i < |m.globalInit|
  {
    var stmt := m.globalInit[i];
    if NotFollowed(stmt) then Mentions(m, stmt, global)
    else
      match stmt
      case Store(address, value) =>
        if HasPlace(m, i, address) then HasPlaceIn(m, i, address, global) && !AllNamed(m, (i, value)) else Mentions(m, stmt, global)
      case Gep(_, base, None) => if HasPlace(m, i, base) then HasPlaceIn(m, i, base, global) else Mentions(m, stmt, global)
      case _ => false
  }

  /** A store to a known place of a known value. */
  ghost predicate StoresKnown(m: Module, i: nat, place: Place, value: SlotValue)
    requires i < |m.globalInit|
  {
    var stmt := m.globalInit[i];
    && stmt.Store? && Denotes(InitRules(m), i, stmt.address, place) && AllNamed(m, (i, stmt.value))
    && forall item :: Holds(value, item) <==> ChainNames(m, (i, stmt.value), item)
  }

  lemma MentionedIs(m: Module, stmt: Stmt, global: string)
    ensures global in Mentioned(m, stmt) <==> Mentions(m, stmt, global)
  {
    OperandsAppear(stmt);
    forall value
      ensures value in InitOperands(stmt) <==> InitAppears(stmt, value)
    {
    }
    if global in Mentioned(m, stmt) {
      var value :| value in InitOperands(stmt) && GlobalKey(m, value) == Some(global);
      GlobalKeyIs(m, value);
      assert InitAppears(stmt, value);
    }
    if value :| InitAppears(stmt, value) && KeyOf(m, value, global) {
      GlobalKeyIs(m, value);
      assert value in InitOperands(stmt);
    }
  }

  lemma InitPlaceIs(m: Module, before: nat, value: string)
    ensures InitPlace(m, before, value).Some? <==> HasPlace(m, before, value)
    ensures forall place :: InitPlace(m, before, value) == Some(place) <==> Denotes(InitRules(m), before, value, place)
    ensures forall global ::
              (InitPlace(m, before, value).Some? && InitPlace(m, before, value).value.root == global) <==>
                HasPlaceIn(m, before, value, global)
  {
    forall place
      ensures InitPlace(m, before, value) == Some(place) <==> Denotes(InitRules(m), before, value, place)
    {
      InitPlaceIsDenoted(m, before, value, place);
    }
    hide Denotes, InitPlace;
    if InitPlace(m, before, value).Some? {
      var place := InitPlace(m, before, value).value;
      assert place == Place(place.root, place.byteOff) && Denotes(InitRules(m), before, value, Place(place.root, place.byteOff));
    }
  }

  /** Which statements poison a global. */
  lemma SpoilsPoison(m: Module, i: nat, global: string)
    requires i < |m.globalInit|
    ensures PoisonedBy(Effects(m), i, global) <==> Spoils(m, i, global)
  {
    var stmt := m.globalInit[i];
    assert Effects(m)[i] == EffectOf(m, i);
    MentionedIs(m, stmt, global);
    if stmt.Store? {
      InitPlaceIs(m, i, stmt.address);
      InitValueIsExact(m, i, stmt.value);
    } else if stmt.Gep? {
      InitPlaceIs(m, i, stmt.base);
    }
    hide InitPlace, InitValue, Mentioned, Mentions, HasPlace, HasPlaceIn, AllNamed;
  }

  /** Which statements record a value, where, and which value. */
  lemma KnownStoresRecord(m: Module, i: nat, place: Place, value: SlotValue)
    requires i < |m.globalInit|
    ensures RecordedBy(Effects(m), i, place, value) <==> StoresKnown(m, i, place, value)
  {
    var stmt := m.globalInit[i];
    assert Effects(m)[i] == EffectOf(m, i);
    if stmt.Store? {
      InitPlaceIs(m, i, stmt.address);
      InitValueIsExact(m, i, stmt.value);
      if InitValue(m, i, stmt.value).Some? {
        SameItems(value, InitValue(m, i, stmt.value).value);
      }
    }
    hide InitPlace, InitValue, Mentioned, Denotes, AllNamed, ChainNames;
  }

  lemma SameItems(a: SlotValue, b: SlotValue)
    ensures a == b <==> forall item :: Holds(a, item) <==> Holds(b, item)
  {
    if forall item :: Holds(a, item) <==> Holds(b, item) {
      forall symbol
        ensures symbol in a.targets <==> symbol in b.targets
      {
        assert Holds(a, TargetItem(symbol)) <==> Holds(b, TargetItem(symbol));
      }
      forall site
        ensures site in a.sites <==> site in b.sites
      {
        assert Holds(a, SiteItem(site)) <==> Holds(b, SiteItem(site));
      }
      assert a.targets == b.targets && a.sites == b.sites;
    }
  }

  ghost predicate StoresInto(m: Module, i: nat, global: string)
    requires i < |m.globalInit|
  {
    exists place: Place, value :: place.root == global && StoresKnown(m, i, place, value)
  }

  /** A global is complete exactly when the initializer stores something known in it and no statement spoils it. */
  lemma CompleteIsClean(m: Module, global: string)
    ensures IsComplete(m, global) <==>
              && (exists i: nat :: i < |m.globalInit| && StoresInto(m, i, global))
              && forall i: nat | i < |m.globalInit| :: !Spoils(m, i, global)
  {
    hide StoresKnown, Spoils;
    forall i: nat | i < |m.globalInit|
      ensures PoisonedBy(Effects(m), i, global) <==> Spoils(m, i, global)
    {
      SpoilsPoison(m, i, global);
    }
    hide RecordedBy, PoisonedBy;
    if place: Place :| place.root == global && SomeRecorded(Effects(m), |m.globalInit|, place) {
      var i: nat, value :| i < |m.globalInit| && RecordedBy(Effects(m), i, place, value);
      KnownStoresRecord(m, i, place, value);
      assert StoresInto(m, i, global);
    }
    if i: nat :| i < |m.globalInit| && StoresInto(m, i, global) {
      var place: Place, value :| place.root == global && StoresKnown(m, i, place, value);
      KnownStoresRecord(m, i, place, value);
      assert RecordedBy(Effects(m), i, place, value);
    }
    if i: nat :| i < |m.globalInit| && PoisonedBy(Effects(m), i, global) {
      assert Spoils(m, i, global);
    }
  }
}
