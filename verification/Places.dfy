/**
 Which byte of which global a value addresses, said by the chain of definitions that leads there. The two
 resolvers each follow such chains in function bodies and in the initializer; all four agree with the chain.
 */
module Places {
  import opened Sorting
  import opened Pir
  import opened InitVal

  /**
   What differs between the walks: the statements, whether later definitions of a value hide earlier ones
   even past the point the walk has come to, which statements define what, and which values name a global.
   */
  datatype Rules = Rules(
    body: seq<Stmt>, whole: bool, defines: (Stmt, string) -> bool, names: (string, string) -> bool)

  /** Statement `at` is the definition of `value` that counts before statement `before`. */
  ghost predicate LastIn(r: Rules, at: nat, before: nat, value: string) {
    && at < before && at < |r.body| && r.defines(r.body[at], value)
    && forall j | at < j < |r.body| && (r.whole || j < before) :: !r.defines(r.body[j], value)
  }

  /** One definition back: statement `at` makes its value out of `next` by going `add` bytes further. */
  datatype Hop = Hop(at: nat, next: string, add: int)

  ghost predicate CarriesOn(stmt: Stmt, value: string, hop: Hop) {
    stmt == Gep(value, hop.next, Some(hop.add)) || (stmt == Assign(value, [hop.next]) && hop.add == 0)
  }

  ghost predicate NamesAny(r: Rules, value: string) {
    exists global :: r.names(value, global)
  }

  /** The hops lead from `value`, at decreasing positions and past values that name no global, to one that names `global`. */
  ghost predicate Leads(r: Rules, before: nat, value: string, hops: seq<Hop>, global: string) {
    if hops == [] then r.names(value, global)
    else
      && !NamesAny(r, value) && LastIn(r, hops[0].at, before, value) && CarriesOn(r.body[hops[0].at], value, hops[0])
      && Leads(r, hops[0].at, hops[0].next, hops[1..], global)
  }

  ghost function Sum(hops: seq<Hop>): int {
    if hops == [] then 0 else hops[0].add + Sum(hops[1..])
  }

  ghost predicate FitsI64(n: int) {
    -0x8000_0000_0000_0000 <= n <= 0x7fff_ffff_ffff_ffff
  }

  /** No sum on the way from the global outwards overflows. */
  ghost predicate NoOverflow(hops: seq<Hop>) {
    forall k | 0 <= k <= |hops| :: FitsI64(Sum(hops[k..]))
  }

  ghost predicate LeadsTo(r: Rules, before: nat, value: string, place: Place, hops: seq<Hop>) {
    Leads(r, before, value, hops, place.root) && Sum(hops) == place.byteOff && NoOverflow(hops)
  }

  /** A chain of definitions leads from the value to this byte. */
  ghost predicate Denotes(r: Rules, before: nat, value: string, place: Place) {
    exists hops :: LeadsTo(r, before, value, place, hops)
  }

  // ---------------------------------------------------------------------------------------------
  // One hop at a time

  lemma DenotesGlobal(r: Rules, before: nat, value: string, place: Place)
    requires NamesAny(r, value)
    ensures Denotes(r, before, value, place) <==> r.names(value, place.root) && place.byteOff == 0
  {
    if r.names(value, place.root) && place.byteOff == 0 {
      assert LeadsTo(r, before, value, place, []);
    }
  }

  lemma DenotesFits(r: Rules, before: nat, value: string, place: Place)
    requires Denotes(r, before, value, place)
    ensures FitsI64(place.byteOff)
  {
    var hops: seq<Hop> :| LeadsTo(r, before, value, place, hops);
    assert hops[0..] == hops;
  }

  /** With a single way on, the place is the one further on, shifted by the hop. */
  lemma DenotesHop(r: Rules, before: nat, value: string, place: Place, hop: Hop)
    requires !NamesAny(r, value) && LastIn(r, hop.at, before, value) && CarriesOn(r.body[hop.at], value, hop)
    ensures Denotes(r, before, value, place) <==>
              FitsI64(place.byteOff) && Denotes(r, hop.at, hop.next, Place(place.root, place.byteOff - hop.add))
  {
    var rest := Place(place.root, place.byteOff - hop.add);
    if hops: seq<Hop> :| LeadsTo(r, before, value, place, hops) {
      assert hops != [] && hops[0] == hop;
      forall k | 0 <= k <= |hops[1..]|
        ensures FitsI64(Sum(hops[1..][k..]))
      {
        assert hops[1..][k..] == hops[k + 1..];
      }
      assert LeadsTo(r, hop.at, hop.next, rest, hops[1..]);
      DenotesFits(r, before, value, place);
    }
    if FitsI64(place.byteOff) && Denotes(r, hop.at, hop.next, rest) {
      var tail: seq<Hop> :| LeadsTo(r, hop.at, hop.next, rest, tail);
      var hops := [hop] + tail;
      assert hops[1..] == tail;
      forall k | 0 <= k <= |hops|
        ensures FitsI64(Sum(hops[k..]))
      {
        if k > 0 {
          assert hops[k..] == tail[k - 1..];
        } else {
          assert hops[0..] == hops;
        }
      }
      assert LeadsTo(r, before, value, place, hops);
    }
  }

  lemma DenotesNothing(r: Rules, before: nat, value: string, place: Place)
    requires !NamesAny(r, value)
    requires forall hop: Hop | LastIn(r, hop.at, before, value) :: !CarriesOn(r.body[hop.at], value, hop)
    ensures !Denotes(r, before, value, place)
  {
    if hops: seq<Hop> :| LeadsTo(r, before, value, place, hops) {
      assert false;
    }
  }

  lemma GepIsDenoted(r: Rules, before: nat, value: string, place: Place, at: nat, base: string, byteOff: int, inner: Option<Place>)
    requires !NamesAny(r, value) && LastIn(r, at, before, value) && r.body[at] == Gep(value, base, Some(byteOff))
    requires var rest := Place(place.root, place.byteOff - byteOff); inner == Some(rest) <==> Denotes(r, at, base, rest)
    ensures Shifted(inner, byteOff) == Some(place) <==> Denotes(r, before, value, place)
  {
    DenotesHop(r, before, value, place, Hop(at, base, byteOff));
  }

  lemma CopyIsDenoted(r: Rules, before: nat, value: string, place: Place, at: nat, source: string, inner: Option<Place>)
    requires !NamesAny(r, value) && LastIn(r, at, before, value) && r.body[at] == Assign(value, [source])
    requires inner == Some(place) <==> Denotes(r, at, source, place)
    ensures inner == Some(place) <==> Denotes(r, before, value, place)
  {
    DenotesHop(r, before, value, place, Hop(at, source, 0));
    if Denotes(r, at, source, place) {
      DenotesFits(r, at, source, place);
    }
  }

  predicate StopsAt(stmt: Stmt) {
    match stmt
    case Gep(_, _, byteOff) => byteOff.None?
    case Assign(_, sources) => |sources| != 1
    case _ => true
  }

  /** Nothing is denoted where the last definition is of another kind, or there is none. */
  lemma StopIsDenoted(r: Rules, before: nat, value: string, place: Place)
    requires !NamesAny(r, value)
    requires forall at: nat | LastIn(r, at, before, value) :: StopsAt(r.body[at])
    ensures !Denotes(r, before, value, place)
  {
    DenotesNothing(r, before, value, place);
  }

  // ---------------------------------------------------------------------------------------------
  // The simple-flow resolver

  /** A symbol names a global whose key spells it. */
  ghost predicate SpellsGlobal(m: Module, value: string, global: string) {
    Spells(value, global) && exists g :: g in m.globals && Spells(g.key, global)
  }

  ghost function FunctionRules(m: Module, body: seq<Stmt>): Rules {
    Rules(body, true, (stmt, value) => Defines(stmt, value), (value, global) => SpellsGlobal(m, value, global))
  }

  ghost function GlobalInitRules(m: Module): Rules {
    Rules(m.globalInit, false, (stmt, value) => Defines(stmt, value), (value, global) => SpellsGlobal(m, value, global))
  }

  lemma GlobalIsSpelled(m: Module, value: string, global: string)
    ensures SpellsGlobal(m, value, global) <==> global == CanonicalSymbol(value) && IsGlobal(m, global)
  {
    CanonicalIsSpelled(value, global);
    forall g | g in m.globals
      ensures CanonicalSymbol(g.key) == global <==> Spells(g.key, global)
    {
      CanonicalIsSpelled(g.key, global);
    }
  }

  lemma GlobalsAreSpelled(m: Module, value: string)
    ensures forall global :: SpellsGlobal(m, value, global) <==> global == CanonicalSymbol(value) && IsGlobal(m, global)
  {
    forall global
      ensures SpellsGlobal(m, value, global) <==> global == CanonicalSymbol(value) && IsGlobal(m, global)
    {
      GlobalIsSpelled(m, value, global);
    }
  }

  lemma DestsDefine(value: string)
    ensures forall stmt :: Dest(stmt) == Some(value) <==> Defines(stmt, value)
    ensures forall stmt :: InitDest(stmt) == Some(value) <==> !stmt.Unknown? && Defines(stmt, value)
  {
    forall stmt
      ensures Dest(stmt) == Some(value) <==> Defines(stmt, value)
    {
      DestDefines(stmt, value);
    }
  }

  lemma {:induction false} FunctionPlaceIsDenoted(m: Module, body: seq<Stmt>, before: nat, value: string, place: Place)
    ensures FunctionPlace(m, body, before, value) == Some(place) <==> Denotes(FunctionRules(m, body), before, value, place)
    decreases before
  {
    var r := FunctionRules(m, body);
    hide Denotes, Shifted;
    GlobalsAreSpelled(m, value);
    if IsGlobal(m, CanonicalSymbol(value)) {
      assert r.names(value, CanonicalSymbol(value));
      DenotesGlobal(r, before, value, place);
    } else {
      DestsDefine(value);
      var def := LastDef(body, value);
      if def.None? || def.value >= before || StopsAt(body[def.value]) {
        StopIsDenoted(r, before, value, place);
      } else if body[def.value].Gep? {
        var base, byteOff := body[def.value].base, body[def.value].byteOff.value;
        FunctionPlaceIsDenoted(m, body, def.value, base, Place(place.root, place.byteOff - byteOff));
        GepIsDenoted(r, before, value, place, def.value, base, byteOff, FunctionPlace(m, body, def.value, base));
      } else {
        var source := body[def.value].sources[0];
        FunctionPlaceIsDenoted(m, body, def.value, source, place);
        CopyIsDenoted(r, before, value, place, def.value, source, FunctionPlace(m, body, def.value, source));
      }
    }
  }

  /** The definition that the initializer walk goes back to. */
  lemma LastBefore(m: Module, before: nat, value: string)
    ensures forall at: nat :: GlobalInitDefinitionBefore(m, before, value) == Some(at) <==> LastIn(GlobalInitRules(m), at, before, value)
  {
    var init := if before <= |m.globalInit| then m.globalInit[..before] else m.globalInit;
    assert forall j | 0 <= j < |init| :: init[j] == m.globalInit[j];
    var def := LastDef(init, value);
    DestsDefine(value);
    forall at: nat
      ensures def == Some(at) <==> LastIn(GlobalInitRules(m), at, before, value)
    {
      if LastIn(GlobalInitRules(m), at, before, value) {
        assert Dest(init[at]) == Some(value);
      }
    }
  }

  lemma {:induction false} GlobalInitPlaceIsDenoted(m: Module, before: nat, value: string, place: Place)
    ensures GlobalInitPlace(m, before, value) == Some(place) <==> Denotes(GlobalInitRules(m), before, value, place)
    decreases before
  {
    var r := GlobalInitRules(m);
    hide Denotes, Shifted;
    GlobalsAreSpelled(m, value);
    if IsGlobal(m, CanonicalSymbol(value)) {
      assert r.names(value, CanonicalSymbol(value));
      DenotesGlobal(r, before, value, place);
    } else {
      var def := GlobalInitDefinitionBefore(m, before, value);
      LastBefore(m, before, value);
      if def.None? || StopsAt(m.globalInit[def.value]) {
        StopIsDenoted(r, before, value, place);
      } else if m.globalInit[def.value].Gep? {
        var base, byteOff := m.globalInit[def.value].base, m.globalInit[def.value].byteOff.value;
        GlobalInitPlaceIsDenoted(m, def.value, base, Place(place.root, place.byteOff - byteOff));
        GepIsDenoted(r, before, value, place, def.value, base, byteOff, GlobalInitPlace(m, def.value, base));
      } else {
        var source := m.globalInit[def.value].sources[0];
        GlobalInitPlaceIsDenoted(m, def.value, source, place);
        CopyIsDenoted(r, before, value, place, def.value, source, GlobalInitPlace(m, def.value, source));
      }
    }
  }

  // ---------------------------------------------------------------------------------------------
  // The initial-value resolver

  ghost predicate IsKey(m: Module, key: string) {
    exists g :: g in m.globals && g.key == key
  }

  /** A global goes by its own key; only if nothing goes by the value itself is the sigil dropped. */
  ghost predicate KeyOf(m: Module, value: string, global: string) {
    IsKey(m, global) && (value == global || (value == "@" + global && !IsKey(m, value)))
  }

  ghost function BodyRules(m: Module, body: seq<Stmt>): Rules {
    Rules(body, true, (stmt: Stmt, value) => !stmt.Unknown? && Defines(stmt, value), (value, global) => KeyOf(m, value, global))
  }

  ghost function InitRules(m: Module): Rules {
    Rules(m.globalInit, false, (stmt: Stmt, value) => !stmt.Unknown? && Defines(stmt, value), (value, global) => KeyOf(m, value, global))
  }

  lemma GlobalKeyIs(m: Module, value: string)
    ensures forall global :: GlobalKey(m, value) == Some(global) <==> KeyOf(m, value, global)
  {
    CanonicalIsSpelled(value, CanonicalSymbol(value));
    if CanonicalSymbol(value) != value {
      assert value == "@" + CanonicalSymbol(value);
    }
    forall global | value == "@" + global
      ensures CanonicalSymbol(value) == global && value != global
    {
      CanonicalIsSpelled(value, global);
    }
  }

  lemma {:induction false} PlaceInIsDenoted(m: Module, body: seq<Stmt>, before: nat, value: string, place: Place)
    ensures PlaceIn(m, body, before, value) == Some(place) <==> Denotes(BodyRules(m, body), before, value, place)
    decreases before
  {
    var r := BodyRules(m, body);
    hide Denotes, Shifted;
    GlobalKeyIs(m, value);
    if GlobalKey(m, value).Some? {
      assert r.names(value, GlobalKey(m, value).value);
      DenotesGlobal(r, before, value, place);
    } else {
      DestsDefine(value);
      var def := InitDef(body, value);
      if def.None? || def.value >= before || StopsAt(body[def.value]) {
        StopIsDenoted(r, before, value, place);
      } else if body[def.value].Gep? {
        var base, byteOff := body[def.value].base, body[def.value].byteOff.value;
        PlaceInIsDenoted(m, body, def.value, base, Place(place.root, place.byteOff - byteOff));
        GepIsDenoted(r, before, value, place, def.value, base, byteOff, PlaceIn(m, body, def.value, base));
      } else {
        var source := body[def.value].sources[0];
        PlaceInIsDenoted(m, body, def.value, source, place);
        CopyIsDenoted(r, before, value, place, def.value, source, PlaceIn(m, body, def.value, source));
      }
    }
  }

  lemma InitDefBeforeIs(m: Module, before: nat, value: string)
    ensures forall at: nat :: InitDefBefore(m, before, value) == Some(at) <==> LastIn(InitRules(m), at, before, value)
  {
    var init := if before <= |m.globalInit| then m.globalInit[..before] else m.globalInit;
    assert forall j | 0 <= j < |init| :: init[j] == m.globalInit[j];
    var def := InitDef(init, value);
    DestsDefine(value);
    forall at: nat
      ensures def == Some(at) <==> LastIn(InitRules(m), at, before, value)
    {
      if LastIn(InitRules(m), at, before, value) {
        assert InitDest(init[at]) == Some(value);
      }
    }
  }

  lemma {:induction false} InitPlaceIsDenoted(m: Module, before: nat, value: string, place: Place)
    ensures InitPlace(m, before, value) == Some(place) <==> Denotes(InitRules(m), before, value, place)
    decreases before
  {
    var r := InitRules(m);
    hide Denotes, Shifted;
    GlobalKeyIs(m, value);
    if GlobalKey(m, value).Some? {
      assert r.names(value, GlobalKey(m, value).value);
      DenotesGlobal(r, before, value, place);
    } else {
      var def := InitDefBefore(m, before, value);
      InitDefBeforeIs(m, before, value);
      if def.None? || StopsAt(m.globalInit[def.value]) {
        StopIsDenoted(r, before, value, place);
      } else if m.globalInit[def.value].Gep? {
        var base, byteOff := m.globalInit[def.value].base, m.globalInit[def.value].byteOff.value;
        InitPlaceIsDenoted(m, def.value, base, Place(place.root, place.byteOff - byteOff));
        GepIsDenoted(r, before, value, place, def.value, base, byteOff, InitPlace(m, def.value, base));
      } else {
        var source := m.globalInit[def.value].sources[0];
        InitPlaceIsDenoted(m, def.value, source, place);
        CopyIsDenoted(r, before, value, place, def.value, source, InitPlace(m, def.value, source));
      }
    }
  }
}
