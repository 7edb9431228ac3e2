/** Settling an indirect call from initial values: the guarded walk, and when it succeeds. */
module InitValQuery {
  import opened Sorting
  import opened Paths
  import opened Pir
  import opened InitVal
  import opened Places

  /** What a walk reads: the module, one function body, the recorded slots and the stable globals. */
  datatype Context = Context(m: Module, body: seq<Stmt>, slots: map<Place, SlotValue>, stable: set<string>)

  // ---------------------------------------------------------------------------------------------
  // The walk without a guard

  /** The recorded slot of a stable global that a load reads. */
  function LoadedSlot(c: Context, at: nat, address: string): Option<SlotValue> {
    var place := PlaceIn(c.m, c.body, at, address);
    if place.None? || place.value.root !in c.stable || place.value !in c.slots then None else Some(c.slots[place.value])
  }

  function ValueOf(c: Context, before: nat, value: string): Option<SlotValue>
    decreases before, 1, 0
  {
    var def := InitDef(c.body, value);
    if def.None? || def.value >= before then None
    else
      match c.body[def.value]
      case Assign(_, sources) => if sources == [] then None else ValuesOf(c, def.value, sources)
      case Load(_, address) => LoadedSlot(c, def.value, address)
      case _ => None
  }

  function ValuesOf(c: Context, before: nat, sources: seq<string>): Option<SlotValue>
    decreases before, 2, |sources|
  {
    if sources == [] then Some(SlotValue({}, {}))
    else
      var rest := ValuesOf(c, before, sources[..|sources| - 1]);
      if rest.None? then None
      else
        var last := ValueOf(c, before, sources[|sources| - 1]);
        if last.None? then None else Some(Joined(rest.value, last.value))
  }

  // ---------------------------------------------------------------------------------------------
  // The guarded walk

  /** Values being visited are defined at or behind the point the walk has come to. */
  ghost predicate Active(c: Context, before: nat, visiting: set<string>) {
    forall v | v in visiting :: InitDef(c.body, v).Some? && InitDef(c.body, v).value >= before
  }

  /**
   The walk with its cycle guard. The guard never changes an answer; the set of values being visited is
   restored whenever there is one.
   */
  method ResolveFunctionValue(c: Context, before: nat, value: string, visiting: set<string>)
    returns (result: Option<SlotValue>, visiting': set<string>)
    requires Active(c, before, visiting)
    ensures result == ValueOf(c, before, value)
    ensures result.Some? ==> visiting' == visiting
    decreases before, 1, 0
  {
    if value in visiting {
      return None, visiting;
    }
    visiting' := visiting + {value};
    var def := InitDef(c.body, value);
    if def.None? {
      return None, visiting';
    }
    var at := def.value;
    if at >= before {
      return None, visiting' - {value};
    }
    match c.body[at] {
      case Assign(_, sources) =>
        result, visiting' := ResolveAllSources(c, at, sources, visiting');
      case Load(_, address) =>
        if PlaceIn(c.m, c.body, at, address).None? {
          return None, visiting';
        }
        result := LoadedSlot(c, at, address);
      case _ =>
        result := None;
    }
    visiting' := visiting' - {value};
  }

  method ResolveAllSources(c: Context, before: nat, sources: seq<string>, visiting: set<string>)
    returns (result: Option<SlotValue>, visiting': set<string>)
    requires Active(c, before, visiting)
    ensures result == if sources == [] then None else ValuesOf(c, before, sources)
    ensures result.Some? ==> visiting' == visiting
    decreases before, 2, |sources|
  {
    visiting' := visiting;
    if sources == [] {
      return None, visiting';
    }
    var out := SlotValue({}, {});
    for i := 0 to |sources|
      invariant visiting' == visiting && ValuesOf(c, before, sources[..i]) == Some(out)
    {
      assert sources[..i + 1][..i] == sources[..i];
      var value;
      value, visiting' := ResolveFunctionValue(c, before, sources[i], visiting');
      if value.None? {
        NoneStays(c, before, sources, i + 1);
        return None, visiting';
      }
      out := Joined(out, value.value);
    }
    assert sources[..|sources|] == sources;
    result := Some(out);
  }

  lemma {:induction false} NoneStays(c: Context, before: nat, sources: seq<string>, i: nat)
    requires i <= |sources| && ValuesOf(c, before, sources[..i]).None?
    ensures ValuesOf(c, before, sources).None?
    decreases |sources|
  {
    if i == |sources| {
      assert sources[..i] == sources;
    } else {
      assert sources[..|sources| - 1][..i] == sources[..i];
      NoneStays(c, before, sources[..|sources| - 1], i);
    }
  }

  // ---------------------------------------------------------------------------------------------
  // When it succeeds

  /** A value, and the statement before which it is asked for. */
  type Position = (nat, string)

  /** Statement `at` is the definition that the walk goes back to. */
  ghost predicate DefinedAt(c: Context, p: Position, at: nat) {
    LastIn(BodyRules(c.m, c.body), at, p.0, p.1)
  }

  /** The walk goes from an assigned value to each of its sources. */
  ghost predicate Follows(c: Context, p: Position, q: Position) {
    DefinedAt(c, p, q.0) && c.body[q.0].Assign? && q.1 in c.body[q.0].sources
  }

  ghost function Chain(c: Context): (Position, Position) -> bool {
    (p, q) => Follows(c, p, q)
  }

  ghost predicate LoadsAt(c: Context, p: Position, at: nat, place: Place, slot: SlotValue) {
    && DefinedAt(c, p, at) && c.body[at].Load? && Denotes(BodyRules(c.m, c.body), at, c.body[at].address, place)
    && place.root in c.stable && place in c.slots && c.slots[place] == slot
  }

  /** The position is a fixed-offset load of a recorded slot of a stable global. */
  ghost predicate Loads(c: Context, p: Position, slot: SlotValue) {
    exists at: nat, place :: LoadsAt(c, p, at, place, slot)
  }

  /** The position is an assignment with sources to go on to. */
  ghost predicate Assigned(c: Context, p: Position) {
    exists at: nat :: DefinedAt(c, p, at) && c.body[at].Assign? && c.body[at].sources != []
  }

  lemma DefIsLast(c: Context, p: Position)
    ensures forall at: nat :: DefinedAt(c, p, at) <==> InitDef(c.body, p.1) == Some(at) && at < p.0
  {
    DestsDefine(p.1);
  }

  lemma LoadIsRead(c: Context, p: Position, at: nat, slot: SlotValue)
    requires DefinedAt(c, p, at) && c.body[at].Load?
    ensures LoadedSlot(c, at, c.body[at].address) == Some(slot) <==> Loads(c, p, slot)
  {
    DefIsLast(c, p);
    var address := c.body[at].address;
    hide DefinedAt, PlaceIn;
    if LoadedSlot(c, at, address) == Some(slot) {
      var place := PlaceIn(c.m, c.body, at, address).value;
      PlaceInIsDenoted(c.m, c.body, at, address, place);
      assert LoadsAt(c, p, at, place, slot);
    }
    if at': nat, place :| LoadsAt(c, p, at', place, slot) {
      PlaceInIsDenoted(c.m, c.body, at, address, place);
    }
  }

  /** No chain from here stops anywhere but at such a load. */
  ghost predicate AllChainsEnd(c: Context, p: Position) {
    forall q | Reach(Chain(c), p, q) :: Assigned(c, q) || exists slot :: Loads(c, q, slot)
  }

  /** What a slot can hold: a target, or the place where one was named. */
  datatype Item = TargetItem(symbol: string) | SiteItem(site: Source)

  predicate Holds(slot: SlotValue, item: Item) {
    match item
    case TargetItem(symbol) => symbol in slot.targets
    case SiteItem(site) => site in slot.sites
  }

  /** Some chain from here ends at a load of a slot that holds `item`. */
  ghost predicate ChainReads(c: Context, p: Position, item: Item) {
    exists q, slot :: Reach(Chain(c), p, q) && Loads(c, q, slot) && Holds(slot, item)
  }

  lemma ChainFirst(c: Context, p: Position, q: Position)
    requires Reach(Chain(c), p, q) && p != q
    ensures InitDef(c.body, p.1).Some?
    ensures var at := InitDef(c.body, p.1).value;
            exists source :: Follows(c, p, (at, source)) && Reach(Chain(c), (at, source), q)
  {
    var m := ReachFirst(Chain(c), p, q);
    DefIsLast(c, p);
    assert Follows(c, p, m) && m == (m.0, m.1);
  }

  lemma ChainStep(c: Context, p: Position, m: Position, q: Position)
    requires Follows(c, p, m) && Reach(Chain(c), m, q)
    ensures Reach(Chain(c), p, q)
  {
    ReachEdge(Chain(c), p, m);
    ReachTrans(Chain(c), p, m, q);
  }

  /** The walk succeeds exactly when every assignment chain ends in a load, and collects what they read. */
  lemma {:induction false} ValueIsExact(c: Context, before: nat, value: string)
    ensures ValueOf(c, before, value).Some? <==> AllChainsEnd(c, (before, value))
    ensures ValueOf(c, before, value).Some? ==>
              forall t :: Holds(ValueOf(c, before, value).value, t) <==> ChainReads(c, (before, value), t)
    decreases before, 1, 0
  {
    var p := (before, value);
    var def := InitDef(c.body, value);
    ReachSelf(Chain(c), p);
    DefIsLast(c, p);
    if def.Some? && def.value < before && c.body[def.value].Assign? && c.body[def.value].sources != [] {
      AssignedIsExact(c, before, value);
    } else {
      forall q | Reach(Chain(c), p, q)
        ensures q == p
      {
        if q != p {
          ChainFirst(c, p, q);
        }
      }
      assert !Assigned(c, p);
      var result := ValueOf(c, before, value);
      forall slot
        ensures Loads(c, p, slot) <==> result == Some(slot)
      {
        if def.Some? && def.value < before && c.body[def.value].Load? {
          LoadIsRead(c, p, def.value, slot);
        }
      }
    }
  }

  lemma AssignedIsExact(c: Context, before: nat, value: string)
    requires Assigned(c, (before, value))
    ensures ValueOf(c, before, value).Some? <==> AllChainsEnd(c, (before, value))
    ensures ValueOf(c, before, value).Some? ==>
              forall t :: Holds(ValueOf(c, before, value).value, t) <==> ChainReads(c, (before, value), t)
    decreases before, 0, 0
  {
    var p := (before, value);
    DefIsLast(c, p);
    var at := InitDef(c.body, value).value;
    var sources := c.body[at].sources;
    ValuesAreExact(c, at, sources);
    forall source | source in sources
      ensures Follows(c, p, (at, source))
    {
    }
    if ValueOf(c, before, value).Some? {
      forall q | Reach(Chain(c), p, q)
        ensures Assigned(c, q) || exists slot :: Loads(c, q, slot)
      {
        if q != p {
          ChainFirst(c, p, q);
          var source :| Follows(c, p, (at, source)) && Reach(Chain(c), (at, source), q);
          assert AllChainsEnd(c, (at, source));
        }
      }
      forall t
        ensures Holds(ValueOf(c, before, value).value, t) <==> ChainReads(c, p, t)
      {
        ReadsThroughSources(c, p, at, sources, t);
      }
    } else {
      var source :| source in sources && !AllChainsEnd(c, (at, source));
      var q :| Reach(Chain(c), (at, source), q) && !Assigned(c, q) && !exists slot :: Loads(c, q, slot);
      ChainStep(c, p, (at, source), q);
    }
  }

  lemma ReadsThroughSources(c: Context, p: Position, at: nat, sources: seq<string>, t: Item)
    requires DefinedAt(c, p, at) && c.body[at].Assign? && sources == c.body[at].sources
    ensures ChainReads(c, p, t) <==> exists source :: source in sources && ChainReads(c, (at, source), t)
  {
    DefIsLast(c, p);
    if ChainReads(c, p, t) {
      var q, slot :| Reach(Chain(c), p, q) && Loads(c, q, slot) && Holds(slot, t);
      assert q != p;
      ChainFirst(c, p, q);
      var source :| Follows(c, p, (at, source)) && Reach(Chain(c), (at, source), q);
      assert ChainReads(c, (at, source), t);
    }
    if source :| source in sources && ChainReads(c, (at, source), t) {
      var q, slot :| Reach(Chain(c), (at, source), q) && Loads(c, q, slot) && Holds(slot, t);
      ChainStep(c, p, (at, source), q);
    }
  }

  lemma {:induction false} ValuesAreExact(c: Context, before: nat, sources: seq<string>)
    ensures ValuesOf(c, before, sources).Some? <==> forall source | source in sources :: AllChainsEnd(c, (before, source))
    ensures ValuesOf(c, before, sources).Some? ==>
              forall t :: Holds(ValuesOf(c, before, sources).value, t) <==>
                exists source :: source in sources && ChainReads(c, (before, source), t)
    decreases before, 2, |sources|
  {
    if sources != [] {
      var rest, last := sources[..|sources| - 1], sources[|sources| - 1];
      assert sources == rest + [last];
      ValuesAreExact(c, before, rest);
      ValueIsExact(c, before, last);
      if ValuesOf(c, before, sources).Some? {
        var a, b := ValuesOf(c, before, rest).value, ValueOf(c, before, last).value;
        assert forall t :: Holds(Joined(a, b), t) <==> Holds(a, t) || Holds(b, t);
      }
    }
  }

  // ---------------------------------------------------------------------------------------------
  // Queries

  /** An indirect call is settled by what the walk collects, if it succeeds and finds a target. */
  method ResolveQuery(c: Context, stmt: nat, operand: string) returns (settled: Option<SlotValue>)
    ensures settled.Some? <==>
              AllChainsEnd(c, (stmt, operand)) && exists symbol :: ChainReads(c, (stmt, operand), TargetItem(symbol))
    ensures settled.Some? ==> settled.value.targets != {}
    ensures settled.Some? ==> forall item :: Holds(settled.value, item) <==> ChainReads(c, (stmt, operand), item)
  {
    var value, _ := ResolveFunctionValue(c, stmt, operand, {});
    ValueIsExact(c, stmt, operand);
    if value.None? {
      return None;
    }
    if value.value.targets == {} {
      assert forall symbol :: !Holds(value.value, TargetItem(symbol));
      return None;
    }
    ghost var symbol :| symbol in value.value.targets;
    assert Holds(value.value, TargetItem(symbol));
    return value;
  }
}
