/** Which rows a flushed function leaves behind, said by what its tables logged. */
module RowContents {
  import opened Basics
  import opened Sorting
  import opened Emission
  import opened SlotTables
  import opened Rows

  // ---------------------------------------------------------------------------------------------
  // Pushed occurrences

  /** The value is one that the fact had before or that an occurrence brings. */
  ghost predicate Contributes(v: View, events: seq<Event>, fact: Fact, value: Value) {
    (fact in v.facts && v.facts[fact] == value) || Event(fact, value.wit, value.candidates) in events
  }

  /** The least witness and the union of all candidates, the whole module taking in everything. */
  ghost predicate Gathers(v: View, events: seq<Event>, fact: Fact, value: Value) {
    && (exists part :: Contributes(v, events, fact, part) && part.wit == value.wit)
    && (forall part | Contributes(v, events, fact, part) && part.wit.Some? :: value.wit.Some? && value.wit.value <= part.wit.value)
    && (value.candidates.ModuleWide? <==> exists part :: Contributes(v, events, fact, part) && part.candidates.ModuleWide?)
    && (value.candidates.Finite? ==>
          forall g :: g in value.candidates.globals <==>
            exists part :: Contributes(v, events, fact, part) && part.candidates.Finite? && g in part.candidates.globals)
  }

  lemma ContributesNext(v: View, events: seq<Event>, e: Event, fact: Fact, value: Value)
    ensures Contributes(v, events + [e], fact, value) <==>
              Contributes(v, events, fact, value) || (e.fact == fact && value == Value(e.wit, e.candidates))
  {
    assert e == Event(e.fact, e.wit, e.candidates);
  }

  /** A fact is there afterwards exactly when it was there before or an occurrence brings it, and it gathers what they say. */
  lemma {:induction false} PushedGathers(v: View, events: seq<Event>, phase: Option<Phase>, fact: Fact)
    ensures var facts := PushedAll(v, events, phase).facts;
            && (fact in facts <==> exists part :: Contributes(v, events, fact, part))
            && (fact in facts ==> Gathers(v, events, fact, facts[fact]))
  {
    if events == [] {
      assert fact in v.facts ==> Contributes(v, events, fact, v.facts[fact]);
    } else {
      var rest, e := events[..|events| - 1], events[|events| - 1];
      assert events == rest + [e];
      PushedGathers(v, rest, phase, fact);
      forall value
        ensures Contributes(v, events, fact, value) <==>
                  Contributes(v, rest, fact, value) || (e.fact == fact && value == Value(e.wit, e.candidates))
      {
        ContributesNext(v, rest, e, fact, value);
      }
      if e.fact == fact {
        var before := PushedAll(v, rest, phase).facts;
        assert Contributes(v, events, fact, Value(e.wit, e.candidates));
        if fact in before {
          GathersNext(v, rest, e, before[fact]);
        }
      }
    }
  }

  lemma GathersNext(v: View, rest: seq<Event>, e: Event, was: Value)
    requires Gathers(v, rest, e.fact, was)
    ensures Gathers(v, rest + [e], e.fact, Value(Preferred(was.wit, e.wit), Merge(was.candidates, e.candidates)))
  {
    var own := Value(e.wit, e.candidates);
    forall part
      ensures Contributes(v, rest + [e], e.fact, part) <==> Contributes(v, rest, e.fact, part) || part == own
    {
      ContributesNext(v, rest, e, e.fact, part);
    }
    hide Contributes;
    assert Contributes(v, rest + [e], e.fact, own);
  }

  // ---------------------------------------------------------------------------------------------
  // Pointees

  /** The positions at which some global other than the suppressed one stands, in order. */
  ghost predicate Others(globals: seq<nat>, suppressed: Option<nat>, at: seq<nat>) {
    && (forall i, j | 0 <= i < j < |at| :: at[i] < at[j])
    && (forall i: nat :: i in at <==> i < |globals| && Some(globals[i]) != suppressed)
  }

  lemma OthersNext(globals: seq<nat>, suppressed: Option<nat>, front: seq<nat>, g: nat)
    requires Others(globals, suppressed, front)
    ensures Others(globals + [g], suppressed, if Some(g) == suppressed then front else front + [|globals|])
  {
    var at := if Some(g) == suppressed then front else front + [|globals|];
    forall k | 0 <= k < |front|
      ensures front[k] < |globals|
    {
      assert front[k] in front;
    }
    forall i: nat
      ensures i in at <==> i < |globals| + 1 && Some((globals + [g])[i]) != suppressed
    {
      assert i in at <==> i in front || (i == |globals| && Some(g) != suppressed);
    }
  }

  /** What stands at these positions, in order. */
  ghost predicate Selected(r: seq<nat>, globals: seq<nat>, at: seq<nat>) {
    |r| == |at| && forall k | 0 <= k < |at| :: at[k] < |globals| && r[k] == globals[at[k]]
  }

  lemma SelectedNext(r: seq<nat>, globals: seq<nat>, at: seq<nat>, g: nat)
    requires Selected(r, globals, at)
    ensures Selected(r, globals + [g], at) && Selected(r + [g], globals + [g], at + [|globals|])
  {
  }

  /** The pointees are the globals without the suppressed one: all others, as often as they occur and in their order. */
  lemma {:induction false} PointeesAre(globals: seq<nat>, suppressed: Option<nat>) returns (at: seq<nat>)
    ensures Others(globals, suppressed, at) && Selected(Pointees(globals, suppressed), globals, at)
  {
    if globals == [] {
      at := [];
    } else {
      var rest, last := globals[..|globals| - 1], globals[|globals| - 1];
      assert globals == rest + [last];
      at := PointeesAre(rest, suppressed);
      OthersNext(rest, suppressed, at, last);
      SelectedNext(Pointees(rest, suppressed), rest, at, last);
      hide Others, Selected;
      if Some(last) == suppressed {
        assert Pointees(globals, suppressed) == Pointees(rest, suppressed);
      } else {
        at := at + [|rest|];
      }
    }
  }

  lemma {:induction false} PointeesCount(globals: seq<nat>, suppressed: Option<nat>)
    ensures forall g :: g in Pointees(globals, suppressed) <==> g in globals && Some(g) != suppressed
    ensures |Pointees(globals, suppressed)| == |globals| - if suppressed.Some? then multiset(globals)[suppressed.value] else 0
  {
    if globals != [] {
      assert globals == globals[..|globals| - 1] + [globals[|globals| - 1]];
      PointeesCount(globals[..|globals| - 1], suppressed);
    }
  }

  // ---------------------------------------------------------------------------------------------
  // What a slot stands for

  /** An address of the function, accessed in one way; an access that names its global directly suppresses it. */
  datatype Use = Use(node: nat, access: Access, suppress: bool)

  function SlotOf(use: Use): nat {
    AccessSlot(use.node, use.access, use.suppress)
  }

  function UseAt(slot: nat): Use {
    Use(slot / 4, SlotAccess(slot), slot % 2 == 1)
  }

  lemma SlotDigits(slot: nat)
    ensures slot == slot / 4 * 4 + slot % 4 / 2 * 2 + slot % 2
  {
    var low := slot % 4;
    assert low == low / 2 * 2 + low % 2;
    Quotient(slot, 2, slot / 4 * 2 + low / 2, low % 2);
  }

  /** Every slot is that of one use. */
  lemma UsesAreSlots(use: Use, slot: nat)
    ensures UseAt(slot) == use <==> slot == SlotOf(use)
  {
    SlotsRoundTrip(use.node, use.access, use.suppress);
    SlotDigits(slot);
  }

  ghost predicate Known(summaries: seq<Option<Summary>>, use: Use) {
    use.node < |summaries| && summaries[use.node].Some?
  }

  /** How many globals the address may point to, without one that it names directly. */
  ghost function Fanout(summary: Summary, use: Use): int {
    |summary.globals| - if use.suppress && summary.direct.Some? then multiset(summary.globals)[summary.direct.value] else 0
  }

  ghost predicate TooMany(summaries: seq<Option<Summary>>, limit: nat, use: Use) {
    Known(summaries, use) && limit > 0 && Fanout(summaries[use.node].value, use) > limit
  }

  /** The address may point to the global, and does not name it directly in a way that is recorded elsewhere. */
  ghost predicate PointsTo(summaries: seq<Option<Summary>>, use: Use, global: nat) {
    && Known(summaries, use) && global in summaries[use.node].value.globals
    && !(use.suppress && summaries[use.node].value.direct == Some(global))
  }

  function NamedEvent(func: nat, global: nat, access: Access, wit: Option<nat>): Event {
    Event(Fact(func, Named(global), access, Aliased, None), wit, Finite({}))
  }

  lemma UseMeans(summaries: seq<Option<Summary>>, limit: nat, slot: nat)
    ensures var summary := SummaryOf(summaries, slot);
            && (summary.Some? <==> Known(summaries, UseAt(slot)))
            && (summary.Some? ==>
                  && summary == summaries[UseAt(slot).node]
                  && |SlotPointees(summary.value, slot)| == Fanout(summary.value, UseAt(slot))
                  && forall g :: g in SlotPointees(summary.value, slot) <==> PointsTo(summaries, UseAt(slot), g))
            && (Overflows(summaries, slot, limit) <==> TooMany(summaries, limit, UseAt(slot)))
  {
    var summary := SummaryOf(summaries, slot);
    if summary.Some? {
      PointeesCount(summary.value.globals, if slot % 2 == 1 then summary.value.direct else None);
    }
  }

  lemma NamedRowsAre(func: nat, globals: seq<nat>, access: Access, e: Event)
    ensures e in NamedRows(func, globals, access) <==> exists g :: g in globals && e == NamedEvent(func, g, access, None)
  {
    var rows := NamedRows(func, globals, access);
    forall i | 0 <= i < |globals|
      ensures rows[i] == NamedEvent(func, globals[i], access, None)
    {
      SlotsRoundTrip(globals[i], access, false);
    }
    if g :| g in globals && e == NamedEvent(func, g, access, None) {
      var i :| 0 <= i < |globals| && globals[i] == g;
      assert rows[i] == e;
    }
  }

  lemma {:induction false} RowByRowAre(rows: seq<Event>, witnesses: seq<Option<nat>>, e: Event)
    ensures e in RowByRow(rows, witnesses) <==> e.wit in witnesses && exists row :: row in rows && e == row.(wit := e.wit)
  {
    if rows != [] {
      var front, last := rows[..|rows| - 1], rows[|rows| - 1];
      assert rows == front + [last];
      RowByRowAre(front, witnesses, e);
      var own := Occurrences(last.fact, witnesses, last.candidates);
      if e.wit in witnesses && e == last.(wit := e.wit) {
        var i :| 0 <= i < |witnesses| && witnesses[i] == e.wit;
        assert own[i] == e;
      }
      assert e in own <==> e.wit in witnesses && e == last.(wit := e.wit);
    }
  }

  lemma AtAre(log: seq<Hit>, slot: nat, wit: Option<nat>)
    ensures wit in At(log, slot) <==> (slot, wit) in log
  {
    PickMembers(log, {slot});
    var picked := Pick(log, {slot});
    if (slot, wit) in log {
      var i :| 0 <= i < |picked| && picked[i] == (slot, wit);
      assert At(log, slot)[i] == wit;
    }
    if wit in At(log, slot) {
      var i :| 0 <= i < |picked| && At(log, slot)[i] == wit;
      assert picked[i] in picked;
    }
  }

  // ---------------------------------------------------------------------------------------------
  // What the logs stand for

  /** The use was logged with the witness. */
  ghost predicate Logged(log: seq<Hit>, use: Use, wit: Option<nat>) {
    (SlotOf(use), wit) in log
  }

  /** The row of one global that one logged use may touch. */
  ghost predicate NamesGlobal(func: nat, summaries: seq<Option<Summary>>, limit: nat, log: seq<Hit>, use: Use, g: nat, e: Event) {
    && Logged(log, use, e.wit) && PointsTo(summaries, use, g) && !TooMany(summaries, limit, use)
    && e == NamedEvent(func, g, use.access, e.wit)
  }

  ghost predicate NamesSomeGlobal(func: nat, summaries: seq<Option<Summary>>, limit: nat, log: seq<Hit>, e: Event) {
    exists use, g :: NamesGlobal(func, summaries, limit, log, use, g, e)
  }

  /** The row that a copy from or to an external address adds. */
  ghost predicate NamesOutside(func: nat, summaries: seq<Option<Summary>>, limit: nat, log: seq<Hit>, use: Use, e: Event) {
    && Logged(log, use, e.wit) && Known(summaries, use) && !TooMany(summaries, limit, use)
    && var summary := summaries[use.node].value;
       && summary.external
       && e.fact == Fact(func, Unknown(Rank(use.access)), use.access, UnknownVia, Some(Detail(summary.info)))
       && e.candidates == Finite(summary.candidates)
  }

  /** The one row that stands for all occurrences of a use beyond the limit; it leaves out a global named directly. */
  ghost predicate StandsFor(
      func: nat, summaries: seq<Option<Summary>>, limit: nat, log: seq<Hit>, source: Phase, use: Use, e: Event)
  {
    && At(log, SlotOf(use)) != [] && TooMany(summaries, limit, use)
    && var summary, witnesses := summaries[use.node].value, At(log, SlotOf(use));
       && e.fact.(info := None) == Fact(func, Unknown(Rank(use.access)), use.access, UnknownVia, None)
       && e.fact.info == Some(Fallback(summary.node, source, Fanout(summary, use), |witnesses|))
       && e.wit == Least(witnesses) && e.candidates.Finite?
       && forall g :: g in e.candidates.globals <==> g in summary.candidates && !(use.suppress && summary.direct == Some(g))
  }

  /** What a slot of an access table is pushed as below the limit. */
  lemma AccessRowsAre(func: nat, summaries: seq<Option<Summary>>, limit: nat, log: seq<Hit>, slot: nat, e: Event)
    ensures e in AccessRows(func, summaries, limit, slot, At(log, slot)) <==>
              exists g :: NamesGlobal(func, summaries, limit, log, UseAt(slot), g, e)
  {
    UsesAreSlots(UseAt(slot), slot);
    UseMeans(summaries, limit, slot);
    AtAre(log, slot, e.wit);
    hide Pointees, TooMany, SummaryOf;
    var summary := SummaryOf(summaries, slot);
    if summary.Some? && !Overflows(summaries, slot, limit) {
      var globals := SlotPointees(summary.value, slot);
      RowByRowAre(NamedRows(func, globals, SlotAccess(slot)), At(log, slot), e);
      forall row
        ensures row in NamedRows(func, globals, SlotAccess(slot)) <==> exists g :: g in globals && row == NamedEvent(func, g, SlotAccess(slot), None)
      {
        NamedRowsAre(func, globals, SlotAccess(slot), row);
      }
      hide NamedRows, RowByRow, Overflows, SlotPointees;
      if e in AccessRows(func, summaries, limit, slot, At(log, slot)) {
        var row :| row in NamedRows(func, globals, SlotAccess(slot)) && e == row.(wit := e.wit);
        var g :| g in globals && row == NamedEvent(func, g, SlotAccess(slot), None);
        assert NamesGlobal(func, summaries, limit, log, UseAt(slot), g, e);
      }
      if g :| NamesGlobal(func, summaries, limit, log, UseAt(slot), g, e) {
        var row := NamedEvent(func, g, SlotAccess(slot), None);
        assert row in NamedRows(func, globals, SlotAccess(slot)) && e == row.(wit := e.wit);
      }
    }
  }

  lemma FallbacksAre(func: nat, summaries: seq<Option<Summary>>, limit: nat, log: seq<Hit>, source: Phase, slot: nat, e: Event)
    requires At(log, slot) != [] && Overflows(summaries, slot, limit)
    ensures var witnesses := At(log, slot);
            e == FallbackRow(func, SummaryOf(summaries, slot).value, slot, Least(witnesses), |witnesses|, source) <==>
              StandsFor(func, summaries, limit, log, source, UseAt(slot), e)
  {
    UsesAreSlots(UseAt(slot), slot);
    UseMeans(summaries, limit, slot);
    hide At, Least, SlotPointees, Overflows, Fanout, SlotOf;
    var witnesses := At(log, slot);
    var row := FallbackRow(func, SummaryOf(summaries, slot).value, slot, Least(witnesses), |witnesses|, source);
    if StandsFor(func, summaries, limit, log, source, UseAt(slot), e) {
      assert e.candidates.globals == row.candidates.globals;
      assert e.fact == e.fact.(info := None).(info := e.fact.info);
    }
  }

  /** What a slot of a copy table is pushed as. */
  ghost predicate CopyEvent(func: nat, summaries: seq<Option<Summary>>, limit: nat, log: seq<Hit>, use: Use, e: Event) {
    || (exists g :: NamesGlobal(func, summaries, limit, log, use, g, e))
    || NamesOutside(func, summaries, limit, log, use, e)
    || StandsFor(func, summaries, limit, log, MemsetMemcpy, use, e)
  }

  lemma CopyEventsAre(func: nat, summaries: seq<Option<Summary>>, limit: nat, log: seq<Hit>, slot: nat, e: Event)
    requires At(log, slot) != []
    ensures e in CopyEvents(func, summaries, limit, slot, At(log, slot)) <==> CopyEvent(func, summaries, limit, log, UseAt(slot), e)
  {
    UsesAreSlots(UseAt(slot), slot);
    UseMeans(summaries, limit, slot);
    AtAre(log, slot, e.wit);
    AccessRowsAre(func, summaries, limit, log, slot, e);
    hide At, SlotPointees, PointsTo, TooMany;
    if Overflows(summaries, slot, limit) {
      FallbacksAre(func, summaries, limit, log, MemsetMemcpy, slot, e);
      hide StandsFor, FallbackRow;
    } else if SummaryOf(summaries, slot).Some? {
      var summary := SummaryOf(summaries, slot).value;
      var rows := NamedRows(func, SlotPointees(summary, slot), SlotAccess(slot));
      var all := CopyFacts(func, summaries)(slot);
      RowByRowAre(rows, At(log, slot), e);
      RowByRowAre(all, At(log, slot), e);
      var outside := UnknownRow(func, SlotAccess(slot), summary.info, summary.candidates);
      assert all == if summary.external then rows + [outside] else rows;
      assert AccessFacts(func, summaries)(slot) == rows;
      hide NamedRows, RowByRow, Overflows, NamesGlobal;
      assert forall row :: row in all <==> row in rows || (summary.external && row == outside);
      assert NamesOutside(func, summaries, limit, log, UseAt(slot), e) <==>
          e.wit in At(log, slot) && summary.external && e == outside.(wit := e.wit);
    }
  }

  // ---------------------------------------------------------------------------------------------
  // Whole tables

  /** The slots are those with hits. */
  ghost predicate Covers(log: seq<Hit>, slots: seq<nat>) {
    forall slot: nat :: slot in slots <==> At(log, slot) != []
  }

  lemma LoggedIsCovered(log: seq<Hit>, slots: seq<nat>, use: Use, wit: Option<nat>)
    requires Covers(log, slots) && Logged(log, use, wit)
    ensures SlotOf(use) in slots && UseAt(SlotOf(use)) == use
  {
    AtAre(log, SlotOf(use), wit);
    UsesAreSlots(use, SlotOf(use));
  }

  lemma {:induction false} AllRowsAre(func: nat, summaries: seq<Option<Summary>>, limit: nat, log: seq<Hit>, slots: seq<nat>, e: Event)
    ensures e in AllRows(func, summaries, limit, log, slots) <==>
              exists slot :: slot in slots && e in AccessRows(func, summaries, limit, slot, At(log, slot))
  {
    hide AccessRows;
    if slots != [] {
      var rest, last := slots[..|slots| - 1], slots[|slots| - 1];
      assert slots == rest + [last];
      AllRowsAre(func, summaries, limit, log, rest, e);
    }
  }

  lemma {:induction false} AllFallbacksAre(func: nat, summaries: seq<Option<Summary>>, limit: nat, log: seq<Hit>, slots: seq<nat>, e: Event)
    ensures e in AllFallbacks(func, summaries, limit, log, slots) <==>
              exists slot :: slot in slots && e in AccessFallback(func, summaries, limit, slot, At(log, slot))
  {
    hide AccessFallback;
    if slots != [] {
      var rest, last := slots[..|slots| - 1], slots[|slots| - 1];
      assert slots == rest + [last];
      AllFallbacksAre(func, summaries, limit, log, rest, e);
    }
  }

  lemma {:induction false} AllCopiesAre(func: nat, summaries: seq<Option<Summary>>, limit: nat, log: seq<Hit>, slots: seq<nat>, e: Event)
    ensures e in AllCopies(func, summaries, limit, log, slots) <==>
              exists slot :: slot in slots && e in CopyEvents(func, summaries, limit, slot, At(log, slot))
  {
    hide CopyEvents;
    if slots != [] {
      var rest, last := slots[..|slots| - 1], slots[|slots| - 1];
      assert slots == rest + [last];
      AllCopiesAre(func, summaries, limit, log, rest, e);
    }
  }

  /** The accesses put the rows of what they may touch into the row table, below the limit. */
  lemma AccessesEmit(func: nat, summaries: seq<Option<Summary>>, limit: nat, log: seq<Hit>, slots: seq<nat>, e: Event)
    requires Covers(log, slots)
    ensures e in AllRows(func, summaries, limit, log, slots) <==> NamesSomeGlobal(func, summaries, limit, log, e)
  {
    AllRowsAre(func, summaries, limit, log, slots, e);
    forall slot | slot in slots
      ensures e in AccessRows(func, summaries, limit, slot, At(log, slot)) <==>
                exists g :: NamesGlobal(func, summaries, limit, log, UseAt(slot), g, e)
    {
      AccessRowsAre(func, summaries, limit, log, slot, e);
    }
    if use, g :| NamesGlobal(func, summaries, limit, log, use, g, e) {
      LoggedIsCovered(log, slots, use, e.wit);
    }
  }

  /** Beyond the limit one row stands for all occurrences of a use. */
  lemma AccessesFallBack(func: nat, summaries: seq<Option<Summary>>, limit: nat, log: seq<Hit>, slots: seq<nat>, e: Event)
    requires Covers(log, slots)
    ensures e in AllFallbacks(func, summaries, limit, log, slots) <==>
              exists use :: StandsFor(func, summaries, limit, log, PagPointer, use, e)
  {
    AllFallbacksAre(func, summaries, limit, log, slots, e);
    forall slot | slot in slots
      ensures e in AccessFallback(func, summaries, limit, slot, At(log, slot)) <==>
                StandsFor(func, summaries, limit, log, PagPointer, UseAt(slot), e)
    {
      UseMeans(summaries, limit, slot);
      if Overflows(summaries, slot, limit) {
        FallbacksAre(func, summaries, limit, log, PagPointer, slot, e);
      }
    }
    hide AccessFallback;
    if use :| StandsFor(func, summaries, limit, log, PagPointer, use, e) {
      UsesAreSlots(use, SlotOf(use));
      assert SlotOf(use) in slots;
    }
  }

  lemma CopiesEmit(func: nat, summaries: seq<Option<Summary>>, limit: nat, log: seq<Hit>, slots: seq<nat>, e: Event)
    requires Covers(log, slots)
    ensures e in AllCopies(func, summaries, limit, log, slots) <==> exists use :: CopyEvent(func, summaries, limit, log, use, e)
  {
    AllCopiesAre(func, summaries, limit, log, slots, e);
    forall slot | slot in slots
      ensures e in CopyEvents(func, summaries, limit, slot, At(log, slot)) <==> CopyEvent(func, summaries, limit, log, UseAt(slot), e)
    {
      CopyEventsAre(func, summaries, limit, log, slot, e);
    }
    hide CopyEvents;
    if use :| CopyEvent(func, summaries, limit, log, use, e) {
      if Logged(log, use, e.wit) {
        LoggedIsCovered(log, slots, use, e.wit);
      } else {
        UsesAreSlots(use, SlotOf(use));
      }
      assert SlotOf(use) in slots;
    }
  }

  lemma {:induction false} ExpandedAre(expand: Expansion, log: seq<Hit>, e: Event)
    ensures e in Expanded(expand, log) <==> exists h :: h in log && e in Witnessed(expand(h.0), h.1)
  {
    if log != [] {
      var rest, last := log[..|log| - 1], log[|log| - 1];
      assert log == rest + [last];
      ExpandedAre(expand, rest, e);
    }
  }

  /** The row was recorded by its global and its kind of access. */
  ghost predicate RecordedRow(log: seq<Hit>, g: nat, access: Access, wit: Option<nat>) {
    (RowSlot(g, access), wit) in log
  }

  /** The row table stands for what was recorded in it. */
  lemma RowsEmit(func: nat, log: seq<Hit>, e: Event)
    ensures e in Expanded(RowFacts(func), log) <==>
              exists g, access :: RecordedRow(log, g, access, e.wit) && e == NamedEvent(func, g, access, e.wit)
  {
    ExpandedAre(RowFacts(func), log, e);
    forall h: Hit
      ensures e in Witnessed(RowFacts(func)(h.0), h.1) <==> e == NamedEvent(func, h.0 / 2, RowAccess(h.0), h.1)
      ensures h.0 == RowSlot(h.0 / 2, RowAccess(h.0))
    {
      var own := Witnessed(RowFacts(func)(h.0), h.1);
      assert own == [own[0]] && own[0] == RowAt(func, h.0).(wit := h.1);
    }
    if h: Hit :| h in log && e in Witnessed(RowFacts(func)(h.0), h.1) {
      assert h == (RowSlot(h.0 / 2, RowAccess(h.0)), h.1);
      assert RecordedRow(log, h.0 / 2, RowAccess(h.0), e.wit);
    }
    if g, access :| RecordedRow(log, g, access, e.wit) && e == NamedEvent(func, g, access, e.wit) {
      SlotsRoundTrip(g, access, false);
      var h := (RowSlot(g, access), e.wit);
      assert h in log && e in Witnessed(RowFacts(func)(h.0), h.1);
    }
  }
}
