/** The row builder, and flushing the coalescing tables into it. */
module Rows {
  import opened Basics
  import opened Sorting
  import opened Emission
  import opened SlotTables

  datatype Row = Row(fact: Fact, wit: Option<nat>, candidates: Candidates<set<nat>>)

  /** The index names exactly the rows, each under its fact. */
  ghost predicate IsIndex(byFact: map<Fact, nat>, rows: seq<Row>) {
    (&& (forall f | f in byFact :: byFact[f] < |rows| && rows[byFact[f]].fact == f)
     && (forall i | 0 <= i < |rows| :: rows[i].fact in byFact && byFact[rows[i].fact] == i)) == true
  }

  ghost function FactValues(byFact: map<Fact, nat>, rows: seq<Row>): map<Fact, Value>
    requires IsIndex(byFact, rows)
  {
    map f | f in byFact :: Value(rows[byFact[f]].wit, rows[byFact[f]].candidates)
  }

  function Folded(row: Row, e: Event): Row {
    Row(row.fact, Preferred(row.wit, e.wit), Merge(row.candidates, e.candidates))
  }

  lemma FoldedIsEntered(byFact: map<Fact, nat>, rows: seq<Row>, e: Event)
    requires IsIndex(byFact, rows) && e.fact in byFact
    ensures var after := rows[byFact[e.fact] := Folded(rows[byFact[e.fact]], e)];
            IsIndex(byFact, after) && FactValues(byFact, after) == Entered(FactValues(byFact, rows), e)
  {
  }

  lemma AddedIsEntered(byFact: map<Fact, nat>, rows: seq<Row>, e: Event)
    requires IsIndex(byFact, rows) && e.fact !in byFact
    ensures var index, after := byFact[e.fact := |rows|], rows + [Row(e.fact, e.wit, e.candidates)];
            IsIndex(index, after) && FactValues(index, after) == Entered(FactValues(byFact, rows), e)
  {
  }

  class ModRefBuilder {
    var rows: seq<Row>
    var byFact: map<Fact, nat>
    var counters: Counters

    ghost predicate Valid()
      reads this
    {
      IsIndex(byFact, rows)
    }

    ghost function State(): View
      reads this
      requires Valid()
    {
      View(FactValues(byFact, rows), counters)
    }

    constructor ()
      ensures Valid() && State().facts == map[] && Balanced(State())
    {
      rows, byFact := [], map[];
      var none := PhaseMetrics(Tallies(map[], 0), 0, 0, 0);
      counters := Counters(Tallies(map[], 0), none, none);
    }

    /** Adds a row, or folds it into the row of the same fact. */
    method Push(e: Event, phase: Option<Phase>)
      requires Valid()
      modifies this
      ensures Valid() && State() == Pushed(old(State()), e, phase)
    {
      if e.fact in byFact {
        FoldedIsEntered(byFact, rows, e);
        var i := byFact[e.fact];
        rows := rows[i := Row(e.fact, Preferred(rows[i].wit, e.wit), Merge(rows[i].candidates, e.candidates))];
        counters := Counted(counters, KeyOf(e.fact), phase, 1, 0, 1);
      } else {
        AddedIsEntered(byFact, rows, e);
        byFact := byFact[e.fact := |rows|];
        rows := rows + [Row(e.fact, e.wit, e.candidates)];
        counters := Counted(counters, KeyOf(e.fact), phase, 1, 1, 0);
      }
    }

    /** The path for named rows without detail, which have no candidates to merge. */
    method PushNamedEmpty(func: nat, global: nat, access: Access, via: Via, wit: Option<nat>, phase: Option<Phase>)
      requires Valid()
      modifies this
      ensures Valid()
      ensures State() == Pushed(old(State()), Event(Fact(func, Named(global), access, via, None), wit, Finite({})), phase)
    {
      var fact := Fact(func, Named(global), access, via, None);
      if fact in byFact {
        FoldedIsEntered(byFact, rows, Event(fact, wit, Finite({})));
        var i := byFact[fact];
        rows := rows[i := rows[i].(wit := Preferred(rows[i].wit, wit))];
        counters := Counted(counters, KeyOf(fact), phase, 1, 0, 1);
      } else {
        AddedIsEntered(byFact, rows, Event(fact, wit, Finite({})));
        byFact := byFact[fact := |rows|];
        rows := rows + [Row(fact, wit, Finite({}))];
        counters := Counted(counters, KeyOf(fact), phase, 1, 1, 0);
      }
    }

    /** Charges occurrences that were coalesced away. */
    method NoteDuplicates(fact: Fact, phase: Phase, count: nat)
      requires Valid()
      modifies this`counters
      ensures Valid() && State() == Noted(old(State()), fact, phase, count)
      ensures Balanced(old(State())) ==> Balanced(State())
    {
      if Balanced(State()) {
        NoteKeepsBalance(State(), fact, phase, count);
      }
      if count != 0 {
        counters := Counted(counters, KeyOf(fact), Some(phase), count, 0, count);
      }
      assert State().facts == old(State()).facts;
    }

    /** A row of a drained slot: pushed once, the other occurrences noted. */
    method PushCoalesced(row: Event, wit: Option<nat>, count: nat, phase: Phase, ghost witnesses: seq<Option<nat>>)
      requires Valid() && count == |witnesses| > 0 && wit == Least(witnesses)
      modifies this
      ensures Valid() && State() == PushedAll(old(State()), Occurrences(row.fact, witnesses, row.candidates), Some(phase))
    {
      CoalescedPush(State(), row.fact, witnesses, row.candidates, phase);
      if Compact(row.fact) && row.candidates == Finite({}) {
        PushNamedEmpty(row.fact.func, row.fact.target.global, row.fact.access, row.fact.via, wit, Some(phase));
      } else {
        Push(Event(row.fact, wit, row.candidates), Some(phase));
      }
      NoteDuplicates(row.fact, phase, count - 1);
    }
  }

  // ---------------------------------------------------------------------------------------------
  // What the slots of the tables stand for

  /** What is known about an address node. */
  datatype Summary = Summary(
    globals: seq<nat>, direct: Option<nat>, external: bool, info: nat, node: nat, candidates: set<nat>)

  function Rank(access: Access): nat {
    if access.Ref? then 0 else 1
  }

  function RowSlot(global: nat, access: Access): nat {
    global * 2 + Rank(access)
  }

  function AccessSlot(node: nat, access: Access, suppress: bool): nat {
    node * 4 + Rank(access) * 2 + if suppress then 1 else 0
  }

  function RowAccess(slot: nat): Access {
    if slot % 2 == 0 then Ref else Mod
  }

  function SlotAccess(slot: nat): Access {
    if slot % 4 / 2 == 0 then Ref else Mod
  }

  /** The slot numbers can be read back. */
  lemma SlotsRoundTrip(n: nat, access: Access, suppress: bool)
    ensures RowSlot(n, access) / 2 == n && RowAccess(RowSlot(n, access)) == access
    ensures AccessSlot(n, access, suppress) / 4 == n && SlotAccess(AccessSlot(n, access, suppress)) == access
    ensures AccessSlot(n, access, suppress) % 2 == 1 <==> suppress
  {
    var low: nat := Rank(access) * 2 + if suppress then 1 else 0;
    DivideByFour(n, low);
  }

  lemma DivideByFour(n: nat, low: nat)
    requires low < 4
    ensures (n * 4 + low) / 4 == n && (n * 4 + low) % 4 == low && (n * 4 + low) % 2 == low % 2
  {
    Quotient(n * 4 + low, 4, n, low);
    Quotient(n * 4 + low, 2, n * 2 + low / 2, low % 2);
  }

  /** Quotient and remainder are determined by what they make up. */
  lemma Quotient(x: nat, d: nat, q: nat, r: nat)
    requires d > 0 && r < d && x == q * d + r
    ensures x / d == q && x % d == r
  {
    var e := x / d - q;
    assert e * d == r - x % d by {
      assert x == (x / d) * d + x % d;
      assert e * d == (x / d) * d - q * d;
    }
    Multiple(e, d);
  }

  lemma Multiple(e: int, d: nat)
    ensures (e > 0 ==> e * d >= d) && (e < 0 ==> e * d <= -1 * d)
  {
    assert e > 0 ==> e * d == (e - 1) * d + d;
    assert e < 0 ==> e * d == (e + 1) * d - d;
  }

  function RowAt(func: nat, slot: nat): Event {
    Event(Fact(func, Named(slot / 2), RowAccess(slot), Aliased, None), None, Finite({}))
  }

  /** A slot of the row table stands for one row. */
  ghost function RowFacts(func: nat): Expansion {
    (slot: nat) => [RowAt(func, slot)]
  }

  /** The globals an access may touch; an access that names its global directly leaves that one out. */
  function Pointees(globals: seq<nat>, suppressed: Option<nat>): (r: seq<nat>)
    ensures forall g :: g in r ==> g in globals
  {
    if globals == [] then []
    else
      assert globals == globals[..|globals| - 1] + [globals[|globals| - 1]];
      Pointees(globals[..|globals| - 1], suppressed)
      + if Some(globals[|globals| - 1]) == suppressed then [] else [globals[|globals| - 1]]
  }

  function SlotPointees(summary: Summary, slot: nat): seq<nat> {
    Pointees(summary.globals, if slot % 2 == 1 then summary.direct else None)
  }

  function NamedRows(func: nat, globals: seq<nat>, access: Access): (r: seq<Event>)
    ensures |r| == |globals|
  {
    seq(|globals|, i requires 0 <= i < |globals| => RowAt(func, RowSlot(globals[i], access)))
  }

  function SummaryOf(summaries: seq<Option<Summary>>, slot: nat): Option<Summary> {
    if slot / 4 < |summaries| then summaries[slot / 4] else None
  }

  /** A slot of the access table stands for the rows of all globals the address may point to. */
  ghost function AccessFacts(func: nat, summaries: seq<Option<Summary>>): Expansion {
    (slot: nat) =>
      var summary := SummaryOf(summaries, slot);
      if summary.None? then [] else NamedRows(func, SlotPointees(summary.value, slot), SlotAccess(slot))
  }

  function UnknownRow(func: nat, access: Access, info: nat, candidates: set<nat>): Event {
    Event(Fact(func, Unknown(Rank(access)), access, UnknownVia, Some(Detail(info))), None, Finite(candidates))
  }

  /** For a copy, an external address adds an unknown row. */
  ghost function CopyFacts(func: nat, summaries: seq<Option<Summary>>): Expansion {
    (slot: nat) =>
      var summary := SummaryOf(summaries, slot);
      if summary.None? then []
      else
        NamedRows(func, SlotPointees(summary.value, slot), SlotAccess(slot))
        + if summary.value.external then [UnknownRow(func, SlotAccess(slot), summary.value.info, summary.value.candidates)] else []
  }

  predicate Collapses(summary: Summary, slot: nat, limit: nat) {
    limit > 0 && |SlotPointees(summary, slot)| > limit
  }

  lemma UsedSlotHasHit(log: seq<Hit>, slot: nat)
    requires |At(log, slot)| > 0
    ensures exists h :: h in log && h.0 == slot
  {
    PickMembers(log, {slot});
    assert Pick(log, {slot})[0] in Pick(log, {slot});
  }

  /** No used slot exceeds the fanout limit. */
  ghost predicate BelowLimit(summaries: seq<Option<Summary>>, log: seq<Hit>, limit: nat) {
    forall h | h in log :: SummaryOf(summaries, h.0).Some? ==> !Collapses(SummaryOf(summaries, h.0).value, h.0, limit)
  }

  // ---------------------------------------------------------------------------------------------
  // Flushing, one slot at a time

  /** The occurrences on these slots have been taken in. */
  ghost predicate TakenIn(s: View, v: View, expand: Expansion, log: seq<Hit>, slots: seq<nat>, phase: Phase) {
    s == PushedAll(v, Expanded(expand, Regrouped(log, slots)), Some(phase))
  }

  /** Flushing one more slot, row by row, takes in its hits. */
  lemma FlushNext(s: View, s': View, v: View, expand: Expansion, log: seq<Hit>, slots: seq<nat>, k: nat, phase: Phase)
    requires k < |slots| && TakenIn(s, v, expand, log, slots[..k], phase)
    requires s' == PushedAll(s, RowByRow(expand(slots[k]), At(log, slots[k])), Some(phase))
    ensures TakenIn(s', v, expand, log, slots[..k + 1], phase)
  {
    var slot := slots[k];
    var before, hits := Regrouped(log, slots[..k]), Pick(log, {slot});
    assert slots[..k + 1][..k] == slots[..k];
    ExpandedConcat(expand, before, hits);
    PushedConcat(v, Expanded(expand, before), Expanded(expand, hits), Some(phase));
    PickIsHits(log, slot);
    ExpandedHits(expand, slot, At(log, slot));
    RowsAndHits(expand(slot), At(log, slot));
    OrderIsIrrelevant(s, RowByRow(expand(slot), At(log, slot)), Expanded(expand, hits), Some(phase));
  }

  /** After all slots, every occurrence has been taken in. */
  lemma FlushDone(s: View, v: View, expand: Expansion, log: seq<Hit>, slots: seq<nat>, phase: Phase)
    requires NoDuplicates(slots) && forall h | h in log :: h.0 in slots
    requires TakenIn(s, v, expand, log, slots, phase)
    ensures s == PushedAll(v, Expanded(expand, log), Some(phase))
  {
    RegroupedIsLog(log, slots);
    ExpandedReorders(expand, Regrouped(log, slots), log);
    OrderIsIrrelevant(v, Expanded(expand, Regrouped(log, slots)), Expanded(expand, log), Some(phase));
  }

  lemma {:induction false} PushedKeepsBalance(v: View, events: seq<Event>, phase: Option<Phase>)
    requires Balanced(v)
    ensures Balanced(PushedAll(v, events, phase))
  {
    if events != [] {
      PushedKeepsBalance(v, events[..|events| - 1], phase);
      PushKeepsBalance(PushedAll(v, events[..|events| - 1], phase), events[|events| - 1], phase);
    }
  }

  /** Pushes all rows of one drained slot. */
  method PushSlot(
      modrefs: ModRefBuilder, rows: seq<Event>, wit: Option<nat>, count: nat, phase: Phase, ghost witnesses: seq<Option<nat>>)
    requires modrefs.Valid() && count == |witnesses| > 0 && wit == Least(witnesses)
    modifies modrefs
    ensures modrefs.Valid() && modrefs.State() == PushedAll(old(modrefs.State()), RowByRow(rows, witnesses), Some(phase))
  {
    ghost var v := modrefs.State();
    for g := 0 to |rows|
      invariant modrefs.Valid() && modrefs.State() == PushedAll(v, RowByRow(rows[..g], witnesses), Some(phase))
    {
      assert rows[..g + 1][..g] == rows[..g];
      PushedConcat(v, RowByRow(rows[..g], witnesses), Occurrences(rows[g].fact, witnesses, rows[g].candidates), Some(phase));
      modrefs.PushCoalesced(rows[g], wit, count, phase, witnesses);
    }
    assert rows[..|rows|] == rows;
  }

  method FlushSlot(modrefs: ModRefBuilder, func: nat, slot: nat, row: SlotRow, ghost log: seq<Hit>)
    requires modrefs.Valid() && row.count == |At(log, slot)| > 0 && row.wit == Least(At(log, slot))
    modifies modrefs
    ensures modrefs.Valid()
    ensures modrefs.State() == PushedAll(old(modrefs.State()), RowByRow(RowFacts(func)(slot), At(log, slot)), Some(PagPointer))
  {
    PushSlot(modrefs, [RowAt(func, slot)], row.wit, row.count, PagPointer, At(log, slot));
  }

  /** What draining a table yields. */
  ghost predicate IsDrained(drained: seq<(nat, SlotRow)>, log: seq<Hit>, touched: seq<nat>) {
    (&& |drained| == |touched|
     && forall k | 0 <= k < |drained| ::
          && drained[k].0 == touched[k] && drained[k].1.count == |At(log, drained[k].0)| > 0
          && drained[k].1.wit == Least(At(log, drained[k].0))) == true
  }

  /** One drained slot more. */
  method FlushRow(
      modrefs: ModRefBuilder, func: nat, drained: seq<(nat, SlotRow)>, k: nat, ghost v: View, ghost log: seq<Hit>, ghost touched: seq<nat>)
    requires modrefs.Valid() && IsDrained(drained, log, touched) && k < |drained|
    requires TakenIn(modrefs.State(), v, RowFacts(func), log, touched[..k], PagPointer)
    modifies modrefs
    ensures modrefs.Valid() && TakenIn(modrefs.State(), v, RowFacts(func), log, touched[..k + 1], PagPointer)
  {
    ghost var before := modrefs.State();
    var (slot, row) := drained[k];
    FlushSlot(modrefs, func, slot, row, log);
    FlushNext(before, modrefs.State(), v, RowFacts(func), log, touched, k, PagPointer);
  }

  method FlushRows(modrefs: ModRefBuilder, func: nat, drained: seq<(nat, SlotRow)>, ghost log: seq<Hit>, ghost touched: seq<nat>)
    requires modrefs.Valid() && IsDrained(drained, log, touched)
    modifies modrefs
    ensures modrefs.Valid()
    ensures TakenIn(modrefs.State(), old(modrefs.State()), RowFacts(func), log, touched, PagPointer)
  {
    ghost var v := modrefs.State();
    assert touched[..0] == [];
    for k := 0 to |drained|
      invariant modrefs.Valid() && TakenIn(modrefs.State(), v, RowFacts(func), log, touched[..k], PagPointer)
    {
      FlushRow(modrefs, func, drained, k, v, log, touched);
    }
    assert touched[..|touched|] == touched;
  }

  /** Flushing the row table is pushing every occurrence it took in. */
  method FlushLocalRows(modrefs: ModRefBuilder, func: Option<nat>, table: SlotTable)
    requires modrefs.Valid() && table.Valid()
    modifies modrefs, table
    ensures modrefs.Valid() && table.Valid() && |table.slots| == |old(table.slots)|
    ensures func.None? ==> modrefs.State() == old(modrefs.State()) && table.log == old(table.log)
    ensures func.Some? ==> table.log == [] && table.touched == []
    ensures func.Some? ==>
              modrefs.State() == PushedAll(old(modrefs.State()), Expanded(RowFacts(func.value), old(table.log)), Some(PagPointer))
  {
    if func.None? {
      return;
    }
    ghost var v, log, touched := modrefs.State(), table.log, table.touched;
    var drained := table.Drain();
    FlushRows(modrefs, func.value, drained, log, touched);
    FlushDone(modrefs.State(), v, RowFacts(func.value), log, touched, PagPointer);
  }

  /** The row that stands for all occurrences of an address beyond the limit. */
  function FallbackRow(func: nat, summary: Summary, slot: nat, wit: Option<nat>, count: nat, source: Phase): Event {
    var candidates := if slot % 2 == 1 && summary.direct.Some? then summary.candidates - {summary.direct.value} else summary.candidates;
    var info := Fallback(summary.node, source, |SlotPointees(summary, slot)|, count);
    Event(Fact(func, Unknown(Rank(SlotAccess(slot))), SlotAccess(slot), UnknownVia, Some(info)), wit, Finite(candidates))
  }

  predicate Overflows(summaries: seq<Option<Summary>>, slot: nat, limit: nat) {
    var summary := SummaryOf(summaries, slot);
    summary.Some? && Collapses(summary.value, slot, limit)
  }

  /** What the occurrences on one slot of the copy table are pushed as. */
  ghost function CopyEvents(func: nat, summaries: seq<Option<Summary>>, limit: nat, slot: nat, witnesses: seq<Option<nat>>): seq<Event> {
    if Overflows(summaries, slot, limit) then
      [FallbackRow(func, SummaryOf(summaries, slot).value, slot, Least(witnesses), |witnesses|, MemsetMemcpy)]
    else RowByRow(CopyFacts(func, summaries)(slot), witnesses)
  }

  /** The copies of these slots. */
  ghost function AllCopies(func: nat, summaries: seq<Option<Summary>>, limit: nat, log: seq<Hit>, slots: seq<nat>): seq<Event> {
    if slots == [] then []
    else
      var last := slots[|slots| - 1];
      AllCopies(func, summaries, limit, log, slots[..|slots| - 1]) + CopyEvents(func, summaries, limit, last, At(log, last))
  }

  lemma NoSlotEvents(expand: Expansion, log: seq<Hit>)
    ensures SlotEvents(expand, log, []) == multiset{}
  {
  }

  /** Below the limit these are the copies that the occurrences stand for, one by one. */
  lemma {:induction false} CopiesBelowLimit(func: nat, summaries: seq<Option<Summary>>, limit: nat, log: seq<Hit>, slots: seq<nat>)
    requires forall slot | slot in slots :: !Overflows(summaries, slot, limit)
    ensures multiset(AllCopies(func, summaries, limit, log, slots)) == SlotEvents(CopyFacts(func, summaries), log, slots)
  {
    hide RowByRow, SlotEvents;
    if slots == [] {
      NoSlotEvents(CopyFacts(func, summaries), log);
    } else {
      var rest, last := slots[..|slots| - 1], slots[|slots| - 1];
      assert slots == rest + [last];
      CopiesBelowLimit(func, summaries, limit, log, rest);
      RegroupedNext(CopyFacts(func, summaries), log, rest, last);
    }
  }

  lemma {:induction false} SlotEventsAreLog(expand: Expansion, log: seq<Hit>, slots: seq<nat>)
    requires NoDuplicates(slots) && forall h | h in log :: h.0 in slots
    ensures SlotEvents(expand, log, slots) == multiset(Expanded(expand, log))
  {
    RegroupedIsLog(log, slots);
    ExpandedReorders(expand, Regrouped(log, slots), log);
  }

  /** Used slots do not overflow below the limit. */
  lemma UsedBelowLimit(summaries: seq<Option<Summary>>, log: seq<Hit>, limit: nat, drained: seq<(nat, SlotRow)>, touched: seq<nat>)
    requires BelowLimit(summaries, log, limit) && IsDrained(drained, log, touched)
    ensures forall slot | slot in touched :: !Overflows(summaries, slot, limit)
  {
    forall slot | slot in touched
      ensures !Overflows(summaries, slot, limit)
    {
      var k :| 0 <= k < |touched| && touched[k] == slot;
      assert drained[k].0 == slot;
      UsedSlotHasHit(log, slot);
    }
  }

  /**
   Flushing the copies is pushing, slot by slot, every copy or, beyond the limit, the one row that stands
   for them. Below the limit it is pushing every copy by itself.
   */
  method FlushCopies(
      modrefs: ModRefBuilder, func: Option<nat>, table: SlotTable, summaries: seq<Option<Summary>>, limit: nat)
    requires modrefs.Valid() && table.Valid()
    modifies modrefs, table
    ensures modrefs.Valid() && table.Valid() && (Balanced(old(modrefs.State())) ==> Balanced(modrefs.State()))
    ensures func.None? ==> modrefs.State() == old(modrefs.State()) && table.log == old(table.log)
    ensures func.Some? ==> table.log == [] && table.touched == []
    ensures func.Some? ==>
              var copies := AllCopies(func.value, summaries, limit, old(table.log), old(table.touched));
              modrefs.State() == PushedAll(old(modrefs.State()), copies, Some(MemsetMemcpy))
    ensures func.Some? && BelowLimit(summaries, old(table.log), limit) ==>
              modrefs.State() == PushedAll(old(modrefs.State()), Expanded(CopyFacts(func.value, summaries), old(table.log)), Some(MemsetMemcpy))
  {
    if func.None? {
      return;
    }
    ghost var v, log, touched := modrefs.State(), table.log, table.touched;
    var drained := table.Drain();
    FlushDrainedCopies(modrefs, func.value, drained, summaries, limit, log, touched);
    ghost var copies := AllCopies(func.value, summaries, limit, log, touched);
    if Balanced(v) {
      PushedKeepsBalance(v, copies, Some(MemsetMemcpy));
    }
    if BelowLimit(summaries, log, limit) {
      UsedBelowLimit(summaries, log, limit, drained, touched);
      CopiesBelowLimit(func.value, summaries, limit, log, touched);
      SlotEventsAreLog(CopyFacts(func.value, summaries), log, touched);
      OrderIsIrrelevant(v, copies, Expanded(CopyFacts(func.value, summaries), log), Some(MemsetMemcpy));
    }
  }

  method FlushDrainedCopies(
      modrefs: ModRefBuilder, func: nat, drained: seq<(nat, SlotRow)>, summaries: seq<Option<Summary>>, limit: nat,
      ghost log: seq<Hit>, ghost touched: seq<nat>)
    requires modrefs.Valid() && IsDrained(drained, log, touched)
    modifies modrefs
    ensures modrefs.Valid()
    ensures modrefs.State() == PushedAll(old(modrefs.State()), AllCopies(func, summaries, limit, log, touched), Some(MemsetMemcpy))
  {
    ghost var v := modrefs.State();
    for k := 0 to |drained|
      invariant modrefs.Valid()
      invariant modrefs.State() == PushedAll(v, AllCopies(func, summaries, limit, log, touched[..k]), Some(MemsetMemcpy))
    {
      var (slot, row) := drained[k];
      CopiesNext(v, func, summaries, limit, log, touched, k);
      FlushCopy(modrefs, func, slot, row, summaries, limit, log);
    }
    assert touched[..|touched|] == touched;
  }

  lemma CopiesNext(v: View, func: nat, summaries: seq<Option<Summary>>, limit: nat, log: seq<Hit>, slots: seq<nat>, k: nat)
    requires k < |slots|
    ensures PushedAll(PushedAll(v, AllCopies(func, summaries, limit, log, slots[..k]), Some(MemsetMemcpy)),
                      CopyEvents(func, summaries, limit, slots[k], At(log, slots[k])), Some(MemsetMemcpy))
         == PushedAll(v, AllCopies(func, summaries, limit, log, slots[..k + 1]), Some(MemsetMemcpy))
  {
    assert slots[..k + 1][..k] == slots[..k];
    PushedConcat(v, AllCopies(func, summaries, limit, log, slots[..k]),
                 CopyEvents(func, summaries, limit, slots[k], At(log, slots[k])), Some(MemsetMemcpy));
  }

  lemma PushedOne(v: View, e: Event, phase: Option<Phase>)
    ensures PushedAll(v, [e], phase) == Pushed(v, e, phase)
  {
    var none: seq<Event> := [];
    assert [e][..0] == none;
  }

  method FlushCopy(
      modrefs: ModRefBuilder, func: nat, slot: nat, row: SlotRow, summaries: seq<Option<Summary>>, limit: nat, ghost log: seq<Hit>)
    requires modrefs.Valid() && row.count == |At(log, slot)| > 0 && row.wit == Least(At(log, slot))
    modifies modrefs
    ensures modrefs.Valid()
    ensures modrefs.State() == PushedAll(old(modrefs.State()), CopyEvents(func, summaries, limit, slot, At(log, slot)), Some(MemsetMemcpy))
  {
    var summary := SummaryOf(summaries, slot);
    if summary.None? {
      return;
    }
    if Collapses(summary.value, slot, limit) {
      var e := FallbackRow(func, summary.value, slot, row.wit, row.count, MemsetMemcpy);
      PushedOne(modrefs.State(), e, Some(MemsetMemcpy));
      modrefs.Push(e, Some(MemsetMemcpy));
      return;
    }
    var rows := NamedRows(func, SlotPointees(summary.value, slot), SlotAccess(slot));
    if summary.value.external {
      rows := rows + [UnknownRow(func, SlotAccess(slot), summary.value.info, summary.value.candidates)];
    }
    assert CopyFacts(func, summaries)(slot) == rows;
    PushSlot(modrefs, rows, row.wit, row.count, MemsetMemcpy, At(log, slot));
  }

  // ---------------------------------------------------------------------------------------------
  // The first of the two stages: accesses become rows of the row table

  /** Every global has its slots. */
  ghost predicate Fits(summaries: seq<Option<Summary>>, size: nat) {
    forall i, g | 0 <= i < |summaries| && summaries[i].Some? && g in summaries[i].value.globals :: RowSlot(g, Mod) < size
  }

  /** The occurrences that the row table has taken in. */
  ghost function RowEvents(func: nat, log: seq<Hit>): multiset<Event> {
    multiset(Expanded(RowFacts(func), log))
  }

  /** The occurrences that the used slots of an access table expand to. */
  ghost function SlotEvents(expand: Expansion, log: seq<Hit>, slots: seq<nat>): multiset<Event> {
    multiset(Expanded(expand, Regrouped(log, slots)))
  }

  /** Pushing a count to a slot of the row table is taking in that many occurrences of its row. */
  lemma PushAddsOccurrences(func: nat, log: seq<Hit>, slot: nat, witnesses: seq<Option<nat>>)
    ensures RowEvents(func, log + Hits(slot, witnesses)) == RowEvents(func, log) + multiset(Occurrences(RowAt(func, slot).fact, witnesses, Finite({})))
  {
    var expand := RowFacts(func);
    ExpandedConcat(expand, log, Hits(slot, witnesses));
    ExpandedHits(expand, slot, witnesses);
    RowsAndHits([RowAt(func, slot)], witnesses);
    var none: seq<Event> := [];
    assert [RowAt(func, slot)][..0] == none;
    assert RowByRow(none, witnesses) + Occurrences(RowAt(func, slot).fact, witnesses, Finite({}))
        == Occurrences(RowAt(func, slot).fact, witnesses, Finite({}));
  }

  /** The events of one more slot. */
  lemma RegroupedNext(expand: Expansion, log: seq<Hit>, slots: seq<nat>, slot: nat)
    ensures SlotEvents(expand, log, slots + [slot]) == SlotEvents(expand, log, slots) + multiset(RowByRow(expand(slot), At(log, slot)))
  {
    assert (slots + [slot])[..|slots|] == slots;
    ExpandedConcat(expand, Regrouped(log, slots), Pick(log, {slot}));
    PickIsHits(log, slot);
    ExpandedHits(expand, slot, At(log, slot));
    RowsAndHits(expand(slot), At(log, slot));
  }

  /** The rows that an access adds to the row table; beyond the limit it adds none. */
  ghost function AccessRows(func: nat, summaries: seq<Option<Summary>>, limit: nat, slot: nat, witnesses: seq<Option<nat>>): seq<Event> {
    if Overflows(summaries, slot, limit) then [] else RowByRow(AccessFacts(func, summaries)(slot), witnesses)
  }

  /** Beyond the limit one row stands for the access. */
  ghost function AccessFallback(func: nat, summaries: seq<Option<Summary>>, limit: nat, slot: nat, witnesses: seq<Option<nat>>): seq<Event> {
    if Overflows(summaries, slot, limit) then
      [FallbackRow(func, SummaryOf(summaries, slot).value, slot, Least(witnesses), |witnesses|, PagPointer)]
    else []
  }

  ghost function AllRows(func: nat, summaries: seq<Option<Summary>>, limit: nat, log: seq<Hit>, slots: seq<nat>): seq<Event> {
    if slots == [] then []
    else
      var last := slots[|slots| - 1];
      AllRows(func, summaries, limit, log, slots[..|slots| - 1]) + AccessRows(func, summaries, limit, last, At(log, last))
  }

  ghost function AllFallbacks(func: nat, summaries: seq<Option<Summary>>, limit: nat, log: seq<Hit>, slots: seq<nat>): seq<Event> {
    if slots == [] then []
    else
      var last := slots[|slots| - 1];
      AllFallbacks(func, summaries, limit, log, slots[..|slots| - 1]) + AccessFallback(func, summaries, limit, last, At(log, last))
  }

  /** Below the limit every row of every access is added, and no row stands for another. */
  lemma {:induction false} AccessesBelowLimit(func: nat, summaries: seq<Option<Summary>>, limit: nat, log: seq<Hit>, slots: seq<nat>)
    requires forall slot | slot in slots :: !Overflows(summaries, slot, limit)
    ensures multiset(AllRows(func, summaries, limit, log, slots)) == SlotEvents(AccessFacts(func, summaries), log, slots)
    ensures AllFallbacks(func, summaries, limit, log, slots) == []
  {
    if slots != [] {
      var rest, last := slots[..|slots| - 1], slots[|slots| - 1];
      assert slots == rest + [last];
      AccessesBelowLimit(func, summaries, limit, log, rest);
      RegroupedNext(AccessFacts(func, summaries), log, rest, last);
    }
  }

  /** One drained access: its rows go to the row table, or beyond the limit one row stands for all. */
  method FlushAccess(
      modrefs: ModRefBuilder, func: nat, rows: SlotTable, slot: nat, row: SlotRow, summaries: seq<Option<Summary>>, limit: nat,
      ghost log: seq<Hit>)
    requires modrefs.Valid() && rows.Valid() && row.count == |At(log, slot)| > 0 && row.wit == Least(At(log, slot))
    requires Fits(summaries, |rows.slots|)
    modifies modrefs, rows
    ensures modrefs.Valid() && rows.Valid() && |rows.slots| == |old(rows.slots)|
    ensures modrefs.State() == PushedAll(old(modrefs.State()), AccessFallback(func, summaries, limit, slot, At(log, slot)), Some(PagPointer))
    ensures RowEvents(func, rows.log)
         == RowEvents(func, old(rows.log)) + multiset(AccessRows(func, summaries, limit, slot, At(log, slot)))
  {
    var summary := SummaryOf(summaries, slot);
    if summary.None? {
      return;
    }
    if Collapses(summary.value, slot, limit) {
      var e := FallbackRow(func, summary.value, slot, row.wit, row.count, PagPointer);
      PushedOne(modrefs.State(), e, Some(PagPointer));
      modrefs.Push(e, Some(PagPointer));
      return;
    }
    var pointees := SlotPointees(summary.value, slot);
    assert forall g | g in pointees :: RowSlot(g, SlotAccess(slot)) <= RowSlot(g, Mod) < |rows.slots|;
    assert NamedRows(func, pointees, SlotAccess(slot)) == AccessFacts(func, summaries)(slot);
    PushPointees(rows, func, pointees, SlotAccess(slot), row, At(log, slot));
  }

  lemma RowByRowNext(rows: seq<Event>, k: nat, witnesses: seq<Option<nat>>)
    requires k < |rows|
    ensures multiset(RowByRow(rows[..k + 1], witnesses))
         == multiset(RowByRow(rows[..k], witnesses)) + multiset(Occurrences(rows[k].fact, witnesses, rows[k].candidates))
  {
    assert rows[..k + 1][..k] == rows[..k];
  }

  /** One pointee more: its row takes in every occurrence of the access. */
  lemma PointeeNext(
      func: nat, log: seq<Hit>, start: multiset<Event>, pointees: seq<nat>, access: Access, g: nat, witnesses: seq<Option<nat>>)
    requires g < |pointees|
    requires RowEvents(func, log) == start + multiset(RowByRow(NamedRows(func, pointees, access)[..g], witnesses))
    ensures RowEvents(func, log + Hits(RowSlot(pointees[g], access), witnesses))
         == start + multiset(RowByRow(NamedRows(func, pointees, access)[..g + 1], witnesses))
  {
    RowByRowNext(NamedRows(func, pointees, access), g, witnesses);
    PushAddsOccurrences(func, log, RowSlot(pointees[g], access), witnesses);
  }

  method PushPointees(
      rows: SlotTable, ghost func: nat, pointees: seq<nat>, access: Access, row: SlotRow, ghost witnesses: seq<Option<nat>>)
    requires rows.Valid() && row.count == |witnesses| > 0 && row.wit == Least(witnesses)
    requires forall i | 0 <= i < |pointees| :: RowSlot(pointees[i], access) < |rows.slots|
    modifies rows
    ensures rows.Valid() && |rows.slots| == |old(rows.slots)|
    ensures RowEvents(func, rows.log) == RowEvents(func, old(rows.log)) + multiset(RowByRow(NamedRows(func, pointees, access), witnesses))
  {
    ghost var all := NamedRows(func, pointees, access);
    ghost var start := RowEvents(func, rows.log);
    for g := 0 to |pointees|
      invariant rows.Valid() && |rows.slots| == |old(rows.slots)|
      invariant RowEvents(func, rows.log) == start + multiset(RowByRow(all[..g], witnesses))
    {
      PointeeNext(func, rows.log, start, pointees, access, g, witnesses);
      rows.Push(RowSlot(pointees[g], access), row.wit, row.count, witnesses);
    }
    assert all[..|pointees|] == all;
  }

  /**
   The row table takes in every row of every access; an access beyond the limit is pushed as one row
   instead.
   */
  method FlushLocalAccesses(
      modrefs: ModRefBuilder, func: nat, rows: SlotTable, accesses: SlotTable, summaries: seq<Option<Summary>>, limit: nat)
    requires modrefs.Valid() && rows.Valid() && accesses.Valid() && rows != accesses && Fits(summaries, |rows.slots|)
    modifies modrefs, rows, accesses
    ensures modrefs.Valid() && rows.Valid() && accesses.Valid() && accesses.log == [] && accesses.touched == []
    ensures |rows.slots| == |old(rows.slots)|
    ensures var fallbacks := AllFallbacks(func, summaries, limit, old(accesses.log), old(accesses.touched));
            modrefs.State() == PushedAll(old(modrefs.State()), fallbacks, Some(PagPointer))
    ensures var taken := AllRows(func, summaries, limit, old(accesses.log), old(accesses.touched));
            RowEvents(func, rows.log) == RowEvents(func, old(rows.log)) + multiset(taken)
    ensures BelowLimit(summaries, old(accesses.log), limit) ==>
              && AllFallbacks(func, summaries, limit, old(accesses.log), old(accesses.touched)) == []
              && multiset(AllRows(func, summaries, limit, old(accesses.log), old(accesses.touched)))
                 == multiset(Expanded(AccessFacts(func, summaries), old(accesses.log)))
  {
    ghost var log, touched := accesses.log, accesses.touched;
    var drained := accesses.Drain();
    FlushDrained(modrefs, func, rows, drained, summaries, limit, log, touched);
    if BelowLimit(summaries, log, limit) {
      UsedBelowLimit(summaries, log, limit, drained, touched);
      AccessesBelowLimit(func, summaries, limit, log, touched);
      SlotEventsAreLog(AccessFacts(func, summaries), log, touched);
    }
  }

  method FlushDrained(
      modrefs: ModRefBuilder, func: nat, rows: SlotTable, drained: seq<(nat, SlotRow)>, summaries: seq<Option<Summary>>, limit: nat,
      ghost log: seq<Hit>, ghost touched: seq<nat>)
    requires modrefs.Valid() && rows.Valid() && Fits(summaries, |rows.slots|) && IsDrained(drained, log, touched)
    modifies modrefs, rows
    ensures modrefs.Valid() && rows.Valid() && |rows.slots| == |old(rows.slots)|
    ensures modrefs.State() == PushedAll(old(modrefs.State()), AllFallbacks(func, summaries, limit, log, touched), Some(PagPointer))
    ensures RowEvents(func, rows.log) == RowEvents(func, old(rows.log)) + multiset(AllRows(func, summaries, limit, log, touched))
  {
    ghost var v, start := modrefs.State(), RowEvents(func, rows.log);
    assert AllFallbacks(func, summaries, limit, log, touched[..0]) == AllRows(func, summaries, limit, log, touched[..0]) == [];
    assert PushedAll(v, [], Some(PagPointer)) == v;
    hide AllFallbacks, AllRows, AccessFallback, AccessRows, PushedAll, RowEvents;
    for k := 0 to |drained|
      invariant modrefs.Valid() && rows.Valid() && |rows.slots| == |old(rows.slots)|
      invariant modrefs.State() == PushedAll(v, AllFallbacks(func, summaries, limit, log, touched[..k]), Some(PagPointer))
      invariant RowEvents(func, rows.log) == start + multiset(AllRows(func, summaries, limit, log, touched[..k]))
    {
      var (slot, row) := drained[k];
      AccessesNext(v, func, summaries, limit, log, touched, k);
      FlushAccess(modrefs, func, rows, slot, row, summaries, limit, log);
    }
    assert touched[..|touched|] == touched;
  }

  lemma AccessesNext(v: View, func: nat, summaries: seq<Option<Summary>>, limit: nat, log: seq<Hit>, slots: seq<nat>, k: nat)
    requires k < |slots|
    ensures PushedAll(PushedAll(v, AllFallbacks(func, summaries, limit, log, slots[..k]), Some(PagPointer)),
                      AccessFallback(func, summaries, limit, slots[k], At(log, slots[k])), Some(PagPointer))
         == PushedAll(v, AllFallbacks(func, summaries, limit, log, slots[..k + 1]), Some(PagPointer))
    ensures multiset(AllRows(func, summaries, limit, log, slots[..k + 1]))
         == multiset(AllRows(func, summaries, limit, log, slots[..k])) + multiset(AccessRows(func, summaries, limit, slots[k], At(log, slots[k])))
  {
    assert slots[..k + 1][..k] == slots[..k];
    PushedConcat(v, AllFallbacks(func, summaries, limit, log, slots[..k]),
                 AccessFallback(func, summaries, limit, slots[k], At(log, slots[k])), Some(PagPointer));
  }
}
