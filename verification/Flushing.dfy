/** The end of a function: its three tables are flushed into the builder, which then holds what they logged. */
module Flushing {
  import opened Basics
  import opened Sorting
  import opened Emission
  import opened SlotTables
  import opened Rows
  import opened RowContents

  /** The view after the three stages. */
  ghost function Flushed(v: View, fallbacks: seq<Event>, copied: seq<Event>, accessed: seq<Event>): View {
    PushedAll(PushedAll(PushedAll(v, fallbacks, Some(PagPointer)), copied, Some(MemsetMemcpy)), accessed, Some(PagPointer))
  }

  lemma FlushedKeepsBalance(v: View, fallbacks: seq<Event>, copied: seq<Event>, accessed: seq<Event>)
    ensures Balanced(v) ==> Balanced(Flushed(v, fallbacks, copied, accessed))
  {
    if Balanced(v) {
      PushedKeepsBalance(v, fallbacks, Some(PagPointer));
      PushedKeepsBalance(PushedAll(v, fallbacks, Some(PagPointer)), copied, Some(MemsetMemcpy));
      PushedKeepsBalance(PushedAll(PushedAll(v, fallbacks, Some(PagPointer)), copied, Some(MemsetMemcpy)), accessed, Some(PagPointer));
    }
  }

  // ---------------------------------------------------------------------------------------------
  // What is there afterwards

  /** What the three tables logged. */
  datatype Logs = Logs(rows: seq<Hit>, accesses: seq<Hit>, copies: seq<Hit>)

  /** An occurrence that the logs call for: a recorded row, an access, a copy, or a row that stands for one of the two. */
  ghost predicate CalledFor(func: nat, summaries: seq<Option<Summary>>, limit: nat, logs: Logs, e: Event) {
    || (exists g, access :: RecordedRow(logs.rows, g, access, e.wit) && e == NamedEvent(func, g, access, e.wit))
    || NamesSomeGlobal(func, summaries, limit, logs.accesses, e)
    || (exists use :: StandsFor(func, summaries, limit, logs.accesses, PagPointer, use, e))
    || (exists use :: CopyEvent(func, summaries, limit, logs.copies, use, e))
  }

  ghost predicate BringsFact(func: nat, summaries: seq<Option<Summary>>, limit: nat, logs: Logs, fact: Fact) {
    exists e: Event :: e.fact == fact && CalledFor(func, summaries, limit, logs, e)
  }

  /** The logged access or copy may touch the global. */
  ghost predicate MayTouch(summaries: seq<Option<Summary>>, limit: nat, logs: Logs, use: Use, wit: Option<nat>, g: nat) {
    && PointsTo(summaries, use, g) && !TooMany(summaries, limit, use)
    && (Logged(logs.accesses, use, wit) || Logged(logs.copies, use, wit))
  }

  /** The global was recorded by itself, or is among those that a logged access or copy may touch. */
  ghost predicate Touches(summaries: seq<Option<Summary>>, limit: nat, logs: Logs, g: nat, access: Access) {
    || (exists wit :: RecordedRow(logs.rows, g, access, wit))
    || (exists use, wit :: MayTouch(summaries, limit, logs, use, wit, g) && use.access == access)
  }

  ghost predicate AllCalledFor(func: nat, summaries: seq<Option<Summary>>, limit: nat, logs: Logs, events: seq<Event>) {
    forall e :: e in events <==> CalledFor(func, summaries, limit, logs, e)
  }

  lemma StagesEmit(
      func: nat, summaries: seq<Option<Summary>>, limit: nat, logs: Logs, accessSlots: seq<nat>, copySlots: seq<nat>)
    requires Covers(logs.accesses, accessSlots) && Covers(logs.copies, copySlots)
    ensures var fallbacks := AllFallbacks(func, summaries, limit, logs.accesses, accessSlots);
            var copied := AllCopies(func, summaries, limit, logs.copies, copySlots);
            var accessed := Expanded(RowFacts(func), logs.rows) + AllRows(func, summaries, limit, logs.accesses, accessSlots);
            AllCalledFor(func, summaries, limit, logs, fallbacks + copied + accessed)
  {
    var fallbacks := AllFallbacks(func, summaries, limit, logs.accesses, accessSlots);
    var copied := AllCopies(func, summaries, limit, logs.copies, copySlots);
    var taken := AllRows(func, summaries, limit, logs.accesses, accessSlots);
    var recorded := Expanded(RowFacts(func), logs.rows);
    hide AllFallbacks, AllCopies, AllRows, Expanded, NamesSomeGlobal, StandsFor, CopyEvent, RecordedRow, Covers;
    forall e
      ensures e in fallbacks + copied + (recorded + taken) <==> CalledFor(func, summaries, limit, logs, e)
    {
      AccessesFallBack(func, summaries, limit, logs.accesses, accessSlots, e);
      CopiesEmit(func, summaries, limit, logs.copies, copySlots, e);
      AccessesEmit(func, summaries, limit, logs.accesses, accessSlots, e);
      RowsEmit(func, logs.rows, e);
    }
  }

  lemma {:induction false} PhaseIsIrrelevant(v: View, w: View, events: seq<Event>, phase: Option<Phase>, other: Option<Phase>)
    requires v.facts == w.facts
    ensures PushedAll(v, events, phase).facts == PushedAll(w, events, other).facts
  {
    if events != [] {
      PhaseIsIrrelevant(v, w, events[..|events| - 1], phase, other);
    }
  }

  /** Only the counters tell the three stages apart. */
  lemma FlushedFacts(v: View, fallbacks: seq<Event>, copied: seq<Event>, accessed: seq<Event>)
    ensures Flushed(v, fallbacks, copied, accessed).facts == PushedAll(v, fallbacks + copied + accessed, None).facts
  {
    var first := PushedAll(v, fallbacks, Some(PagPointer));
    var second := PushedAll(first, copied, Some(MemsetMemcpy));
    PushedConcat(v, fallbacks, copied, None);
    PushedConcat(v, fallbacks + copied, accessed, None);
    PhaseIsIrrelevant(v, v, fallbacks, Some(PagPointer), None);
    PhaseIsIrrelevant(first, PushedAll(v, fallbacks, None), copied, Some(MemsetMemcpy), None);
    PhaseIsIrrelevant(second, PushedAll(v, fallbacks + copied, None), accessed, Some(PagPointer), None);
  }

  /** A fact is there exactly when it was there before or the logs call for it. */
  lemma FactsAreCalledFor(
      v: View, func: nat, summaries: seq<Option<Summary>>, limit: nat, logs: Logs, fallbacks: seq<Event>, copied: seq<Event>,
      accessed: seq<Event>, fact: Fact)
    requires AllCalledFor(func, summaries, limit, logs, fallbacks + copied + accessed)
    ensures fact in Flushed(v, fallbacks, copied, accessed).facts <==> fact in v.facts || BringsFact(func, summaries, limit, logs, fact)
  {
    hide CalledFor, Flushed, PushedAll;
    var events := fallbacks + copied + accessed;
    FlushedFacts(v, fallbacks, copied, accessed);
    PushedGathers(v, events, None, fact);
    if part :| Contributes(v, events, fact, part) {
      assert fact in v.facts || CalledFor(func, summaries, limit, logs, Event(fact, part.wit, part.candidates));
    }
    if e: Event :| e.fact == fact && CalledFor(func, summaries, limit, logs, e) {
      assert e == Event(fact, e.wit, e.candidates);
      assert Contributes(v, events, fact, Value(e.wit, e.candidates));
    }
    if fact in v.facts {
      assert Contributes(v, events, fact, v.facts[fact]);
    }
  }

  lemma NamedIsTouched(func: nat, summaries: seq<Option<Summary>>, limit: nat, logs: Logs, g: nat, access: Access)
    ensures BringsFact(func, summaries, limit, logs, Fact(func, Named(g), access, Aliased, None)) <==>
              Touches(summaries, limit, logs, g, access)
  {
    var fact := Fact(func, Named(g), access, Aliased, None);
    hide PointsTo, TooMany, RecordedRow, Logged, Known, Fanout;
    if e: Event :| e.fact == fact && CalledFor(func, summaries, limit, logs, e) {
      assert forall use :: !StandsFor(func, summaries, limit, logs.accesses, PagPointer, use, e);
      if use, h :| NamesGlobal(func, summaries, limit, logs.accesses, use, h, e) {
        assert MayTouch(summaries, limit, logs, use, e.wit, g);
      } else if use :| CopyEvent(func, summaries, limit, logs.copies, use, e) {
        assert MayTouch(summaries, limit, logs, use, e.wit, g);
      }
    }
    if wit :| RecordedRow(logs.rows, g, access, wit) {
      assert CalledFor(func, summaries, limit, logs, NamedEvent(func, g, access, wit));
    }
    if use, wit :| MayTouch(summaries, limit, logs, use, wit, g) && use.access == access {
      var e := NamedEvent(func, g, access, wit);
      if Logged(logs.accesses, use, wit) {
        assert NamesGlobal(func, summaries, limit, logs.accesses, use, g, e);
      } else {
        assert NamesGlobal(func, summaries, limit, logs.copies, use, g, e);
        assert CopyEvent(func, summaries, limit, logs.copies, use, e);
      }
      assert CalledFor(func, summaries, limit, logs, e);
    }
  }

  lemma ContentsAreCalledFor(
      v: View, func: nat, summaries: seq<Option<Summary>>, limit: nat, logs: Logs, fallbacks: seq<Event>, copied: seq<Event>,
      accessed: seq<Event>)
    requires AllCalledFor(func, summaries, limit, logs, fallbacks + copied + accessed)
    ensures var after := Flushed(v, fallbacks, copied, accessed).facts;
            && (forall fact :: fact in after <==> fact in v.facts || BringsFact(func, summaries, limit, logs, fact))
            && forall g, access :: Fact(func, Named(g), access, Aliased, None) in after <==>
                 Fact(func, Named(g), access, Aliased, None) in v.facts || Touches(summaries, limit, logs, g, access)
  {
    hide AllCalledFor, BringsFact, Touches, Flushed;
    forall fact
      ensures fact in Flushed(v, fallbacks, copied, accessed).facts <==>
                fact in v.facts || BringsFact(func, summaries, limit, logs, fact)
    {
      FactsAreCalledFor(v, func, summaries, limit, logs, fallbacks, copied, accessed, fact);
    }
    forall g, access
      ensures BringsFact(func, summaries, limit, logs, Fact(func, Named(g), access, Aliased, None)) <==>
                Touches(summaries, limit, logs, g, access)
    {
      NamedIsTouched(func, summaries, limit, logs, g, access);
    }
  }

  lemma UsedSlotsCover(slots: seq<Option<SlotRow>>, log: seq<Hit>, touched: seq<nat>)
    requires forall i: nat :: i in touched <==> i < |slots| && slots[i].Some?
    requires forall i: nat {:trigger SlotOk(slots, log, i)} | i < |slots| :: SlotOk(slots, log, i)
    requires forall h | h in log :: h.0 in touched
    ensures Covers(log, touched)
  {
    forall slot: nat
      ensures slot in touched <==> At(log, slot) != []
    {
      if slot < |slots| {
        assert SlotOk(slots, log, slot);
      } else if At(log, slot) != [] {
        UsedSlotHasHit(log, slot);
      }
    }
  }

  /**
   The end of a function: accesses, copies, then rows. The builder holds the same facts with the same
   witnesses, and the same counters, as if every row had been pushed by itself, addresses beyond the limit
   standing for their rows; below the limit that is every copy and every row of every access. A fact that was
   not there before is one that the logs call for, and a row of the function that names a global is there
   exactly for the globals that what was logged may touch.
   */
  method FlushFunction(
      modrefs: ModRefBuilder, func: nat, rows: SlotTable, accesses: SlotTable, copies: SlotTable,
      summaries: seq<Option<Summary>>, limit: nat)
    requires modrefs.Valid() && rows.Valid() && accesses.Valid() && copies.Valid()
    requires rows != accesses && rows != copies && accesses != copies && Fits(summaries, |rows.slots|)
    modifies modrefs, rows, accesses, copies
    ensures modrefs.Valid() && rows.Valid() && accesses.Valid() && copies.Valid()
    ensures rows.touched == accesses.touched == copies.touched == [] && rows.log == accesses.log == copies.log == []
    ensures Balanced(old(modrefs.State())) ==> Balanced(modrefs.State())
    ensures var fallbacks := AllFallbacks(func, summaries, limit, old(accesses.log), old(accesses.touched));
            var copied := AllCopies(func, summaries, limit, old(copies.log), old(copies.touched));
            var accessed := Expanded(RowFacts(func), old(rows.log))
                            + AllRows(func, summaries, limit, old(accesses.log), old(accesses.touched));
            modrefs.State() == Flushed(old(modrefs.State()), fallbacks, copied, accessed)
    ensures var copied := Expanded(CopyFacts(func, summaries), old(copies.log));
            var accessed := Expanded(RowFacts(func), old(rows.log)) + Expanded(AccessFacts(func, summaries), old(accesses.log));
            BelowLimit(summaries, old(accesses.log), limit) && BelowLimit(summaries, old(copies.log), limit) ==>
              modrefs.State() == Flushed(old(modrefs.State()), [], copied, accessed)
    ensures var logs := Logs(old(rows.log), old(accesses.log), old(copies.log));
            forall fact :: fact in modrefs.State().facts <==>
              fact in old(modrefs.State()).facts || BringsFact(func, summaries, limit, logs, fact)
    ensures var logs := Logs(old(rows.log), old(accesses.log), old(copies.log));
            forall g, access :: Fact(func, Named(g), access, Aliased, None) in modrefs.State().facts <==>
              || Fact(func, Named(g), access, Aliased, None) in old(modrefs.State()).facts
              || Touches(summaries, limit, logs, g, access)
  {
    hide AllFallbacks, AllRows, AllCopies, PushedAll, Expanded, BelowLimit, Balanced, BringsFact, Touches, AllCalledFor, Covers;
    ghost var v, rowLog, accessLog, used := modrefs.State(), rows.log, accesses.log, accesses.touched;
    ghost var fallbacks := AllFallbacks(func, summaries, limit, accessLog, used);
    ghost var copied := AllCopies(func, summaries, limit, copies.log, copies.touched);
    ghost var taken := AllRows(func, summaries, limit, accessLog, used);
    ghost var below := BelowLimit(summaries, copies.log, limit);
    ghost var logs := Logs(rows.log, accesses.log, copies.log);
    UsedSlotsCover(accesses.slots, accesses.log, accesses.touched);
    UsedSlotsCover(copies.slots, copies.log, copies.touched);
    StagesEmit(func, summaries, limit, logs, accesses.touched, copies.touched);
    ghost var plain := Expanded(CopyFacts(func, summaries), copies.log);
    FlushLocalAccesses(modrefs, func, rows, accesses, summaries, limit);
    FlushCopies(modrefs, Some(func), copies, summaries, limit);
    ghost var u, together := modrefs.State(), Expanded(RowFacts(func), rows.log);
    FlushLocalRows(modrefs, Some(func), rows);
    OrderIsIrrelevant(u, together, Expanded(RowFacts(func), rowLog) + taken, Some(PagPointer));
    FlushedKeepsBalance(v, fallbacks, copied, Expanded(RowFacts(func), rowLog) + taken);
    ContentsAreCalledFor(v, func, summaries, limit, logs, fallbacks, copied, Expanded(RowFacts(func), rowLog) + taken);
    if below && BelowLimit(summaries, accessLog, limit) {
      OrderIsIrrelevant(u, Expanded(RowFacts(func), rowLog) + taken,
                        Expanded(RowFacts(func), rowLog) + Expanded(AccessFacts(func, summaries), accessLog), Some(PagPointer));
    }
  }

}
