/** Several functions, both phases, any order: what of the emitted rows does not depend on it. */
module Interleaving {
  import opened Basics
  import opened Sorting
  import opened Emission
  import opened Flushing

  /** An occurrence with the phase that emits it. */
  type Emitted = (Event, Phase)

  /** Every occurrence pushed by itself, the phases mixed in any way. */
  function PushedMixed(v: View, log: seq<Emitted>): View {
    if log == [] then v
    else Pushed(PushedMixed(v, log[..|log| - 1]), log[|log| - 1].0, Some(log[|log| - 1].1))
  }

  /**
   A view without the share each phase has in the new facts: that depends on which phase meets a fact
   first. The total of new facts and of repetitions is kept.
   */
  datatype Outline = Outline(
    facts: map<Fact, Value>, all: Tallies, pag: Tallies, mem: Tallies, pagAttempted: nat, memAttempted: nat,
    unique: nat, duplicate: nat)

  function OutlineOf(v: View): Outline {
    var c := v.counters;
    Outline(v.facts, c.all, c.pag.tallies, c.mem.tallies, c.pag.attempted, c.mem.attempted,
            c.pag.unique + c.mem.unique, c.pag.duplicate + c.mem.duplicate)
  }

  /** A push, on outlines. */
  function Outlined(o: Outline, e: Emitted): Outline {
    var key, isNew := KeyOf(e.0.fact), if e.0.fact in o.facts then 0 else 1;
    var after := o.(facts := Entered(o.facts, e.0), all := Bumped(o.all, key, 1), unique := o.unique + isNew,
                    duplicate := o.duplicate + 1 - isNew);
    match e.1
    case PagPointer => after.(pag := Bumped(o.pag, key, 1), pagAttempted := o.pagAttempted + 1)
    case MemsetMemcpy => after.(mem := Bumped(o.mem, key, 1), memAttempted := o.memAttempted + 1)
  }

  lemma PushIsOutlined(v: View, e: Emitted)
    ensures OutlineOf(Pushed(v, e.0, Some(e.1))) == Outlined(OutlineOf(v), e)
  {
  }

  lemma OutlinesCommute(o: Outline, d: Emitted, e: Emitted)
    ensures Outlined(Outlined(o, d), e) == Outlined(Outlined(o, e), d)
  {
    hide Bumped, KeyOf;
    EntriesCommute(o.facts, d.0, e.0);
    var k, l := KeyOf(d.0.fact), KeyOf(e.0.fact);
    BumpsCommute(o.all, k, l);
    BumpsCommute(o.pag, k, l);
    BumpsCommute(o.mem, k, l);
  }

  lemma {:induction false} OutlineLast(v: View, e: Emitted, log: seq<Emitted>)
    ensures OutlineOf(PushedMixed(Pushed(v, e.0, Some(e.1)), log)) == Outlined(OutlineOf(PushedMixed(v, log)), e)
  {
    if log == [] {
      PushIsOutlined(v, e);
    } else {
      var rest, last := log[..|log| - 1], log[|log| - 1];
      OutlineLast(v, e, rest);
      PushIsOutlined(PushedMixed(Pushed(v, e.0, Some(e.1)), rest), last);
      PushIsOutlined(PushedMixed(v, rest), last);
      OutlinesCommute(OutlineOf(PushedMixed(v, rest)), e, last);
    }
  }

  lemma {:induction false} MixedConcat(v: View, a: seq<Emitted>, b: seq<Emitted>)
    ensures PushedMixed(v, a + b) == PushedMixed(PushedMixed(v, a), b)
  {
    if b == [] {
      assert a + b == a;
    } else {
      MixedConcat(v, a, b[..|b| - 1]);
      assert (a + b)[..|a + b| - 1] == a + b[..|b| - 1];
    }
  }

  lemma Strike(rest: seq<Emitted>, before: seq<Emitted>, behind: seq<Emitted>, e: Emitted)
    requires multiset(rest + [e]) == multiset(before + [e] + behind)
    ensures multiset(rest) == multiset(before + behind)
  {
    var x, y := multiset(rest), multiset(before + behind);
    assert x + multiset{e} == y + multiset{e};
    forall k
      ensures x[k] == y[k]
    {
      assert (x + multiset{e})[k] == (y + multiset{e})[k];
    }
  }

  /**
   Facts, least witnesses, candidates, the attempts and the largest fanout of each phase, and the totals of
   new facts and repetitions depend on the occurrences alone, not on how the phases are mixed.
   */
  lemma {:induction false} MixedOrderIsIrrelevant(v: View, a: seq<Emitted>, b: seq<Emitted>)
    requires multiset(a) == multiset(b)
    ensures OutlineOf(PushedMixed(v, a)) == OutlineOf(PushedMixed(v, b))
    decreases |a|
  {
    if a == [] {
      assert |multiset(b)| == 0;
    } else {
      var rest, e := a[..|a| - 1], a[|a| - 1];
      assert a == rest + [e] && e in multiset(b);
      var j :| 0 <= j < |b| && b[j] == e;
      var before, behind := b[..j], b[j + 1..];
      assert b == before + [e] + behind;
      Strike(rest, before, behind, e);
      MixedOrderIsIrrelevant(v, rest, before + behind);
      MixedConcat(v, before, behind);
      MixedConcat(v, before + [e], behind);
      assert (before + [e])[..|before|] == before;
      OutlineLast(PushedMixed(v, before), e, behind);
      PushIsOutlined(PushedMixed(v, rest), e);
    }
  }

  // ---------------------------------------------------------------------------------------------
  // Whole modules

  function Tagged(events: seq<Event>, phase: Phase): (r: seq<Emitted>)
    ensures |r| == |events| && forall i | 0 <= i < |r| :: r[i] == (events[i], phase)
  {
    seq(|events|, i requires 0 <= i < |events| => (events[i], phase))
  }

  lemma {:induction false} PushedIsMixed(v: View, events: seq<Event>, phase: Phase)
    ensures PushedAll(v, events, Some(phase)) == PushedMixed(v, Tagged(events, phase))
  {
    if events != [] {
      PushedIsMixed(v, events[..|events| - 1], phase);
      assert Tagged(events, phase)[..|events| - 1] == Tagged(events[..|events| - 1], phase);
    }
  }

  /** What one function is flushed as. */
  datatype Flush = Flush(fallbacks: seq<Event>, copied: seq<Event>, accessed: seq<Event>)

  function Emissions(f: Flush): seq<Emitted> {
    Tagged(f.fallbacks, PagPointer) + Tagged(f.copied, MemsetMemcpy) + Tagged(f.accessed, PagPointer)
  }

  lemma FlushedIsMixed(v: View, f: Flush)
    ensures Flushed(v, f.fallbacks, f.copied, f.accessed) == PushedMixed(v, Emissions(f))
  {
    var fallbacks, copied, accessed := Tagged(f.fallbacks, PagPointer), Tagged(f.copied, MemsetMemcpy), Tagged(f.accessed, PagPointer);
    PushedIsMixed(v, f.fallbacks, PagPointer);
    PushedIsMixed(PushedMixed(v, fallbacks), f.copied, MemsetMemcpy);
    MixedConcat(v, fallbacks, copied);
    PushedIsMixed(PushedMixed(v, fallbacks + copied), f.accessed, PagPointer);
    MixedConcat(v, fallbacks + copied, accessed);
  }

  /** One function after the other. */
  ghost function FlushedInTurn(v: View, flushes: seq<Flush>): View {
    if flushes == [] then v
    else
      var last := flushes[|flushes| - 1];
      Flushed(FlushedInTurn(v, flushes[..|flushes| - 1]), last.fallbacks, last.copied, last.accessed)
  }

  function AllEmissions(flushes: seq<Flush>): seq<Emitted> {
    if flushes == [] then [] else AllEmissions(flushes[..|flushes| - 1]) + Emissions(flushes[|flushes| - 1])
  }

  lemma {:induction false} FlushesAreMixed(v: View, flushes: seq<Flush>)
    ensures FlushedInTurn(v, flushes) == PushedMixed(v, AllEmissions(flushes))
  {
    if flushes != [] {
      var rest, last := flushes[..|flushes| - 1], flushes[|flushes| - 1];
      FlushesAreMixed(v, rest);
      FlushedIsMixed(PushedMixed(v, AllEmissions(rest)), last);
      MixedConcat(v, AllEmissions(rest), Emissions(last));
    }
  }

  /** Flushing the functions of a module in turn is pushing all their occurrences in any order at all. */
  lemma FlushesInterleave(v: View, flushes: seq<Flush>, log: seq<Emitted>)
    requires multiset(log) == multiset(AllEmissions(flushes))
    ensures OutlineOf(FlushedInTurn(v, flushes)) == OutlineOf(PushedMixed(v, log))
  {
    FlushesAreMixed(v, flushes);
    MixedOrderIsIrrelevant(v, AllEmissions(flushes), log);
  }
}
