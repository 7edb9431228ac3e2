/** Emitting mod/ref rows: facts with their least witness, and the counters of the work behind them. */
module Emission {
  import opened Basics
  import opened Sorting

  datatype Phase = PagPointer | MemsetMemcpy

  datatype Target = Named(global: nat) | Unknown(reason: nat)

  /**
   The detail of a row with its address node and pointees: a text, or the numbers that the row standing for
   a whole address spells out.
   */
  datatype Info = Detail(text: nat) | Fallback(node: nat, source: Phase, fanout: nat, occurrences: nat)

  /** What identifies a row. */
  datatype Fact = Fact(func: nat, target: Target, access: Access, via: Via, info: Option<Info>)

  predicate Compact(f: Fact) {
    f.target.Named? && f.info.None?
  }

  /** Rows are counted per function, target, access and origin, compact facts apart from the others. */
  datatype FanoutKey = FanoutKey(func: nat, target: Target, access: Access, via: Via, compact: bool)

  function KeyOf(f: Fact): FanoutKey {
    FanoutKey(f.func, f.target, f.access, f.via, Compact(f))
  }

  function Merge(a: Candidates<set<nat>>, b: Candidates<set<nat>>): (merged: Candidates<set<nat>>)
    ensures a == b || b == Finite({}) ==> merged == a
  {
    if a.Finite? && b.Finite? then
      assert b.globals <= a.globals ==> a.globals + b.globals == a.globals;
      Finite(a.globals + b.globals)
    else ModuleWide
  }

  /** How often something was attempted under each key, and the most under any. */
  datatype Tallies = Tallies(counts: map<FanoutKey, nat>, most: nat)

  datatype PhaseMetrics = PhaseMetrics(tallies: Tallies, attempted: nat, unique: nat, duplicate: nat)

  datatype Counters = Counters(all: Tallies, pag: PhaseMetrics, mem: PhaseMetrics)

  function Max(a: nat, b: nat): nat {
    if a < b then b else a
  }

  function Tally(t: Tallies, key: FanoutKey): nat {
    if key in t.counts then t.counts[key] else 0
  }

  function Bumped(t: Tallies, key: FanoutKey, delta: nat): Tallies {
    if delta == 0 then t
    else Tallies(t.counts[key := Tally(t, key) + delta], Max(t.most, Tally(t, key) + delta))
  }

  function Charged(m: PhaseMetrics, key: FanoutKey, delta: nat, unique: nat, duplicate: nat): PhaseMetrics {
    PhaseMetrics(Bumped(m.tallies, key, delta), m.attempted + delta, m.unique + unique, m.duplicate + duplicate)
  }

  /** `delta` attempts under one key, with their results; without a phase only the overall tally moves. */
  function Counted(c: Counters, key: FanoutKey, phase: Option<Phase>, delta: nat, unique: nat, duplicate: nat): Counters {
    match phase
    case None => c.(all := Bumped(c.all, key, delta))
    case Some(PagPointer) => c.(all := Bumped(c.all, key, delta), pag := Charged(c.pag, key, delta, unique, duplicate))
    case Some(MemsetMemcpy) => c.(all := Bumped(c.all, key, delta), mem := Charged(c.mem, key, delta, unique, duplicate))
  }

  datatype Value = Value(wit: Option<nat>, candidates: Candidates<set<nat>>)

  /** What can be observed of a builder: the facts with their values, and the counters. */
  datatype View = View(facts: map<Fact, Value>, counters: Counters)

  datatype Event = Event(fact: Fact, wit: Option<nat>, candidates: Candidates<set<nat>>)

  /** The facts after a push: the least witness wins, candidates are merged. */
  function Entered(facts: map<Fact, Value>, e: Event): map<Fact, Value> {
    if e.fact in facts then
      facts[e.fact := Value(Preferred(facts[e.fact].wit, e.wit), Merge(facts[e.fact].candidates, e.candidates))]
    else facts[e.fact := Value(e.wit, e.candidates)]
  }

  /** One occurrence, pushed by itself. */
  function Pushed(v: View, e: Event, phase: Option<Phase>): View {
    var isNew := e.fact !in v.facts;
    View(Entered(v.facts, e), Counted(v.counters, KeyOf(e.fact), phase, 1, if isNew then 1 else 0, if isNew then 0 else 1))
  }

  /** Occurrences that were suppressed before they could be pushed. */
  function Noted(v: View, fact: Fact, phase: Phase, count: nat): View {
    v.(counters := Counted(v.counters, KeyOf(fact), Some(phase), count, 0, count))
  }

  /** Every occurrence pushed by itself, in order. */
  function PushedAll(v: View, events: seq<Event>, phase: Option<Phase>): View {
    if events == [] then v
    else Pushed(PushedAll(v, events[..|events| - 1], phase), events[|events| - 1], phase)
  }

  // ---------------------------------------------------------------------------------------------
  // Attempts are accounted for

  ghost predicate Balanced(v: View) {
    && v.counters.pag.attempted == v.counters.pag.unique + v.counters.pag.duplicate
    && v.counters.mem.attempted == v.counters.mem.unique + v.counters.mem.duplicate
  }

  lemma PushKeepsBalance(v: View, e: Event, phase: Option<Phase>)
    requires Balanced(v)
    ensures Balanced(Pushed(v, e, phase))
  {
  }

  lemma NoteKeepsBalance(v: View, fact: Fact, phase: Phase, count: nat)
    requires Balanced(v)
    ensures Balanced(Noted(v, fact, phase, count))
  {
  }

  // ---------------------------------------------------------------------------------------------
  // What the counters say

  /** How many of the occurrences fall under one key. */
  ghost function Share(events: seq<Event>, key: FanoutKey): nat {
    if events == [] then 0
    else Share(events[..|events| - 1], key) + if KeyOf(events[|events| - 1].fact) == key then 1 else 0
  }

  /** Every key has gained its share of the occurrences. */
  ghost predicate Tallied(before: Tallies, after: Tallies, events: seq<Event>) {
    && (forall key :: key in after.counts <==> key in before.counts || Share(events, key) > 0)
    && (forall key {:trigger key in after.counts} | key in after.counts ::
          after.counts[key] == Share(events, key) + if key in before.counts then before.counts[key] else 0)
    && (PeakIsMost(before) ==> PeakIsMost(after))
  }

  /** The peak is the largest count there is. */
  ghost predicate PeakIsMost(t: Tallies) {
    && (forall key {:trigger key in t.counts} | key in t.counts :: t.counts[key] <= t.most)
    && (t.most > 0 ==> exists key :: key in t.counts && t.counts[key] == t.most)
  }

  lemma BumpIsTallied(before: Tallies, t: Tallies, events: seq<Event>, e: Event)
    requires Tallied(before, t, events)
    ensures Tallied(before, Bumped(t, KeyOf(e.fact), 1), events + [e])
  {
    var key, after := KeyOf(e.fact), Bumped(t, KeyOf(e.fact), 1);
    forall k
      ensures Share(events + [e], k) == Share(events, k) + if k == key then 1 else 0
    {
      assert (events + [e])[..|events|] == events;
    }
    hide KeyOf, Share;
    if PeakIsMost(t) && after.most > 0 {
      if after.most == after.counts[key] {
        assert key in after.counts;
      } else {
        var peak :| peak in t.counts && t.counts[peak] == t.most;
        assert peak in after.counts && after.counts[peak] == after.most;
      }
    }
  }

  /** The counters of a phase: occurrences under their keys, attempts, and how many of them were new. */
  ghost predicate Accounts(before: PhaseMetrics, after: PhaseMetrics, events: seq<Event>, novel: int) {
    && Tallied(before.tallies, after.tallies, events) && after.attempted == before.attempted + |events|
    && after.unique == before.unique + novel && after.duplicate == before.duplicate + |events| - novel
  }

  lemma ChargeIsAccounted(before: PhaseMetrics, m: PhaseMetrics, events: seq<Event>, novel: int, e: Event, isNew: nat)
    requires Accounts(before, m, events, novel) && isNew <= 1
    ensures Accounts(before, Charged(m, KeyOf(e.fact), 1, isNew, 1 - isNew), events + [e], novel + isNew)
  {
    BumpIsTallied(before.tallies, m.tallies, events, e);
    hide Tallied, Bumped, KeyOf;
  }

  lemma NothingIsCounted(t: Tallies, m: PhaseMetrics)
    ensures Tallied(t, t, []) && Accounts(m, m, [], 0)
  {
  }

  lemma EnteredSize(facts: map<Fact, Value>, e: Event)
    ensures |Entered(facts, e)| == |facts| + if e.fact in facts then 0 else 1
  {
    assert Entered(facts, e).Keys == facts.Keys + {e.fact};
  }

  /** The counters count the occurrences of their own phase; among them as many are new as there are new facts. */
  ghost predicate CountersOk(v: View, w: View, events: seq<Event>, phase: Option<Phase>) {
    var novel := |w.facts| - |v.facts|;
    && Tallied(v.counters.all, w.counters.all, events)
    && (if phase == Some(PagPointer) then Accounts(v.counters.pag, w.counters.pag, events, novel) else w.counters.pag == v.counters.pag)
    && (if phase == Some(MemsetMemcpy) then Accounts(v.counters.mem, w.counters.mem, events, novel) else w.counters.mem == v.counters.mem)
  }

  lemma PushIsCounted(v: View, u: View, events: seq<Event>, e: Event, phase: Option<Phase>)
    requires CountersOk(v, u, events, phase)
    ensures CountersOk(v, Pushed(u, e, phase), events + [e], phase)
  {
    var isNew := if e.fact in u.facts then 0 else 1;
    var novel := |u.facts| - |v.facts|;
    EnteredSize(u.facts, e);
    BumpIsTallied(v.counters.all, u.counters.all, events, e);
    if phase == Some(PagPointer) {
      ChargeIsAccounted(v.counters.pag, u.counters.pag, events, novel, e, isNew);
    } else if phase == Some(MemsetMemcpy) {
      ChargeIsAccounted(v.counters.mem, u.counters.mem, events, novel, e, isNew);
    }
    hide Tallied, Accounts, Charged, Bumped, KeyOf, Entered;
  }

  /** What pushing some occurrences does to the counters. */
  lemma {:induction false} PushesAreCounted(v: View, events: seq<Event>, phase: Option<Phase>)
    ensures CountersOk(v, PushedAll(v, events, phase), events, phase)
  {
    if events == [] {
      NothingIsCounted(v.counters.all, v.counters.pag);
      NothingIsCounted(v.counters.all, v.counters.mem);
    } else {
      var rest, e := events[..|events| - 1], events[|events| - 1];
      assert events == rest + [e];
      PushesAreCounted(v, rest, phase);
      PushIsCounted(v, PushedAll(v, rest, phase), rest, e, phase);
      hide CountersOk, Pushed;
    }
  }

  // ---------------------------------------------------------------------------------------------
  // Order is irrelevant

  lemma BumpsAdd(t: Tallies, key: FanoutKey, a: nat, b: nat)
    ensures Bumped(Bumped(t, key, a), key, b) == Bumped(t, key, a + b)
  {
    if a != 0 && b != 0 {
      assert t.counts[key := Tally(t, key) + a][key := Tally(t, key) + a + b] == t.counts[key := Tally(t, key) + a + b];
    }
  }

  lemma BumpsCommute(t: Tallies, k: FanoutKey, l: FanoutKey)
    ensures Bumped(Bumped(t, k, 1), l, 1) == Bumped(Bumped(t, l, 1), k, 1)
  {
    if k != l {
      assert t.counts[k := Tally(t, k) + 1][l := Tally(t, l) + 1] == t.counts[l := Tally(t, l) + 1][k := Tally(t, k) + 1];
    }
  }

  lemma CountsAdd(c: Counters, key: FanoutKey, phase: Option<Phase>, a: nat, u: nat, d: nat, b: nat, u': nat, d': nat)
    ensures Counted(Counted(c, key, phase, a, u, d), key, phase, b, u', d') == Counted(c, key, phase, a + b, u + u', d + d')
  {
    BumpsAdd(c.all, key, a, b);
    BumpsAdd(c.pag.tallies, key, a, b);
    BumpsAdd(c.mem.tallies, key, a, b);
  }

  lemma CountsCommute(c: Counters, k: FanoutKey, l: FanoutKey, phase: Option<Phase>, u: nat, d: nat, u': nat, d': nat)
    ensures Counted(Counted(c, k, phase, 1, u, d), l, phase, 1, u', d')
         == Counted(Counted(c, l, phase, 1, u', d'), k, phase, 1, u, d)
  {
    BumpsCommute(c.all, k, l);
    BumpsCommute(c.pag.tallies, k, l);
    BumpsCommute(c.mem.tallies, k, l);
  }

  lemma PreferredLaws(a: Option<nat>, b: Option<nat>, c: Option<nat>)
    ensures Preferred(a, b) == Preferred(b, a) && Preferred(Preferred(a, b), c) == Preferred(a, Preferred(b, c))
  {
  }

  lemma MergeLaws(a: Candidates<set<nat>>, b: Candidates<set<nat>>, c: Candidates<set<nat>>)
    ensures Merge(a, b) == Merge(b, a) && Merge(Merge(a, b), c) == Merge(a, Merge(b, c))
  {
    if a.Finite? && b.Finite? && c.Finite? {
      assert a.globals + b.globals + c.globals == a.globals + (b.globals + c.globals);
    }
    if a.Finite? && b.Finite? {
      assert a.globals + b.globals == b.globals + a.globals;
    }
  }

  lemma EntriesCommute(facts: map<Fact, Value>, d: Event, e: Event)
    ensures Entered(Entered(facts, d), e) == Entered(Entered(facts, e), d)
  {
    if d.fact == e.fact {
      var was := if d.fact in facts then facts[d.fact] else Value(None, Finite({}));
      PreferredLaws(was.wit, d.wit, e.wit);
      PreferredLaws(was.wit, e.wit, d.wit);
      PreferredLaws(d.wit, e.wit, None);
      MergeLaws(was.candidates, d.candidates, e.candidates);
      MergeLaws(was.candidates, e.candidates, d.candidates);
      MergeLaws(d.candidates, e.candidates, ModuleWide);
    }
    var x, y := Entered(Entered(facts, d), e), Entered(Entered(facts, e), d);
    assert x.Keys == facts.Keys + {d.fact, e.fact} == y.Keys;
    forall f | f in x
      ensures x[f] == y[f]
    {
    }
  }

  /** Two pushes of one phase commute. */
  lemma PushesCommute(v: View, d: Event, e: Event, phase: Option<Phase>)
    ensures Pushed(Pushed(v, d, phase), e, phase) == Pushed(Pushed(v, e, phase), d, phase)
  {
    EntriesCommute(v.facts, d, e);
    var newD, newE := if d.fact in v.facts then 0 else 1, if e.fact in v.facts then 0 else 1;
    if d.fact != e.fact {
      CountsCommute(v.counters, KeyOf(d.fact), KeyOf(e.fact), phase, newD, 1 - newD, newE, 1 - newE);
    }
  }

  lemma {:induction false} PushedLast(v: View, e: Event, events: seq<Event>, phase: Option<Phase>)
    ensures PushedAll(Pushed(v, e, phase), events, phase) == Pushed(PushedAll(v, events, phase), e, phase)
  {
    if events != [] {
      var rest, last := events[..|events| - 1], events[|events| - 1];
      PushedLast(v, e, rest, phase);
      PushesCommute(PushedAll(v, rest, phase), e, last, phase);
    }
  }

  lemma {:induction false} PushedConcat(v: View, a: seq<Event>, b: seq<Event>, phase: Option<Phase>)
    ensures PushedAll(v, a + b, phase) == PushedAll(PushedAll(v, a, phase), b, phase)
  {
    if b == [] {
      assert a + b == a;
    } else {
      PushedConcat(v, a, b[..|b| - 1], phase);
      assert (a + b)[..|a + b| - 1] == a + b[..|b| - 1];
    }
  }

  lemma StrikeOff(a: seq<Event>, rest: seq<Event>, b: seq<Event>, before: seq<Event>, behind: seq<Event>, e: Event)
    requires a == rest + [e] && b == before + [e] + behind && multiset(a) == multiset(b)
    ensures multiset(rest) == multiset(before + behind)
  {
    var x, y := multiset(rest), multiset(before + behind);
    assert x + multiset{e} == y + multiset{e};
    forall k
      ensures x[k] == y[k]
    {
      assert (x + multiset{e})[k] == (y + multiset{e})[k];
    }
  }

  /** The view depends on the occurrences of a phase, not on their order. */
  lemma {:induction false} OrderIsIrrelevant(v: View, a: seq<Event>, b: seq<Event>, phase: Option<Phase>)
    requires multiset(a) == multiset(b)
    ensures PushedAll(v, a, phase) == PushedAll(v, b, phase)
    decreases |a|
  {
    if a == [] {
      assert |multiset(b)| == 0;
    } else {
      var rest, e := a[..|a| - 1], a[|a| - 1];
      assert a == rest + [e] && e in multiset(b);
      var j :| 0 <= j < |b| && b[j] == e;
      var before, behind := b[..j], b[j + 1..];
      assert b == before + [e] + behind;
      StrikeOff(a, rest, b, before, behind, e);
      OrderIsIrrelevant(v, rest, before + behind, phase);
      PushedConcat(v, before, behind, phase);
      PushedConcat(v, before + [e], behind, phase);
      assert (before + [e])[..|before|] == before;
      PushedLast(PushedAll(v, before, phase), e, behind, phase);
    }
  }

  // ---------------------------------------------------------------------------------------------
  // Coalescing

  /** Occurrences of one fact with the given witnesses. */
  function Occurrences(fact: Fact, witnesses: seq<Option<nat>>, candidates: Candidates<set<nat>>): (r: seq<Event>)
    ensures |r| == |witnesses|
  {
    seq(|witnesses|, i requires 0 <= i < |witnesses| => Event(fact, witnesses[i], candidates))
  }

  function Least(witnesses: seq<Option<nat>>): Option<nat> {
    if witnesses == [] then None else Preferred(Least(witnesses[..|witnesses| - 1]), witnesses[|witnesses| - 1])
  }

  lemma {:induction false} LeastConcat(a: seq<Option<nat>>, b: seq<Option<nat>>)
    ensures Least(a + b) == Preferred(Least(a), Least(b))
  {
    if b == [] {
      assert a + b == a;
    } else {
      LeastConcat(a, b[..|b| - 1]);
      assert (a + b)[..|a + b| - 1] == a + b[..|b| - 1];
      PreferredLaws(Least(a), Least(b[..|b| - 1]), b[|b| - 1]);
    }
  }

  lemma NoteNothing(v: View, fact: Fact, phase: Phase)
    ensures Noted(v, fact, phase, 0) == v
  {
  }

  /** Pushing once with the least witness and noting the others is pushing every occurrence. */
  lemma {:induction false} CoalescedPush(v: View, fact: Fact, witnesses: seq<Option<nat>>, candidates: Candidates<set<nat>>, phase: Phase)
    requires witnesses != []
    ensures Noted(Pushed(v, Event(fact, Least(witnesses), candidates), Some(phase)), fact, phase, |witnesses| - 1)
         == PushedAll(v, Occurrences(fact, witnesses, candidates), Some(phase))
  {
    hide Counted, KeyOf, Preferred, Entered;
    var n := |witnesses| - 1;
    var events := Occurrences(fact, witnesses, candidates);
    var rest := witnesses[..n];
    assert events[..n] == Occurrences(fact, rest, candidates);
    if n == 0 {
      assert Least(rest) == None && PushedAll(v, events[..n], Some(phase)) == v;
      NoteNothing(Pushed(v, events[0], Some(phase)), fact, phase);
    } else {
      CoalescedPush(v, fact, rest, candidates, phase);
      OneMore(v, fact, Least(rest), witnesses[n], candidates, phase, n - 1);
    }
  }

  /** One more occurrence after a coalesced push. */
  lemma OneMore(
      v: View, fact: Fact, least: Option<nat>, wit: Option<nat>, candidates: Candidates<set<nat>>, phase: Phase, count: nat)
    ensures Pushed(Noted(Pushed(v, Event(fact, least, candidates), Some(phase)), fact, phase, count), Event(fact, wit, candidates), Some(phase))
         == Noted(Pushed(v, Event(fact, Preferred(least, wit), candidates), Some(phase)), fact, phase, count + 1)
  {
    hide Counted, KeyOf, Preferred;
    var isNew := if fact in v.facts then 0 else 1;
    CountsAdd(v.counters, KeyOf(fact), Some(phase), 1, isNew, 1 - isNew, count, 0, count);
    CountsAdd(v.counters, KeyOf(fact), Some(phase), 1 + count, isNew, 1 - isNew + count, 1, 0, 1);
    CountsAdd(v.counters, KeyOf(fact), Some(phase), 1, isNew, 1 - isNew, count + 1, 0, count + 1);
    EnteredAgain(v.facts, fact, least, wit, candidates);
  }

  lemma EnteredAgain(facts: map<Fact, Value>, fact: Fact, least: Option<nat>, wit: Option<nat>, candidates: Candidates<set<nat>>)
    ensures Entered(Entered(facts, Event(fact, least, candidates)), Event(fact, wit, candidates))
         == Entered(facts, Event(fact, Preferred(least, wit), candidates))
  {
    var was := if fact in facts then facts[fact] else Value(None, Finite({}));
    PreferredLaws(was.wit, least, wit);
    MergeLaws(was.candidates, candidates, candidates);
  }
}
