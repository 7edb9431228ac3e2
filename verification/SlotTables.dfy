/** Direct-indexed tables that coalesce occurrences until they are flushed, and the regrouping this amounts to. */
module SlotTables {
  import opened Basics
  import opened Sorting
  import opened Emission

  /** An occurrence: the slot it goes to, and its witness. */
  type Hit = (nat, Option<nat>)

  // ---------------------------------------------------------------------------------------------
  // Logs of occurrences

  function Pick(log: seq<Hit>, slots: set<nat>): seq<Hit> {
    if log == [] then []
    else
      var last := log[|log| - 1];
      Pick(log[..|log| - 1], slots) + if last.0 in slots then [last] else []
  }

  lemma {:induction false} PickMembers(log: seq<Hit>, slots: set<nat>)
    ensures forall h :: h in Pick(log, slots) <==> h in log && h.0 in slots
  {
    if log != [] {
      assert log == log[..|log| - 1] + [log[|log| - 1]];
      PickMembers(log[..|log| - 1], slots);
    }
  }

  lemma PickNext(log: seq<Hit>, h: Hit, slots: set<nat>)
    ensures Pick(log + [h], slots) == Pick(log, slots) + if h.0 in slots then [h] else []
  {
    assert (log + [h])[..|log|] == log;
  }

  function Witnesses(log: seq<Hit>): (r: seq<Option<nat>>)
    ensures |r| == |log| && forall i | 0 <= i < |log| :: r[i] == log[i].1
  {
    seq(|log|, i requires 0 <= i < |log| => log[i].1)
  }

  /** The witnesses that went to one slot. */
  function At(log: seq<Hit>, slot: nat): seq<Option<nat>> {
    Witnesses(Pick(log, {slot}))
  }

  /** As many hits on one slot as there are witnesses. */
  function Hits(slot: nat, witnesses: seq<Option<nat>>): (r: seq<Hit>)
    ensures |r| == |witnesses| && forall i | 0 <= i < |r| :: r[i] == (slot, witnesses[i])
  {
    seq(|witnesses|, i requires 0 <= i < |witnesses| => (slot, witnesses[i]))
  }

  lemma {:induction false} PickConcat(a: seq<Hit>, b: seq<Hit>, slots: set<nat>)
    ensures Pick(a + b, slots) == Pick(a, slots) + Pick(b, slots)
  {
    if b == [] {
      assert a + b == a && Pick(a, slots) + [] == Pick(a, slots);
    } else {
      var rest, h := b[..|b| - 1], b[|b| - 1];
      var kept := if h.0 in slots then [h] else [];
      PickConcat(a, rest, slots);
      assert b == rest + [h];
      Regroup(a, rest, [h]);
      PickNext(a + rest, h, slots);
      PickNext(rest, h, slots);
      Regroup(Pick(a, slots), Pick(rest, slots), kept);
    }
  }

  lemma {:induction false} PickHits(slot: nat, witnesses: seq<Option<nat>>, slots: set<nat>)
    ensures Pick(Hits(slot, witnesses), slots) == if slot in slots then Hits(slot, witnesses) else []
  {
    if witnesses != [] {
      var n := |witnesses| - 1;
      PickHits(slot, witnesses[..n], slots);
      var hits := Hits(slot, witnesses);
      assert hits[..n] == Hits(slot, witnesses[..n]) && hits == hits[..n] + [hits[n]];
    }
  }

  lemma WitnessesConcat(a: seq<Hit>, b: seq<Hit>)
    ensures Witnesses(a + b) == Witnesses(a) + Witnesses(b)
  {
  }

  lemma WitnessesOfHits(slot: nat, witnesses: seq<Option<nat>>)
    ensures Witnesses(Hits(slot, witnesses)) == witnesses
  {
  }

  lemma AtConcatHits(log: seq<Hit>, slot: nat, witnesses: seq<Option<nat>>, i: nat)
    ensures At(log + Hits(slot, witnesses), i) == if i == slot then At(log, i) + witnesses else At(log, i)
  {
    PickConcat(log, Hits(slot, witnesses), {i});
    PickHits(slot, witnesses, {i});
    if i == slot {
      WitnessesConcat(Pick(log, {i}), Hits(slot, witnesses));
      WitnessesOfHits(slot, witnesses);
    } else {
      assert Pick(log, {i}) + [] == Pick(log, {i});
    }
  }

  /** Hits on one slot are determined by their witnesses. */
  lemma PickIsHits(log: seq<Hit>, slot: nat)
    ensures Pick(log, {slot}) == Hits(slot, At(log, slot))
  {
    var picked := Pick(log, {slot});
    PickMembers(log, {slot});
    forall i | 0 <= i < |picked|
      ensures picked[i] == Hits(slot, At(log, slot))[i]
    {
      assert picked[i] in picked;
    }
  }

  /** The log with the hits of each slot brought together, slots in the given order. */
  function Regrouped(log: seq<Hit>, slots: seq<nat>): seq<Hit> {
    if slots == [] then [] else Regrouped(log, slots[..|slots| - 1]) + Pick(log, {slots[|slots| - 1]})
  }

  lemma {:induction false} PickSplits(log: seq<Hit>, a: set<nat>, b: set<nat>)
    requires a !! b
    ensures multiset(Pick(log, a + b)) == multiset(Pick(log, a)) + multiset(Pick(log, b))
  {
    if log != [] {
      PickSplits(log[..|log| - 1], a, b);
    }
  }

  lemma {:induction false} PickAll(log: seq<Hit>, slots: set<nat>)
    requires forall h | h in log :: h.0 in slots
    ensures Pick(log, slots) == log
  {
    if log != [] {
      assert log == log[..|log| - 1] + [log[|log| - 1]];
      PickAll(log[..|log| - 1], slots);
    }
  }

  lemma {:induction false} RegroupedIsPick(log: seq<Hit>, slots: seq<nat>)
    requires NoDuplicates(slots)
    ensures multiset(Regrouped(log, slots)) == multiset(Pick(log, Elements(slots)))
  {
    if slots == [] {
      PickNothing(log);
      assert Elements(slots) == {};
    } else {
      var rest, last := slots[..|slots| - 1], slots[|slots| - 1];
      RegroupedIsPick(log, rest);
      assert Elements(slots) == Elements(rest) + {last};
      assert last !in Elements(rest);
      PickSplits(log, Elements(rest), {last});
    }
  }

  lemma {:induction false} PickNothing(log: seq<Hit>)
    ensures Pick(log, {}) == []
  {
    if log != [] {
      PickNothing(log[..|log| - 1]);
    }
  }

  /** Regrouping loses nothing, adds nothing. */
  lemma RegroupedIsLog(log: seq<Hit>, slots: seq<nat>)
    requires NoDuplicates(slots) && forall h | h in log :: h.0 in slots
    ensures multiset(Regrouped(log, slots)) == multiset(log)
  {
    RegroupedIsPick(log, slots);
    PickAll(log, Elements(slots));
  }

  // ---------------------------------------------------------------------------------------------
  // From hits to events

  /** What one hit on a slot stands for: one event per row the slot expands to. */
  type Expansion = nat -> seq<Event>

  function Witnessed(rows: seq<Event>, wit: Option<nat>): (r: seq<Event>)
    ensures |r| == |rows|
  {
    seq(|rows|, i requires 0 <= i < |rows| => rows[i].(wit := wit))
  }

  /** Every hit expanded by itself. */
  function Expanded(expand: Expansion, log: seq<Hit>): seq<Event> {
    if log == [] then [] else Expanded(expand, log[..|log| - 1]) + Witnessed(expand(log[|log| - 1].0), log[|log| - 1].1)
  }

  lemma {:induction false} ExpandedConcat(expand: Expansion, a: seq<Hit>, b: seq<Hit>)
    ensures Expanded(expand, a + b) == Expanded(expand, a) + Expanded(expand, b)
  {
    if b == [] {
      assert a + b == a;
    } else {
      var last := |b| - 1;
      ExpandedConcat(expand, a, b[..last]);
      assert (a + b)[..|a + b| - 1] == a + b[..last];
      Regroup(Expanded(expand, a), Expanded(expand, b[..last]), Witnessed(expand(b[last].0), b[last].1));
    }
  }

  lemma Regroup<T>(a: seq<T>, b: seq<T>, c: seq<T>)
    ensures (a + b) + c == a + (b + c)
  {
  }

  /** The events do not depend on the order of the hits. */
  lemma {:induction false} ExpandedReorders(expand: Expansion, a: seq<Hit>, b: seq<Hit>)
    requires multiset(a) == multiset(b)
    ensures multiset(Expanded(expand, a)) == multiset(Expanded(expand, b))
    decreases |a|
  {
    if a == [] {
      assert |multiset(b)| == 0;
    } else {
      var rest, e := a[..|a| - 1], a[|a| - 1];
      assert a == rest + [e] && e in multiset(b);
      var j :| 0 <= j < |b| && b[j] == e;
      assert b == b[..j] + [e] + b[j + 1..];
      StrikeHit(rest, b[..j], b[j + 1..], e);
      ExpandedReorders(expand, rest, b[..j] + b[j + 1..]);
      ExpandedConcat(expand, b[..j], b[j + 1..]);
      ExpandedConcat(expand, b[..j] + [e], b[j + 1..]);
      assert (b[..j] + [e])[..j] == b[..j];
    }
  }

  lemma StrikeHit(rest: seq<Hit>, before: seq<Hit>, behind: seq<Hit>, e: Hit)
    requires multiset(rest + [e]) == multiset(before + [e] + behind)
    ensures multiset(rest) == multiset(before + behind)
  {
    var x, y := multiset(rest), multiset(before + behind);
    assert x + multiset{e} == y + multiset{e};
    forall k
      ensures x[k] == y[k]
    {
      assert (x + multiset{e})[k] == (y + multiset{e})[k];
    }
  }

  /** The occurrences of every row of a slot in turn. */
  function RowByRow(rows: seq<Event>, witnesses: seq<Option<nat>>): seq<Event> {
    if rows == [] then []
    else
      var last := rows[|rows| - 1];
      RowByRow(rows[..|rows| - 1], witnesses) + Occurrences(last.fact, witnesses, last.candidates)
  }

  function HitByHit(rows: seq<Event>, witnesses: seq<Option<nat>>): seq<Event> {
    if witnesses == [] then []
    else HitByHit(rows, witnesses[..|witnesses| - 1]) + Witnessed(rows, witnesses[|witnesses| - 1])
  }

  lemma {:induction false} HitByHitNext(rows: seq<Event>, row: Event, witnesses: seq<Option<nat>>)
    ensures multiset(HitByHit(rows + [row], witnesses))
         == multiset(HitByHit(rows, witnesses)) + multiset(Occurrences(row.fact, witnesses, row.candidates))
  {
    if witnesses != [] {
      var n := |witnesses| - 1;
      HitByHitNext(rows, row, witnesses[..n]);
      var last := Event(row.fact, witnesses[n], row.candidates);
      assert Occurrences(row.fact, witnesses, row.candidates) == Occurrences(row.fact, witnesses[..n], row.candidates) + [last];
      assert Witnessed(rows + [row], witnesses[n]) == Witnessed(rows, witnesses[n]) + [last];
    }
  }

  lemma {:induction false} HitByHitNothing(witnesses: seq<Option<nat>>)
    ensures HitByHit([], witnesses) == []
  {
    if witnesses != [] {
      HitByHitNothing(witnesses[..|witnesses| - 1]);
    }
  }

  /** Row by row or hit by hit, the occurrences of a slot are the same. */
  lemma {:induction false} RowsAndHits(rows: seq<Event>, witnesses: seq<Option<nat>>)
    ensures multiset(RowByRow(rows, witnesses)) == multiset(HitByHit(rows, witnesses))
  {
    if rows == [] {
      HitByHitNothing(witnesses);
    } else {
      RowsAndHits(rows[..|rows| - 1], witnesses);
      HitByHitNext(rows[..|rows| - 1], rows[|rows| - 1], witnesses);
      assert rows == rows[..|rows| - 1] + [rows[|rows| - 1]];
    }
  }

  lemma {:induction false} ExpandedHits(expand: Expansion, slot: nat, witnesses: seq<Option<nat>>)
    ensures Expanded(expand, Hits(slot, witnesses)) == HitByHit(expand(slot), witnesses)
  {
    if witnesses != [] {
      var n := |witnesses| - 1;
      ExpandedHits(expand, slot, witnesses[..n]);
      assert Hits(slot, witnesses)[..n] == Hits(slot, witnesses[..n]);
    }
  }

  // ---------------------------------------------------------------------------------------------
  // The table

  datatype SlotRow = SlotRow(wit: Option<nat>, count: nat)

  /** A used slot counts its occurrences and holds the least of their witnesses. */
  ghost predicate SlotOk(slots: seq<Option<SlotRow>>, log: seq<Hit>, i: nat)
    requires i < |slots|
  {
    if slots[i].None? then At(log, i) == []
    else slots[i].value.count == |At(log, i)| > 0 && slots[i].value.wit == Least(At(log, i))
  }

  /** The row of a slot after more occurrences. */
  function Grown(slot: Option<SlotRow>, wit: Option<nat>, count: nat): SlotRow {
    if slot.Some? then SlotRow(Preferred(slot.value.wit, wit), slot.value.count + count) else SlotRow(wit, count)
  }

  lemma PushKeepsSlots(slots: seq<Option<SlotRow>>, log: seq<Hit>, slot: nat, witnesses: seq<Option<nat>>, i: nat)
    requires slot < |slots| && i < |slots| && SlotOk(slots, log, i) && witnesses != []
    ensures SlotOk(slots[slot := Some(Grown(slots[slot], Least(witnesses), |witnesses|))], log + Hits(slot, witnesses), i)
  {
    AtConcatHits(log, slot, witnesses, i);
    LeastConcat(At(log, slot), witnesses);
    if i == slot && slots[slot].None? {
      NothingBefore(witnesses);
    }
  }

  lemma NothingBefore(witnesses: seq<Option<nat>>)
    ensures [] + witnesses == witnesses
  {
  }

  class SlotTable {
    var slots: seq<Option<SlotRow>>
    var touched: seq<nat>
    ghost var log: seq<Hit>

    ghost predicate Valid()
      reads this
    {
      && NoDuplicates(touched)
      && (forall i: nat :: i in touched <==> i < |slots| && slots[i].Some?)
      && (forall i: nat {:trigger SlotOk(slots, log, i)} | i < |slots| :: SlotOk(slots, log, i))
      && (forall h | h in log :: h.0 in touched)
    }

    constructor (size: nat)
      ensures Valid() && |slots| == size && touched == [] && log == []
    {
      slots, touched, log := seq(size, _ => None), [], [];
    }

    /** Takes in `count` occurrences with the given least witness; a slot out of range is passed over. */
    method Push(slot: nat, wit: Option<nat>, count: nat, ghost witnesses: seq<Option<nat>>)
      requires Valid() && count == |witnesses| && wit == Least(witnesses)
      modifies this
      ensures Valid() && |slots| == |old(slots)|
      ensures log == if slot < |slots| then old(log) + Hits(slot, witnesses) else old(log)
    {
      assert count == 0 ==> log + Hits(slot, witnesses) == log;
      if count == 0 || slot >= |slots| {
        return;
      }
      ghost var slots0, log0 := slots, log;
      if slots[slot].None? {
        touched := touched + [slot];
        assert touched[|touched| - 1] == slot;
      }
      slots := slots[slot := Some(Grown(slots[slot], wit, count))];
      log := log + Hits(slot, witnesses);
      forall i: nat {:trigger SlotOk(slots, log, i)} | i < |slots|
        ensures SlotOk(slots, log, i)
      {
        assert SlotOk(slots0, log0, i);
        PushKeepsSlots(slots0, log0, slot, witnesses, i);
      }
      assert slot in touched && (forall t | t in old(touched) :: t in touched) && (forall h | h in Hits(slot, witnesses) :: h.0 == slot);
    }

    /** Empties the table, yielding every used slot once, in the order of first use. */
    method Drain() returns (drained: seq<(nat, SlotRow)>)
      requires Valid()
      modifies this
      ensures Valid() && touched == [] && log == [] && |slots| == |old(slots)| && forall i | 0 <= i < |slots| :: slots[i].None?
      ensures |drained| == |old(touched)|
      ensures forall k | 0 <= k < |drained| ::
                && drained[k].0 == old(touched)[k] && drained[k].1.count == |At(old(log), drained[k].0)| > 0
                && drained[k].1.wit == Least(At(old(log), drained[k].0))
    {
      drained := [];
      for k := 0 to |touched|
        invariant |slots| == |old(slots)| && touched == old(touched) && log == old(log)
        invariant forall i: nat | i < |slots| :: slots[i] == if i in touched[..k] then None else old(slots)[i]
        invariant |drained| == k
        invariant forall j | 0 <= j < k ::
                    && drained[j].0 == touched[j] && drained[j].1.count == |At(log, touched[j])| > 0
                    && drained[j].1.wit == Least(At(log, touched[j]))
      {
        var slot := touched[k];
        assert slot in touched && touched[..k + 1] == touched[..k] + [slot];
        assert SlotOk(old(slots), log, slot);
        assert slots[slot] == old(slots)[slot];
        drained := drained + [(slot, slots[slot].value)];
        slots := slots[slot := None];
      }
      assert touched[..|touched|] == touched;
      touched, log := [], [];
    }
  }
}
