/** Applying the disposition policy: the independent cascade, group resolution, pins, and the report. */
module Policy {
  import opened Sorting
  import opened Guards
  import opened Manifests

  // ---------------------------------------------------------------------------------------------
  // What the policy makes of a record

  function FindGroupPin(pins: seq<GroupPin>, id: nat): (r: Option<Pin>)
    ensures r.Some? ==> exists i :: 0 <= i < |pins| && pins[i] == GroupPin(id, r.value)
    ensures r.None? ==> forall i | 0 <= i < |pins| :: pins[i].id != id
  {
    if pins == [] then None
    else if pins[0].id == id then Some(pins[0].pin)
    else
      assert forall i | 0 < i < |pins| :: pins[i] == pins[1..][i - 1];
      FindGroupPin(pins[1..], id)
  }

  function FindGlobalPin(pins: seq<GlobalPin>, key: nat): (r: Option<Pin>)
    ensures r.Some? ==> exists i :: 0 <= i < |pins| && pins[i] == GlobalPin(Some(key), r.value)
    ensures r.None? ==> forall i | 0 <= i < |pins| :: pins[i].key != Some(key)
  {
    if pins == [] then None
    else if pins[0].key == Some(key) then Some(pins[0].pin)
    else
      assert forall i | 0 < i < |pins| :: pins[i] == pins[1..][i - 1];
      FindGlobalPin(pins[1..], key)
  }

  /** The first group that lists the key. */
  function GroupOf(groups: seq<Group>, key: nat): (r: Option<nat>)
    ensures r.Some? ==> r.value < |groups| && key in groups[r.value].members
    ensures forall i | 0 <= i < |groups| && key in groups[i].members :: r.Some? && r.value <= i
  {
    if groups == [] then None
    else if key in groups[0].members then Some(0)
    else
      var rest := GroupOf(groups[1..], key);
      assert forall i | 0 < i < |groups| :: groups[i] == groups[1..][i - 1];
      if rest.Some? then Some(rest.value + 1) else None
  }

  /** The record after the independent cascade alone. */
  function Independent(g: GlobalRecord, order: seq<Strategy>): GlobalRecord
    requires Strategy.Unhandled !in order
  {
    var (chosen, trace) := Cascade(order, g.facts);
    g.(disposition := Some(Disposition(chosen, chosen, trace, FromCascade, None, None)))
  }

  function Constrain(d: Disposition, choice: Strategy): Disposition {
    d.(chosen := choice, pin := None, provenance := if choice == d.cascadeChosen then FromCascade else GroupConstraint)
  }

  function Honor(d: Disposition, pin: Pin, risk: bool): Disposition {
    d.(chosen := pin.disposition, pin := Some(pin), provenance := if risk then FromOverrideAcceptedRisk else FromOverride)
  }

  function SettleGroup(group: Group, choice: Option<Strategy>, pin: Option<Pin>, risk: bool): Group {
    if choice.None? then group.(disposition := None, provenance := None, pin := None)
    else if pin.None? then group.(disposition := choice, provenance := Some(FromCascade), pin := None)
    else group.(disposition := choice, provenance := Some(if risk then FromOverrideAcceptedRisk else FromOverride), pin := pin)
  }

  /** The pin of a group, if it is accepted. */
  function AcceptedPin(fixed: seq<Fixed>, group: Group, pin: Option<Pin>, order: seq<Strategy>): Option<Pin> {
    if pin.Some? && Accepted(JudgeGroupPin(fixed, group, pin.value, order).outcome) then pin else None
  }

  function ResolveGroup(fixed: seq<Fixed>, group: Group, pin: Option<Pin>, order: seq<Strategy>): Group {
    SettleGroup(group, GroupChoice(fixed, group, pin, order), AcceptedPin(fixed, group, pin, order),
                pin.Some? && JudgeGroupPin(fixed, group, pin.value, order).outcome.HonoredAcceptedRisk?)
  }

  function ChoiceFor(groups: seq<Group>, key: nat): Option<Strategy> {
    var at := GroupOf(groups, key);
    if at.Some? then groups[at.value].disposition else None
  }

  function ConstrainRecord(g: GlobalRecord, choice: Option<Strategy>): GlobalRecord {
    if choice.Some? && g.disposition.Some? then g.(disposition := Some(Constrain(g.disposition.value, choice.value))) else g
  }

  function PinRecord(g: GlobalRecord, pin: Option<Pin>, choice: Option<Strategy>, order: seq<Strategy>): GlobalRecord {
    if pin.None? || g.disposition.None? then g
    else
      var outcome := JudgePin(g.key, g.facts, pin.value, choice, order).outcome;
      if Accepted(outcome) then g.(disposition := Some(Honor(g.disposition.value, pin.value, outcome.HonoredAcceptedRisk?)))
      else g
  }

  // ---------------------------------------------------------------------------------------------
  // The report

  function GroupEntry(fixed: seq<Fixed>, group: Group, pin: Pin, order: seq<Strategy>): Entry {
    var verdict := JudgeGroupPin(fixed, group, pin, order);
    Entry(GroupScope(group.id), ForStrategy(pin.disposition), pin.acceptRisk, verdict.outcome, verdict.failures)
  }

  function UnmatchedGroup(pin: GroupPin): Entry {
    Entry(GroupScope(pin.id), ForStrategy(pin.pin.disposition), pin.pin.acceptRisk, UnmatchedKey, {})
  }

  function PinEntry(g: Fixed, pin: Pin, choice: Option<Strategy>, order: seq<Strategy>): Entry {
    var verdict := JudgePin(g.key, g.facts, pin, choice, order);
    Entry(GlobalScope(g.key), ForStrategy(pin.disposition), pin.acceptRisk, verdict.outcome, verdict.failures)
  }

  function UnmatchedGlobal(key: nat, pin: Pin): Entry {
    Entry(GlobalScope(key), ForStrategy(pin.disposition), pin.acceptRisk, UnmatchedKey, {})
  }

  /** One entry per pinned group, in group order. */
  function MatchedEntries(fixed: seq<Fixed>, groups: seq<Group>, pins: seq<GroupPin>, order: seq<Strategy>): seq<Entry> {
    if groups == [] then []
    else
      var group := groups[|groups| - 1];
      var pin := FindGroupPin(pins, group.id);
      MatchedEntries(fixed, groups[..|groups| - 1], pins, order)
      + if pin.Some? then [GroupEntry(fixed, group, pin.value, order)] else []
  }

  predicate HasGroup(groups: seq<Group>, id: nat) {
    exists i | 0 <= i < |groups| :: groups[i].id == id
  }

  /** One entry per group pin that names no group. */
  function UnmatchedEntries(groups: seq<Group>, pins: seq<GroupPin>): seq<Entry> {
    if pins == [] then []
    else
      var pin := pins[|pins| - 1];
      UnmatchedEntries(groups, pins[..|pins| - 1]) + if HasGroup(groups, pin.id) then [] else [UnmatchedGroup(pin)]
  }

  function NextEntry(fixed: seq<Fixed>, groups: seq<Group>, pin: GlobalPin, order: seq<Strategy>): Entry
    requires pin.key.Some?
  {
    var at := Find(fixed, pin.key.value);
    if at.None? then UnmatchedGlobal(pin.key.value, pin.pin)
    else PinEntry(fixed[at.value], pin.pin, ChoiceFor(groups, pin.key.value), order)
  }

  /** One entry per global pin. */
  function PinEntries(fixed: seq<Fixed>, groups: seq<Group>, pins: seq<GlobalPin>, order: seq<Strategy>): seq<Entry>
    requires forall i | 0 <= i < |pins| :: pins[i].key.Some?
  {
    if pins == [] then []
    else PinEntries(fixed, groups, pins[..|pins| - 1], order) + [NextEntry(fixed, groups, pins[|pins| - 1], order)]
  }

  /** The audit records that the entries call for, in order. */
  function Risks(entries: seq<Entry>): (audits: seq<AuditRecord>)
  {
    if entries == [] then []
    else
      var e := entries[|entries| - 1];
      Risks(entries[..|entries| - 1])
      + if e.outcome.HonoredAcceptedRisk? then [AuditRecord(OverrideSource, e.scope, e.failures)] else []
  }

  function Kept(ledger: seq<AuditRecord>): (kept: seq<AuditRecord>)
    ensures forall a :: a in kept <==> a in ledger && !a.source.OverrideSource?
  {
    if ledger == [] then []
    else
      assert ledger == [ledger[0]] + ledger[1..];
      (if ledger[0].source.OverrideSource? then [] else [ledger[0]]) + Kept(ledger[1..])
  }

  lemma RisksNext(entries: seq<Entry>, e: Entry)
    ensures Risks(entries + [e]) ==
              Risks(entries) + if e.outcome.HonoredAcceptedRisk? then [AuditRecord(OverrideSource, e.scope, e.failures)] else []
  {
    assert (entries + [e])[..|entries|] == entries;
  }

  lemma {:induction false} RisksConcat(a: seq<Entry>, b: seq<Entry>)
    ensures Risks(a + b) == Risks(a) + Risks(b)
  {
    if b == [] {
      assert a + b == a;
    } else {
      var last := |b| - 1;
      RisksConcat(a, b[..last]);
      assert a + b == (a + b[..last]) + [b[last]] && b == b[..last] + [b[last]];
      RisksNext(a + b[..last], b[last]);
      RisksNext(b[..last], b[last]);
    }
  }

  lemma {:induction false} RisksUnmatched(groups: seq<Group>, pins: seq<GroupPin>)
    ensures Risks(UnmatchedEntries(groups, pins)) == []
  {
    if pins != [] {
      RisksUnmatched(groups, pins[..|pins| - 1]);
      var rest := UnmatchedEntries(groups, pins[..|pins| - 1]);
      RisksNext(rest, UnmatchedGroup(pins[|pins| - 1]));
      assert rest + [] == rest;
    }
  }

  lemma {:induction false} GroupOfNext(groups: seq<Group>, group: Group, key: nat)
    ensures GroupOf(groups + [group], key) ==
              if GroupOf(groups, key).Some? then GroupOf(groups, key)
              else if key in group.members then Some(|groups|) else None
  {
    var after := groups + [group];
    if GroupOf(groups, key).Some? {
      assert after[GroupOf(groups, key).value] == groups[GroupOf(groups, key).value];
    }
    forall i | 0 <= i < |groups|
      ensures key in after[i].members ==> GroupOf(groups, key).Some?
    {
      assert after[i] == groups[i];
    }
    if GroupOf(after, key).Some? && GroupOf(after, key).value < |groups| {
      assert after[GroupOf(after, key).value] == groups[GroupOf(after, key).value];
    }
    assert key in group.members ==> after[|groups|] == group;
  }

  // ---------------------------------------------------------------------------------------------
  // The manifest

  datatype Recipe = Recipe(accessors: set<nat>, functions: set<nat>, callsites: set<nat>)

  /** What the localized globals need together. */
  datatype Selection = Selection(fields: set<nat>, accessors: set<nat>, functions: set<nat>, callsites: set<nat>)

  predicate Localized(g: GlobalRecord) {
    g.disposition.Some? && g.disposition.value.chosen.Localize?
  }

  ghost predicate HasLocalized(globals: seq<GlobalRecord>, key: nat) {
    exists i, d :: 0 <= i < |globals| && globals[i].key == key && globals[i].disposition == Some(d) && d.chosen == Strategy.Localize
  }

  /** The selection is the union of the recipes of exactly the localized globals. */
  ghost predicate SelectionOk(sel: Selection, globals: seq<GlobalRecord>, recipes: map<nat, Recipe>) {
    (&& (forall k: nat :: k in sel.fields <==> HasLocalized(globals, k))
    && (forall k: nat | k in sel.fields :: k in recipes)
    && (forall a: nat :: a in sel.accessors <==> exists k: nat :: k in sel.fields && k in recipes && a in recipes[k].accessors)
    && (forall f: nat :: f in sel.functions <==> exists k: nat :: k in sel.fields && k in recipes && f in recipes[k].functions)
    && (forall c: nat :: c in sel.callsites <==> exists k: nat :: k in sel.fields && k in recipes && c in recipes[k].callsites)) == true
  }

  // ---------------------------------------------------------------------------------------------
  // The outcome of a whole run

  datatype Counts = Counts(
    honored: nat, acceptedRisk: nat, rejected: nat, disabled: nat, unavailable: nat, noRecipe: nat, unmatched: nat)

  function CountOf(entries: seq<Entry>, outcome: Outcome): nat {
    if entries == [] then 0
    else CountOf(entries[..|entries| - 1], outcome) + if entries[|entries| - 1].outcome == outcome then 1 else 0
  }

  /** Every outcome is counted under its own name, so the counts sum to the number of entries. */
  ghost predicate CountsOk(c: Counts, entries: seq<Entry>) {
    (&& c.honored == CountOf(entries, Honored) && c.acceptedRisk == CountOf(entries, HonoredAcceptedRisk)
    && c.rejected == CountOf(entries, Rejected) && c.disabled == CountOf(entries, RejectedDisabled)
    && c.unavailable == CountOf(entries, RejectedUnavailable) && c.noRecipe == CountOf(entries, RejectedNoRecipe)
    && c.unmatched == CountOf(entries, UnmatchedKey)
    && c.honored + c.acceptedRisk + c.rejected + c.disabled + c.unavailable + c.noRecipe + c.unmatched == |entries|) == true
  }

  predicate Problems(c: Counts) {
    c.rejected > 0 || c.disabled > 0 || c.unavailable > 0 || c.noRecipe > 0 || c.unmatched > 0
  }

  function Counted(c: Counts, outcome: Outcome): Counts {
    match outcome
    case Honored => c.(honored := c.honored + 1)
    case HonoredAcceptedRisk => c.(acceptedRisk := c.acceptedRisk + 1)
    case Rejected => c.(rejected := c.rejected + 1)
    case RejectedDisabled => c.(disabled := c.disabled + 1)
    case RejectedUnavailable => c.(unavailable := c.unavailable + 1)
    case RejectedNoRecipe => c.(noRecipe := c.noRecipe + 1)
    case UnmatchedKey => c.(unmatched := c.unmatched + 1)
  }

  ghost predicate HasProblem(entries: seq<Entry>) {
    exists e :: e in entries && !Accepted(e.outcome)
  }

  lemma CountOfNext(entries: seq<Entry>, e: Entry, outcome: Outcome)
    ensures CountOf(entries + [e], outcome) == CountOf(entries, outcome) + if e.outcome == outcome then 1 else 0
  {
    assert (entries + [e])[..|entries|] == entries;
  }

  lemma ProblemNext(entries: seq<Entry>, e: Entry)
    ensures HasProblem(entries + [e]) <==> HasProblem(entries) || !Accepted(e.outcome)
  {
    if x :| x in entries && !Accepted(x.outcome) {
      assert x in entries + [e];
    }
    assert e in entries + [e];
  }

  lemma CountNext(c: Counts, entries: seq<Entry>, e: Entry)
    requires CountsOk(c, entries) && (Problems(c) <==> HasProblem(entries))
    ensures CountsOk(Counted(c, e.outcome), entries + [e])
    ensures Problems(Counted(c, e.outcome)) <==> HasProblem(entries + [e])
  {
    forall outcome
      ensures CountOf(entries + [e], outcome) == CountOf(entries, outcome) + if e.outcome == outcome then 1 else 0
    {
      CountOfNext(entries, e, outcome);
    }
    ProblemNext(entries, e);
  }

  method CountOutcomes(entries: seq<Entry>) returns (c: Counts)
    ensures CountsOk(c, entries)
    ensures Problems(c) <==> HasProblem(entries)
  {
    c := Counts(0, 0, 0, 0, 0, 0, 0);
    for i := 0 to |entries|
      invariant CountsOk(c, entries[..i]) && (Problems(c) <==> HasProblem(entries[..i]))
    {
      assert entries[..i + 1] == entries[..i] + [entries[i]];
      CountNext(c, entries[..i], entries[i]);
      c := Counted(c, entries[i].outcome);
    }
    assert entries[..|entries|] == entries;
  }

  datatype PolicyResult = Applied(counts: Counts, problems: bool) | BadConfig(error: ConfigError) | BadKey | MissingRecipe(key: nat)

  function OrNone(overrides: Option<Overrides>): Overrides {
    if overrides.Some? then overrides.value else Overrides([], [], None)
  }

  function Base(globals: seq<GlobalRecord>, order: seq<Strategy>): (base: seq<GlobalRecord>)
    requires Strategy.Unhandled !in order
    ensures |base| == |globals| && forall i | 0 <= i < |globals| :: base[i] == Independent(globals[i], order)
  {
    seq(|globals|, i requires 0 <= i < |globals| => Independent(globals[i], order))
  }

  function Resolved(fixed: seq<Fixed>, groups: seq<Group>, pins: seq<GroupPin>, order: seq<Strategy>): (resolved: seq<Group>)
    ensures |resolved| == |groups|
    ensures forall g | 0 <= g < |groups| :: resolved[g] == ResolveGroup(fixed, groups[g], FindGroupPin(pins, groups[g].id), order)
  {
    seq(|groups|, g requires 0 <= g < |groups| => ResolveGroup(fixed, groups[g], FindGroupPin(pins, groups[g].id), order))
  }

  /** The record after groups and pins. */
  function FinalRecord(g: GlobalRecord, resolved: seq<Group>, pins: seq<GlobalPin>, order: seq<Strategy>): GlobalRecord
    requires Strategy.Unhandled !in order
  {
    var choice := ChoiceFor(resolved, g.key);
    PinRecord(ConstrainRecord(Independent(g, order), choice), FindGlobalPin(pins, g.key), choice, order)
  }

  function CascadeEntry(cascade: Option<seq<Strategy>>): seq<Entry> {
    if cascade.Some? then [Entry(CascadeScope, ForOrder(cascade.value), false, Honored, {})] else []
  }

  predicate KeysParse(o: Overrides) {
    forall i | 0 <= i < |o.globals| :: o.globals[i].key.Some?
  }

  /** What canonicalization does to a group; the order of records, groups and entries is not modelled. */
  function Canonical(group: Group): Group {
    group.(members := Sort(group.members))
  }

  function CanonicalGroups(groups: seq<Group>): (r: seq<Group>)
    ensures |r| == |groups| && forall g | 0 <= g < |groups| :: r[g] == Canonical(groups[g])
  {
    seq(|groups|, g requires 0 <= g < |groups| => Canonical(groups[g]))
  }

  /** The groups once they are settled; the cascade has sorted their members before. */
  function SettledGroups(globals: seq<GlobalRecord>, groups: seq<Group>, pins: seq<GroupPin>, order: seq<Strategy>): (r: seq<Group>)
    requires Strategy.Unhandled !in order
    ensures |r| == |groups|
  {
    Resolved(FixedPart(Base(globals, order)), CanonicalGroups(groups), pins, order)
  }

  /** The report, before it is sorted for output. */
  function Report(globals: seq<GlobalRecord>, groups: seq<Group>, o: Overrides, order: seq<Strategy>): seq<Entry>
    requires Strategy.Unhandled !in order && KeysParse(o)
  {
    var fixed, sorted := FixedPart(Base(globals, order)), CanonicalGroups(groups);
    MatchedEntries(fixed, sorted, o.groups, order) + UnmatchedEntries(sorted, o.groups)
    + PinEntries(fixed, SettledGroups(globals, groups, o.groups, order), o.globals, order) + CascadeEntry(o.cascade)
  }

  function FinalGroups(globals: seq<GlobalRecord>, groups: seq<Group>, o: Overrides, order: seq<Strategy>): (r: seq<Group>)
    requires Strategy.Unhandled !in order
    ensures |r| == |groups|
  {
    CanonicalGroups(SettledGroups(globals, groups, o.groups, order))
  }

  function FinalGlobals(globals: seq<GlobalRecord>, groups: seq<Group>, o: Overrides, order: seq<Strategy>): (r: seq<GlobalRecord>)
    requires Strategy.Unhandled !in order
    ensures |r| == |globals|
  {
    var resolved := SettledGroups(globals, groups, o.groups, order);
    seq(|globals|, i requires 0 <= i < |globals| => FinalRecord(globals[i], resolved, o.globals, order))
  }

  ghost predicate DistinctKeys(globals: seq<GlobalRecord>) {
    forall i, j | 0 <= i < j < |globals| :: globals[i].key != globals[j].key
  }

  ghost predicate DisjointGroups(groups: seq<Group>) {
    && (forall i, j | 0 <= i < j < |groups| :: groups[i].id != groups[j].id)
    && (forall i, j, k: nat | 0 <= i < j < |groups| && k in groups[i].members :: k !in groups[j].members)
  }

  /** Overrides are maps: no key is given twice. */
  ghost predicate OverridesOk(o: Overrides) {
    && (forall i, j | 0 <= i < j < |o.globals| && o.globals[i].key.Some? :: o.globals[i].key != o.globals[j].key)
    && (forall i, j | 0 <= i < j < |o.groups| :: o.groups[i].id != o.groups[j].id)
  }

  ghost predicate Decided(globals: seq<GlobalRecord>) {
    forall i | 0 <= i < |globals| :: globals[i].disposition.Some?
  }

  class Manifest {
    var globals: seq<GlobalRecord>
    var groups: seq<Group>
    var entries: seq<Entry>
    var recipes: map<nat, Recipe>
    var selected: Option<Selection>
    var demotions: Option<seq<(nat, Demotion)>>

    ghost predicate Valid()
      reads this
    {
      DistinctKeys(globals) && DisjointGroups(groups)
    }

    method Canonicalize()
      modifies this`groups
      ensures groups == CanonicalGroups(old(groups))
    {
      for g := 0 to |groups|
        invariant |groups| == |old(groups)|
        invariant forall h | 0 <= h < g :: groups[h] == Canonical(old(groups)[h])
        invariant forall h | g <= h < |groups| :: groups[h] == old(groups)[h]
      {
        groups := groups[g := Canonical(groups[g])];
      }
    }

    /** The independent cascade: earlier decisions, the report and any materialization are dropped, and members sorted. */
    method ApplyIndependentCascade(config: Config)
      requires ConfigOk(config)
      modifies this`globals, this`groups, this`entries, this`selected, this`demotions
      ensures |globals| == |old(globals)|
      ensures forall i | 0 <= i < |globals| :: globals[i] == Independent(old(globals)[i], config.order)
      ensures groups == CanonicalGroups(old(groups))
      ensures entries == [] && selected == None && demotions == None
    {
      demotions, selected := None, None;
      for i := 0 to |globals|
        invariant |globals| == |old(globals)| && groups == old(groups) && selected == None && demotions == None
        invariant forall j | 0 <= j < i :: globals[j] == Independent(old(globals)[j], config.order)
        invariant forall j | i <= j < |globals| :: globals[j] == old(globals)[j]
      {
        globals := globals[i := Independent(globals[i], config.order)];
      }
      entries := [];
      Canonicalize();
    }

    /** Puts every listed record on the group's choice. */
    method ConstrainMembers(members: seq<nat>, choice: Strategy)
      requires DistinctKeys(globals) && Decided(globals)
      modifies this`globals
      ensures |globals| == |old(globals)|
      ensures forall i | 0 <= i < |globals| :: globals[i] ==
                if old(globals)[i].key in members then ConstrainRecord(old(globals)[i], Some(choice)) else old(globals)[i]
    {
      for k := 0 to |members|
        invariant |globals| == |old(globals)|
        invariant forall i | 0 <= i < |globals| :: globals[i] ==
                    if old(globals)[i].key in members[..k] then ConstrainRecord(old(globals)[i], Some(choice)) else old(globals)[i]
      {
        assert members[..k + 1] == members[..k] + [members[k]];
        assert forall i | 0 <= i < |globals| :: globals[i].key == old(globals)[i].key && FixedOf(globals[i]) == FixedOf(old(globals)[i]);
        var at := Find(FixedPart(globals), members[k]);
        if at.Some? {
          globals := globals[at.value := ConstrainRecord(globals[at.value], Some(choice))];
        }
      }
      assert members[..|members|] == members;
    }

    /** Records a verdict, in the report and for accepted risks in the ledger. */
    method ReportVerdict(entry: Entry, ledger: seq<AuditRecord>) returns (ledger': seq<AuditRecord>)
      modifies this`entries
      ensures entries == old(entries) + [entry] && ledger' == ledger + Risks([entry])
    {
      RisksNext([], entry);
      assert [] + [entry] == [entry];
      entries := entries + [entry];
      ledger' := if entry.outcome.HonoredAcceptedRisk? then ledger + [AuditRecord(OverrideSource, entry.scope, entry.failures)] else ledger;
    }

    /** Reports the group pins that name no group. */
    method ReportUnmatched(pins: seq<GroupPin>, matched: set<nat>, ghost start: seq<Group>)
      requires forall k | 0 <= k < |pins| :: pins[k].id in matched <==> HasGroup(start, pins[k].id)
      modifies this`entries
      ensures entries == old(entries) + UnmatchedEntries(start, pins)
    {
      for k := 0 to |pins|
        invariant entries == old(entries) + UnmatchedEntries(start, pins[..k])
      {
        assert pins[..k + 1][..k] == pins[..k];
        if pins[k].id !in matched {
          entries := entries + [UnmatchedGroup(pins[k])];
        }
      }
      assert pins[..|pins|] == pins;
    }

    /** Every record is on the choice of its group, as far as the groups have been settled. */
    ghost predicate SettledTo(g: nat, base: seq<GlobalRecord>)
      reads this
    {
      && g <= |groups| && |globals| == |base| && DistinctKeys(base) && Decided(base) && DisjointGroups(groups)
      && forall i | 0 <= i < |globals| :: globals[i] == ConstrainRecord(base[i], ChoiceFor(groups[..g], base[i].key))
    }

    /** Settles group `g` and puts its members on its choice. */
    method SettleNext(g: nat, pin: Option<Pin>, order: seq<Strategy>, ghost base: seq<GlobalRecord>)
      requires g < |groups| && SettledTo(g, base)
      modifies this`globals, this`groups
      ensures groups == old(groups)[g := ResolveGroup(FixedPart(base), old(groups)[g], pin, order)]
      ensures SettledTo(g + 1, base)
    {
      ghost var before := groups[..g];
      assert FixedPart(globals) == FixedPart(base);
      var group := groups[g];
      var settled := ResolveGroup(FixedPart(globals), group, pin, order);
      groups := groups[g := settled];
      if settled.disposition.Some? {
        ConstrainMembers(group.members, settled.disposition.value);
      }
      assert groups[..g + 1] == before + [settled];
      forall i | 0 <= i < |globals|
        ensures globals[i] == ConstrainRecord(base[i], ChoiceFor(groups[..g + 1], base[i].key))
      {
        GroupOfNext(before, settled, base[i].key);
        OnlyGroup(old(groups), g, base[i].key);
      }
    }

    /** Reports on the pin of the next group, if it has one. */
    method ReportNext(
        fixed: seq<Fixed>, group: Group, pins: seq<GroupPin>, order: seq<Strategy>, matched: set<nat>,
        ledger: seq<AuditRecord>, ghost done: seq<Group>, ghost ledger0: seq<AuditRecord>)
      returns (matched': set<nat>, ledger': seq<AuditRecord>)
      requires Matches(matched, pins, done) && entries == MatchedEntries(fixed, done, pins, order)
      requires ledger == ledger0 + Risks(MatchedEntries(fixed, done, pins, order))
      modifies this`entries
      ensures Matches(matched', pins, done + [group])
      ensures entries == MatchedEntries(fixed, done + [group], pins, order)
      ensures ledger' == ledger0 + Risks(MatchedEntries(fixed, done + [group], pins, order))
    {
      matched', ledger' := matched, ledger;
      assert (done + [group])[..|done|] == done;
      HasGroupNext(done, group);
      var pin := FindGroupPin(pins, group.id);
      if pin.Some? {
        var entry := GroupEntry(fixed, group, pin.value, order);
        RisksConcat(MatchedEntries(fixed, done, pins, order), [entry]);
        ledger' := ReportVerdict(entry, ledger);
        matched' := matched + {group.id};
        assert MatchedEntries(fixed, done + [group], pins, order) == MatchedEntries(fixed, done, pins, order) + [entry];
        assert ledger' == ledger0 + (Risks(MatchedEntries(fixed, done, pins, order)) + Risks([entry]));
      } else {
        assert MatchedEntries(fixed, done, pins, order) + [] == MatchedEntries(fixed, done, pins, order);
      }
    }

    /** The state between two groups. */
    ghost predicate Resolving(
        g: nat, base: seq<GlobalRecord>, start: seq<Group>, pins: seq<GroupPin>, order: seq<Strategy>, matched: set<nat>,
        ledger: seq<AuditRecord>, ledger0: seq<AuditRecord>)
      reads this
    {
      && g <= |start| && SettledTo(g, base) && GroupsSettled(groups, start, g, FixedPart(base), pins, order)
      && Matches(matched, pins, start[..g])
      && entries == MatchedEntries(FixedPart(base), start[..g], pins, order)
      && ledger == ledger0 + Risks(MatchedEntries(FixedPart(base), start[..g], pins, order))
    }

    method ResolveNext(
        g: nat, pins: seq<GroupPin>, order: seq<Strategy>, matched: set<nat>, ledger: seq<AuditRecord>,
        ghost base: seq<GlobalRecord>, ghost start: seq<Group>, ghost ledger0: seq<AuditRecord>)
      returns (matched': set<nat>, ledger': seq<AuditRecord>)
      requires g < |groups| && Resolving(g, base, start, pins, order, matched, ledger, ledger0)
      modifies this`globals, this`groups, this`entries
      ensures Resolving(g + 1, base, start, pins, order, matched', ledger', ledger0)
    {
      var group := groups[g];
      assert start[..g + 1] == start[..g] + [group];
      assert FixedPart(globals) == FixedPart(base);
      matched', ledger' := ReportNext(FixedPart(globals), group, pins, order, matched, ledger, start[..g], ledger0);
      SettleNext(g, FindGroupPin(pins, group.id), order, base);
    }

    /** Settles every group, puts its members on its choice, and reports on every group pin. */
    method ResolveGroups(pins: seq<GroupPin>, order: seq<Strategy>, ledger: seq<AuditRecord>) returns (ledger': seq<AuditRecord>)
      requires Valid() && Decided(globals) && Strategy.Unhandled !in order && entries == []
      modifies this`globals, this`groups, this`entries
      ensures Settled(globals, old(globals), groups)
      ensures groups == Resolved(FixedPart(old(globals)), old(groups), pins, order)
      ensures entries == MatchedEntries(FixedPart(old(globals)), old(groups), pins, order) + UnmatchedEntries(old(groups), pins)
      ensures ledger' == ledger + Risks(MatchedEntries(FixedPart(old(globals)), old(groups), pins, order))
    {
      ghost var base, start := globals, groups;
      ledger' := ledger;
      var matched: set<nat> := {};
      for g := 0 to |groups|
        invariant |groups| == |start| && Resolving(g, base, start, pins, order, matched, ledger', ledger)
      {
        matched, ledger' := ResolveNext(g, pins, order, matched, ledger', base, start, ledger);
      }
      assert start[..|start|] == start;
      MatchesAreNamed(matched, pins, start);
      ReportUnmatched(pins, matched, start);
      assert groups[..|groups|] == groups;
    }

    /** Judges one global pin against its record, honours it if accepted, and reports. */
    method ApplyGlobalOverride(at: nat, pin: Pin, order: seq<Strategy>, ledger: seq<AuditRecord>) returns (ledger': seq<AuditRecord>)
      requires at < |globals| && globals[at].disposition.Some? && Strategy.Unhandled !in order
      modifies this`globals, this`entries
      ensures var choice := ChoiceFor(groups, old(globals)[at].key);
              var entry := PinEntry(FixedOf(old(globals)[at]), pin, choice, order);
              && globals == old(globals)[at := PinRecord(old(globals)[at], Some(pin), choice, order)]
              && entries == old(entries) + [entry] && ledger' == ledger + Risks([entry])
    {
      var g := globals[at];
      var choice := ChoiceFor(groups, g.key);
      globals := globals[at := PinRecord(g, Some(pin), choice, order)];
      ledger' := ReportVerdict(PinEntry(FixedOf(g), pin, choice, order), ledger);
    }

    /** Applies the global pins in order; the first one whose key does not parse ends the run. */
    method ApplyPins(pins: seq<GlobalPin>, order: seq<Strategy>, ledger: seq<AuditRecord>)
      returns (ledger': seq<AuditRecord>, parsed: bool)
      requires DistinctKeys(globals) && Decided(globals) && Strategy.Unhandled !in order
      requires forall i, j | 0 <= i < j < |pins| && pins[i].key.Some? :: pins[i].key != pins[j].key
      modifies this`globals, this`entries
      ensures parsed <==> forall k | 0 <= k < |pins| :: pins[k].key.Some?
      ensures parsed ==> Pinned(globals, old(globals), groups, pins, order)
      ensures parsed ==> entries == old(entries) + PinEntries(FixedPart(old(globals)), groups, pins, order)
      ensures parsed ==> ledger' == ledger + Risks(PinEntries(FixedPart(old(globals)), groups, pins, order))
    {
      ghost var base, entries0 := globals, entries;
      ledger' := ledger;
      for k := 0 to |pins|
        invariant Pinning(base, pins[..k], order, entries0, ledger', ledger)
      {
        if pins[k].key.None? {
          return ledger', false;
        }
        ledger' := ApplyNextPin(pins[k], pins[..k], order, ledger', base, entries0, ledger);
        assert pins[..k + 1] == pins[..k] + [pins[k]];
      }
      assert pins[..|pins|] == pins;
      parsed := true;
    }

    /** The state between two global pins. */
    ghost predicate Pinning(
        base: seq<GlobalRecord>, done: seq<GlobalPin>, order: seq<Strategy>, entries0: seq<Entry>,
        ledger: seq<AuditRecord>, ledger0: seq<AuditRecord>)
      reads this
    {
      && (forall i | 0 <= i < |done| :: done[i].key.Some?)
      && Pinned(globals, base, groups, done, order)
      && entries == entries0 + PinEntries(FixedPart(base), groups, done, order)
      && ledger == ledger0 + Risks(PinEntries(FixedPart(base), groups, done, order))
    }

    /** Joins the recipes of the localized globals, unless one of them has none. */
    method SelectContextRewrite() returns (missing: Option<nat>)
      modifies this`selected
      ensures missing.None? ==> selected.Some? && SelectionOk(selected.value, globals, recipes)
      ensures missing.Some? ==>
                selected == old(selected) && missing.value !in recipes && HasLocalized(globals, missing.value)
    {
      var sel := Selection({}, {}, {}, {});
      for i := 0 to |globals|
        invariant selected == old(selected) && SelectionOk(sel, globals[..i], recipes)
      {
        assert globals[..i + 1] == globals[..i] + [globals[i]];
        SelectionNext(sel, globals[..i], recipes, globals[i]);
        if Localized(globals[i]) {
          var key := globals[i].key;
          if key !in recipes {
            return Some(key);
          }
          var recipe := recipes[key];
          sel := Selection(sel.fields + {key}, sel.accessors + recipe.accessors, sel.functions + recipe.functions,
                           sel.callsites + recipe.callsites);
        }
      }
      assert globals[..|globals|] == globals;
      selected := Some(sel);
      return None;
    }

    /**
     The policy. A bad configuration changes nothing; otherwise every record, group and entry ends up as
     specified, from the facts and the overrides alone.
     */
    method ApplyPolicy(config: Config, overrides: Option<Overrides>, ledger: seq<AuditRecord>)
      returns (result: PolicyResult, ledger': seq<AuditRecord>)
      requires Valid() && (overrides.Some? ==> OverridesOk(overrides.value))
      modifies this`globals, this`groups, this`entries, this`selected, this`demotions
      ensures result.BadConfig? <==> !ConfigOk(config)
      ensures result.BadConfig? ==>
                && globals == old(globals) && groups == old(groups) && entries == old(entries) && selected == old(selected)
                && demotions == old(demotions) && ledger' == ledger
      ensures ConfigOk(config) ==> (result.BadKey? <==> !KeysParse(OrNone(overrides)))
      ensures result.Applied? ==> AppliedAs(old(globals), old(groups), OrNone(overrides), config.order, ledger, ledger', result)
      ensures result.MissingRecipe? ==> result.key !in recipes && HasLocalized(globals, result.key)
    {
      var error := ValidateConfig(config);
      if error.Some? {
        return BadConfig(error.value), ledger;
      }
      result, ledger' := Run(config, OrNone(overrides), ledger);
    }

    /** A run with a valid configuration. */
    method Run(config: Config, o: Overrides, ledger: seq<AuditRecord>) returns (result: PolicyResult, ledger': seq<AuditRecord>)
      requires Valid() && ConfigOk(config) && OverridesOk(o)
      modifies this`globals, this`groups, this`entries, this`selected, this`demotions
      ensures !result.BadConfig? && (result.BadKey? <==> !KeysParse(o))
      ensures result.Applied? ==> AppliedAs(old(globals), old(groups), o, config.order, ledger, ledger', result)
      ensures result.MissingRecipe? ==> result.key !in recipes && HasLocalized(globals, result.key)
    {
      hide SettledGroups, CanonicalGroups, FinalGlobals, Report;
      var parsed;
      parsed, ledger' := Decide(config, o, Kept(ledger));
      if !parsed {
        return BadKey, ledger';
      }
      result := Finish();
    }

    /** Counts the report, selects the rewrites and brings the manifest into its canonical order. */
    method Finish() returns (result: PolicyResult)
      modifies this`groups, this`selected
      ensures result.Applied? || result.MissingRecipe?
      ensures result.MissingRecipe? ==> result.key !in recipes && HasLocalized(globals, result.key)
      ensures result.Applied? ==> selected.Some? && SelectionOk(selected.value, globals, recipes)
      ensures result.Applied? ==> CountsOk(result.counts, entries) && (result.problems <==> HasProblem(entries))
      ensures result.Applied? ==> groups == CanonicalGroups(old(groups))
    {
      var counts := CountOutcomes(entries);
      var missing := SelectContextRewrite();
      if missing.Some? {
        return MissingRecipe(missing.value);
      }
      Canonicalize();
      return Applied(counts, Problems(counts));
    }

    /** The whole new state, the ledger and the counts of a completed run. */
    ghost predicate AppliedAs(
        start: seq<GlobalRecord>, startGroups: seq<Group>, o: Overrides, order: seq<Strategy>, ledger: seq<AuditRecord>,
        ledger': seq<AuditRecord>, result: PolicyResult)
      reads this
    {
      (&& result.Applied? && DecidedAs(start, startGroups, o, order)
       && groups == FinalGroups(start, startGroups, o, order)
       && ledger' == Kept(ledger) + Risks(entries) && demotions.None?
       && selected.Some? && SelectionOk(selected.value, globals, recipes)
       && CountsOk(result.counts, entries) && (result.problems <==> HasProblem(entries))) == true
    }

    /** The records and the report are the specified ones. */
    ghost predicate DecidedAs(start: seq<GlobalRecord>, startGroups: seq<Group>, o: Overrides, order: seq<Strategy>)
      reads this
    {
      (&& Strategy.Unhandled !in order && KeysParse(o)
      && globals == FinalGlobals(start, startGroups, o, order)
      && entries == Report(start, startGroups, o, order)) == true
    }

    method DecideGroups(config: Config, pins: seq<GroupPin>, ledger: seq<AuditRecord>) returns (ledger': seq<AuditRecord>)
      requires Valid() && ConfigOk(config)
      modifies this`globals, this`groups, this`entries, this`selected, this`demotions
      ensures DistinctKeys(globals) && Decided(globals) && demotions == None
      ensures Settled(globals, Base(old(globals), config.order), groups)
      ensures groups == SettledGroups(old(globals), old(groups), pins, config.order)
      ensures entries == MatchedEntries(FixedPart(globals), CanonicalGroups(old(groups)), pins, config.order)
                         + UnmatchedEntries(CanonicalGroups(old(groups)), pins)
      ensures ledger' == ledger + Risks(MatchedEntries(FixedPart(globals), CanonicalGroups(old(groups)), pins, config.order))
    {
      ghost var start := globals;
      CanonicalDisjoint(groups);
      ApplyIndependentCascade(config);
      assert globals == Base(start, config.order);
      ledger' := ResolveGroups(pins, config.order, ledger);
      assert FixedPart(globals) == FixedPart(Base(start, config.order));
    }

    /** The decisions and the report of a valid configuration. */
    method Decide(config: Config, o: Overrides, ledger: seq<AuditRecord>) returns (parsed: bool, ledger': seq<AuditRecord>)
      requires Valid() && ConfigOk(config) && OverridesOk(o)
      modifies this`globals, this`groups, this`entries, this`selected, this`demotions
      ensures parsed <==> KeysParse(o)
      ensures parsed ==> DecidedAs(old(globals), old(groups), o, config.order)
      ensures parsed ==> groups == SettledGroups(old(globals), old(groups), o.groups, config.order)
      ensures parsed ==> ledger' == ledger + Risks(entries) && demotions == None
    {
      ghost var start, startGroups := globals, groups;
      ledger' := DecideGroups(config, o.groups, ledger);
      ghost var settled := globals;
      ledger', parsed := ApplyPins(o.globals, config.order, ledger');
      if parsed {
        entries := entries + CascadeEntry(o.cascade);
        FinalIsSpecified(start, startGroups, settled, globals, o, config.order, ledger);
      }
    }

    method ApplyNextPin(
        pin: GlobalPin, ghost done: seq<GlobalPin>, order: seq<Strategy>, ledger: seq<AuditRecord>,
        ghost base: seq<GlobalRecord>, ghost entries0: seq<Entry>, ghost ledger0: seq<AuditRecord>)
      returns (ledger': seq<AuditRecord>)
      requires DistinctKeys(base) && Decided(base) && Strategy.Unhandled !in order && pin.key.Some?
      requires forall i | 0 <= i < |done| :: done[i].key != pin.key
      requires Pinning(base, done, order, entries0, ledger, ledger0)
      modifies this`globals, this`entries
      ensures Pinning(base, done + [pin], order, entries0, ledger', ledger0)
    {
      PinnedKeepsFixed(globals, base, groups, done, order);
      ghost var before := PinEntries(FixedPart(base), groups, done, order);
      var at := Find(FixedPart(globals), pin.key.value);
      PinnedNext(globals, base, groups, done, pin, order);
      PinEntriesNext(FixedPart(base), groups, done, pin, order);
      var entry := NextEntry(FixedPart(globals), groups, pin, order);
      RisksConcat(before, [entry]);
      Assoc(entries0, before, [entry]);
      Assoc(ledger0, Risks(before), Risks([entry]));
      if at.None? {
        ledger' := ReportVerdict(entry, ledger);
      } else {
        ledger' := ApplyGlobalOverride(at.value, pin.pin, order, ledger);
      }
    }
  }

  lemma HasLocalizedNext(globals: seq<GlobalRecord>, g: GlobalRecord, key: nat)
    ensures HasLocalized(globals + [g], key) <==> HasLocalized(globals, key) || (Localized(g) && g.key == key)
  {
    var after := globals + [g];
    assert after[|globals|] == g;
    if i, d :| 0 <= i < |globals| && globals[i].key == key && globals[i].disposition == Some(d) && d.chosen == Strategy.Localize {
      assert after[i] == globals[i];
    }
  }

  /** One more localized global adds its recipe. */
  lemma SelectionNext(sel: Selection, globals: seq<GlobalRecord>, recipes: map<nat, Recipe>, g: GlobalRecord)
    requires SelectionOk(sel, globals, recipes)
    ensures !Localized(g) ==> SelectionOk(sel, globals + [g], recipes)
    ensures Localized(g) && g.key in recipes ==>
              SelectionOk(Selection(sel.fields + {g.key}, sel.accessors + recipes[g.key].accessors,
                                    sel.functions + recipes[g.key].functions, sel.callsites + recipes[g.key].callsites),
                          globals + [g], recipes)
  {
    forall key: nat
      ensures HasLocalized(globals + [g], key) <==> HasLocalized(globals, key) || (Localized(g) && g.key == key)
    {
      HasLocalizedNext(globals, g, key);
    }
  }

  /** Groups then pins are the specified outcome, and the accepted risks are those of the report. */
  lemma FinalIsSpecified(
      start: seq<GlobalRecord>, startGroups: seq<Group>, settled: seq<GlobalRecord>, globals: seq<GlobalRecord>, o: Overrides,
      order: seq<Strategy>, ledger: seq<AuditRecord>)
    requires Strategy.Unhandled !in order && KeysParse(o)
    requires Settled(settled, Base(start, order), SettledGroups(start, startGroups, o.groups, order))
    requires Pinned(globals, settled, SettledGroups(start, startGroups, o.groups, order), o.globals, order)
    ensures globals == FinalGlobals(start, startGroups, o, order)
    ensures FixedPart(settled) == FixedPart(Base(start, order))
    ensures ledger + Risks(MatchedEntries(FixedPart(settled), CanonicalGroups(startGroups), o.groups, order))
            + Risks(PinEntries(FixedPart(settled), SettledGroups(start, startGroups, o.groups, order), o.globals, order))
         == ledger + Risks(Report(start, startGroups, o, order))
  {
    var fixed, sorted := FixedPart(Base(start, order)), CanonicalGroups(startGroups);
    assert FixedPart(settled) == fixed;
    var named := MatchedEntries(fixed, sorted, o.groups, order);
    var pinned := PinEntries(fixed, SettledGroups(start, startGroups, o.groups, order), o.globals, order);
    ReportRisks(named, UnmatchedEntries(sorted, o.groups), pinned, sorted, o);
    Assoc(ledger, Risks(named), Risks(pinned));
  }

  /** Only matched group pins and global pins can carry an accepted risk. */
  lemma ReportRisks(named: seq<Entry>, unnamed: seq<Entry>, pinned: seq<Entry>, groups: seq<Group>, o: Overrides)
    requires unnamed == UnmatchedEntries(groups, o.groups)
    ensures Risks(named + unnamed + pinned + CascadeEntry(o.cascade)) == Risks(named) + Risks(pinned)
  {
    RisksUnmatched(groups, o.groups);
    RisksConcat(named, unnamed);
    RisksConcat(named + unnamed, pinned);
    RisksConcat(named + unnamed + pinned, CascadeEntry(o.cascade));
    if o.cascade.Some? {
      RisksNext([], Entry(CascadeScope, ForOrder(o.cascade.value), false, Honored, {}));
      assert [] + CascadeEntry(o.cascade) == CascadeEntry(o.cascade);
    }
    assert Risks(named) + [] == Risks(named) && Risks(named) + Risks(pinned) + [] == Risks(named) + Risks(pinned);
  }

  lemma Assoc<T>(a: seq<T>, b: seq<T>, c: seq<T>)
    ensures a + (b + c) == (a + b) + c
  {
  }

  lemma PinnedKeepsFixed(
      globals: seq<GlobalRecord>, base: seq<GlobalRecord>, groups: seq<Group>, pins: seq<GlobalPin>, order: seq<Strategy>)
    requires Pinned(globals, base, groups, pins, order)
    ensures FixedPart(globals) == FixedPart(base)
    ensures Decided(base) ==> Decided(globals)
  {
  }

  /** Honouring the next pin, if it names a record, carries the pins one further. */
  lemma PinnedNext(
      globals: seq<GlobalRecord>, base: seq<GlobalRecord>, groups: seq<Group>, done: seq<GlobalPin>, pin: GlobalPin,
      order: seq<Strategy>)
    requires DistinctKeys(base) && Decided(base) && Pinned(globals, base, groups, done, order) && pin.key.Some?
    requires forall i | 0 <= i < |done| :: done[i].key != pin.key
    ensures var at := Find(FixedPart(globals), pin.key.value);
            Pinned(if at.None? then globals
                   else globals[at.value := PinRecord(globals[at.value], Some(pin.pin), ChoiceFor(groups, pin.key.value), order)],
                   base, groups, done + [pin], order)
  {
    PinnedKeepsFixed(globals, base, groups, done, order);
    FindGlobalPinNext(done, pin);
    var at := Find(FixedPart(globals), pin.key.value);
    forall i | 0 <= i < |base| && base[i].key == pin.key.value
      ensures at == Some(i) && globals[i] == base[i]
    {
      assert FixedPart(globals)[i].key == pin.key.value;
      assert FindGlobalPin(done, base[i].key).None?;
    }
  }

  lemma PinEntriesNext(fixed: seq<Fixed>, groups: seq<Group>, done: seq<GlobalPin>, pin: GlobalPin, order: seq<Strategy>)
    requires pin.key.Some? && forall i | 0 <= i < |done| :: done[i].key.Some?
    ensures PinEntries(fixed, groups, done + [pin], order) == PinEntries(fixed, groups, done, order) + [NextEntry(fixed, groups, pin, order)]
  {
    assert (done + [pin])[..|done|] == done;
  }

  /** Every record carries the pin given for its key, if that was accepted. */
  ghost predicate Pinned(
      globals: seq<GlobalRecord>, base: seq<GlobalRecord>, groups: seq<Group>, pins: seq<GlobalPin>, order: seq<Strategy>) {
    && |globals| == |base|
    && forall i | 0 <= i < |globals| ::
         globals[i] == PinRecord(base[i], FindGlobalPin(pins, base[i].key), ChoiceFor(groups, base[i].key), order)
  }

  lemma {:induction false} FindGlobalPinNext(pins: seq<GlobalPin>, pin: GlobalPin)
    requires forall i | 0 <= i < |pins| :: pins[i].key != pin.key
    ensures forall key: nat :: FindGlobalPin(pins + [pin], key) == if pin.key == Some(key) then Some(pin.pin) else FindGlobalPin(pins, key)
  {
    forall key: nat
      ensures FindGlobalPin(pins + [pin], key) == if pin.key == Some(key) then Some(pin.pin) else FindGlobalPin(pins, key)
    {
      if pins == [] {
        assert [] + [pin] == [pin];
      } else {
        FindGlobalPinNext(pins[1..], pin);
        assert (pins + [pin])[1..] == pins[1..] + [pin];
      }
    }
  }

  lemma CanonicalDisjoint(groups: seq<Group>)
    requires DisjointGroups(groups)
    ensures DisjointGroups(CanonicalGroups(groups))
  {
  }

  lemma OnlyGroup(groups: seq<Group>, g: nat, key: nat)
    requires DisjointGroups(groups) && g < |groups|
    ensures key in groups[g].members ==> GroupOf(groups[..g], key).None?
  {
  }

  /** Every record is on the choice of its group. */
  ghost predicate Settled(globals: seq<GlobalRecord>, base: seq<GlobalRecord>, groups: seq<Group>) {
    && |globals| == |base|
    && forall i | 0 <= i < |globals| :: globals[i] == ConstrainRecord(base[i], ChoiceFor(groups, base[i].key))
  }

  /** The first `g` groups are settled, the others are as they were. */
  ghost predicate GroupsSettled(groups: seq<Group>, start: seq<Group>, g: nat, fixed: seq<Fixed>, pins: seq<GroupPin>, order: seq<Strategy>) {
    && |groups| == |start|
    && (forall h | 0 <= h < g && h < |start| :: groups[h] == ResolveGroup(fixed, start[h], FindGroupPin(pins, start[h].id), order))
    && (forall h | g <= h < |groups| :: groups[h] == start[h])
  }

  /** The pinned groups among the first `g`. */
  ghost predicate Matches(matched: set<nat>, pins: seq<GroupPin>, groups: seq<Group>) {
    forall id: nat :: id in matched <==> FindGroupPin(pins, id).Some? && HasGroup(groups, id)
  }

  lemma MatchesAreNamed(matched: set<nat>, pins: seq<GroupPin>, groups: seq<Group>)
    requires Matches(matched, pins, groups)
    ensures forall k | 0 <= k < |pins| :: pins[k].id in matched <==> HasGroup(groups, pins[k].id)
  {
  }

  lemma HasGroupNext(groups: seq<Group>, group: Group)
    ensures forall id: nat :: HasGroup(groups + [group], id) <==> HasGroup(groups, id) || id == group.id
  {
    var after := groups + [group];
    assert after[|groups|] == group;
    forall id: nat | HasGroup(groups, id)
      ensures HasGroup(after, id)
    {
      var h :| 0 <= h < |groups| && groups[h].id == id;
      assert after[h].id == id;
    }
  }
}
