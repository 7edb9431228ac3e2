/** What the report of a run says about the groups and the records it leaves behind. */
module PolicyOutcomes {
  import opened Sorting
  import opened Guards
  import opened Manifests
  import opened Policy
  import opened PolicyLaws
  import opened PolicySafety

  // ---------------------------------------------------------------------------------------------
  // The entries of the report

  lemma {:induction false} MatchedEntriesAre(fixed: seq<Fixed>, groups: seq<Group>, pins: seq<GroupPin>, order: seq<Strategy>)
    ensures forall e :: e in MatchedEntries(fixed, groups, pins, order) <==>
              exists g :: 0 <= g < |groups| && FindGroupPin(pins, groups[g].id).Some?
                          && e == GroupEntry(fixed, groups[g], FindGroupPin(pins, groups[g].id).value, order)
  {
    if groups != [] {
      var rest, last := groups[..|groups| - 1], groups[|groups| - 1];
      MatchedEntriesAre(fixed, rest, pins, order);
      assert forall g | 0 <= g < |rest| :: groups[g] == rest[g];
      var pin := FindGroupPin(pins, last.id);
      forall e
        ensures e in MatchedEntries(fixed, groups, pins, order) <==>
                  e in MatchedEntries(fixed, rest, pins, order) || (pin.Some? && e == GroupEntry(fixed, last, pin.value, order))
      {
      }
      forall e | e in MatchedEntries(fixed, rest, pins, order)
        ensures exists g :: 0 <= g < |groups| && FindGroupPin(pins, groups[g].id).Some?
                            && e == GroupEntry(fixed, groups[g], FindGroupPin(pins, groups[g].id).value, order)
      {
        var g :| 0 <= g < |rest| && FindGroupPin(pins, rest[g].id).Some?
                 && e == GroupEntry(fixed, rest[g], FindGroupPin(pins, rest[g].id).value, order);
        assert groups[g] == rest[g];
      }
      assert groups[|rest|] == last;
    }
  }

  lemma {:induction false} UnmatchedEntriesAre(groups: seq<Group>, pins: seq<GroupPin>)
    ensures forall e :: e in UnmatchedEntries(groups, pins) <==>
              exists i :: 0 <= i < |pins| && !HasGroup(groups, pins[i].id) && e == UnmatchedGroup(pins[i])
  {
    if pins != [] {
      var rest, last := pins[..|pins| - 1], pins[|pins| - 1];
      UnmatchedEntriesAre(groups, rest);
      forall e
        ensures e in UnmatchedEntries(groups, pins) <==>
                  e in UnmatchedEntries(groups, rest) || (!HasGroup(groups, last.id) && e == UnmatchedGroup(last))
      {
      }
      forall e | e in UnmatchedEntries(groups, rest)
        ensures exists i :: 0 <= i < |pins| && !HasGroup(groups, pins[i].id) && e == UnmatchedGroup(pins[i])
      {
        var i :| 0 <= i < |rest| && !HasGroup(groups, rest[i].id) && e == UnmatchedGroup(rest[i]);
        assert pins[i] == rest[i];
      }
      assert pins[|rest|] == last;
      assert forall i | 0 <= i < |rest| :: pins[i] == rest[i];
    }
  }

  /** `pin` is the override given for the group, or for the global, that `scope` names. */
  ghost predicate Requests(o: Overrides, scope: Scope, pin: Pin) {
    match scope
    case GroupScope(id) => exists i :: 0 <= i < |o.groups| && o.groups[i] == GroupPin(id, pin)
    case GlobalScope(key) => exists i :: 0 <= i < |o.globals| && o.globals[i] == GlobalPin(Some(key), pin)
    case CascadeScope => false
  }

  /** The scope names a group, or a global, of the manifest. */
  ghost predicate Named(globals: seq<GlobalRecord>, groups: seq<Group>, scope: Scope) {
    match scope
    case GroupScope(id) => exists g :: 0 <= g < |groups| && groups[g].id == id
    case GlobalScope(key) => exists i :: 0 <= i < |globals| && globals[i].key == key
    case CascadeScope => true
  }

  /** An entry repeats what was asked for, and an override that names nothing is reported as such. */
  ghost predicate EntryTells(e: Entry, globals: seq<GlobalRecord>, groups: seq<Group>, o: Overrides) {
    && (e.outcome.UnmatchedKey? <==> !Named(globals, groups, e.scope))
    && (e.outcome.UnmatchedKey? ==> e.failures == {})
    && (e.scope.CascadeScope? ==>
          o.cascade.Some? && e == Entry(CascadeScope, ForOrder(o.cascade.value), false, Honored, {}))
    && (!e.scope.CascadeScope? ==> e.requested.ForStrategy? && Requests(o, e.scope, Pin(e.requested.strategy, e.acceptRisk)))
  }

  lemma SortedIsNamed(globals: seq<GlobalRecord>, groups: seq<Group>, id: nat)
    ensures HasGroup(CanonicalGroups(groups), id) <==> Named(globals, groups, GroupScope(id))
  {
    var sorted := CanonicalGroups(groups);
    assert forall g | 0 <= g < |groups| :: sorted[g].id == groups[g].id;
    if HasGroup(sorted, id) {
      var g :| 0 <= g < |sorted| && sorted[g].id == id;
      assert groups[g].id == id;
    }
    if Named(globals, groups, GroupScope(id)) {
      var g :| 0 <= g < |groups| && groups[g].id == id;
      assert sorted[g].id == id;
    }
  }

  lemma MatchedTells(globals: seq<GlobalRecord>, groups: seq<Group>, o: Overrides, order: seq<Strategy>, fixed: seq<Fixed>, g: nat)
    requires g < |groups| && FindGroupPin(o.groups, Canonical(groups[g]).id).Some?
    ensures EntryTells(GroupEntry(fixed, Canonical(groups[g]), FindGroupPin(o.groups, Canonical(groups[g]).id).value, order), globals, groups, o)
  {
    var group := Canonical(groups[g]);
    var pin := FindGroupPin(o.groups, group.id).value;
    VerdictIsMatched(fixed, group, pin, order);
    hide JudgeGroupPin;
    var e := GroupEntry(fixed, group, pin, order);
    assert groups[g].id == group.id;
    assert Named(globals, groups, e.scope);
    assert Pin(e.requested.strategy, e.acceptRisk) == pin;
    assert Requests(o, e.scope, pin);
  }

  lemma UnmatchedTells(globals: seq<GlobalRecord>, groups: seq<Group>, o: Overrides, i: nat)
    requires i < |o.groups| && !HasGroup(CanonicalGroups(groups), o.groups[i].id)
    ensures EntryTells(UnmatchedGroup(o.groups[i]), globals, groups, o)
  {
    SortedIsNamed(globals, groups, o.groups[i].id);
    var e := UnmatchedGroup(o.groups[i]);
    assert GroupPin(e.scope.id, Pin(e.requested.strategy, e.acceptRisk)) == o.groups[i];
  }

  lemma GroupEntryTells(globals: seq<GlobalRecord>, groups: seq<Group>, o: Overrides, order: seq<Strategy>, e: Entry)
    requires Strategy.Unhandled !in order
    requires e in MatchedEntries(FixedPart(Base(globals, order)), CanonicalGroups(groups), o.groups, order)
             || e in UnmatchedEntries(CanonicalGroups(groups), o.groups)
    ensures EntryTells(e, globals, groups, o)
  {
    var fixed, sorted := FixedPart(Base(globals, order)), CanonicalGroups(groups);
    MatchedEntriesAre(fixed, sorted, o.groups, order);
    UnmatchedEntriesAre(sorted, o.groups);
    hide EntryTells, GroupEntry, UnmatchedGroup, HasGroup, MatchedEntries, UnmatchedEntries, Canonical, FindGroupPin;
    if e in MatchedEntries(fixed, sorted, o.groups, order) {
      var g: nat :| g < |sorted| && FindGroupPin(o.groups, sorted[g].id).Some?
                    && e == GroupEntry(fixed, sorted[g], FindGroupPin(o.groups, sorted[g].id).value, order);
      assert sorted[g] == Canonical(groups[g]);
      MatchedTells(globals, groups, o, order, fixed, g);
    } else {
      var i: nat :| i < |o.groups| && !HasGroup(sorted, o.groups[i].id) && e == UnmatchedGroup(o.groups[i]);
      UnmatchedTells(globals, groups, o, i);
    }
  }

  lemma VerdictIsMatched(fixed: seq<Fixed>, group: Group, pin: Pin, order: seq<Strategy>)
    ensures !JudgeGroupPin(fixed, group, pin, order).outcome.UnmatchedKey?
  {
  }

  lemma PinVerdictIsMatched(key: nat, facts: Facts, pin: Pin, groupChoice: Option<Strategy>, order: seq<Strategy>)
    ensures !JudgePin(key, facts, pin, groupChoice, order).outcome.UnmatchedKey?
  {
  }

  lemma PinEntryTells(globals: seq<GlobalRecord>, groups: seq<Group>, o: Overrides, order: seq<Strategy>, i: nat)
    requires Strategy.Unhandled !in order && KeysParse(o) && i < |o.globals|
    ensures var e := NextEntry(FixedPart(Base(globals, order)), SettledGroups(globals, groups, o.groups, order), o.globals[i], order);
            e.scope.GlobalScope? && EntryTells(e, globals, groups, o)
  {
    hide JudgePin, SettledGroups, ChoiceFor;
    var fixed, key := FixedPart(Base(globals, order)), o.globals[i].key.value;
    assert forall j | 0 <= j < |globals| :: fixed[j].key == globals[j].key;
    var at := Find(fixed, key);
    assert at.Some? <==> Named(globals, groups, GlobalScope(key));
    if at.Some? {
      PinVerdictIsMatched(fixed[at.value].key, fixed[at.value].facts, o.globals[i].pin,
                          ChoiceFor(SettledGroups(globals, groups, o.groups, order), key), order);
    }
  }

  /** Every entry of the report repeats an override, and tells whether it names anything. */
  lemma ReportTells(globals: seq<GlobalRecord>, groups: seq<Group>, o: Overrides, order: seq<Strategy>, e: Entry)
    requires Strategy.Unhandled !in order && KeysParse(o) && e in Report(globals, groups, o, order)
    ensures EntryTells(e, globals, groups, o)
  {
    var fixed, sorted := FixedPart(Base(globals, order)), CanonicalGroups(groups);
    if e in MatchedEntries(fixed, sorted, o.groups, order) || e in UnmatchedEntries(sorted, o.groups) {
      GroupEntryTells(globals, groups, o, order, e);
    } else if e in PinEntries(fixed, SettledGroups(globals, groups, o.groups, order), o.globals, order) {
      var pinned := PinEntries(fixed, SettledGroups(globals, groups, o.groups, order), o.globals, order);
      PinEntriesAt(fixed, SettledGroups(globals, groups, o.groups, order), o.globals, order);
      var i: nat :| i < |pinned| && pinned[i] == e;
      PinEntryTells(globals, groups, o, order, i);
    }
  }

  /** An override that names nothing makes the run a problem. */
  lemma UnmatchedIsAProblem(globals: seq<GlobalRecord>, groups: seq<Group>, o: Overrides, order: seq<Strategy>, scope: Scope)
    requires Strategy.Unhandled !in order && KeysParse(o) && OverridesOk(o) && DisjointGroups(groups)
    requires Overridden(o, scope) && !Named(globals, groups, scope)
    ensures exists e :: e in Report(globals, groups, o, order) && e.scope == scope && e.outcome.UnmatchedKey?
    ensures HasProblem(Report(globals, groups, o, order))
  {
    var report := Report(globals, groups, o, order);
    ReportIsComplete(globals, groups, o, order);
    assert Reported(report, scope);
    var i :| 0 <= i < |report| && report[i].scope == scope;
    assert report[i] in report;
    ReportTells(globals, groups, o, order, report[i]);
  }

  // ---------------------------------------------------------------------------------------------
  // Groups

  /** The report has an accepted entry for the scope. */
  ghost predicate AcceptedFor(report: seq<Entry>, scope: Scope, e: Entry) {
    e in report && e.scope == scope && Accepted(e.outcome)
  }

  /** The joint strategy that a group takes when nothing tells it otherwise. */
  ghost predicate TakesByItself(fixed: seq<Fixed>, group: Group, order: seq<Strategy>, strategy: Strategy) {
    && (forall k: nat | k in group.members :: Yields(fixed, k))
    && exists i :: 0 <= i < |order| && order[i] == strategy && Suits(fixed, group, strategy)
                   && forall j | 0 <= j < i :: !Suits(fixed, group, order[j])
  }

  lemma SortedSuits(fixed: seq<Fixed>, group: Group, strategy: Strategy)
    ensures Suits(fixed, Canonical(group), strategy) <==> Suits(fixed, group, strategy)
  {
    assert Canonical(group).members == [] <==> group.members == [];
    assert forall k: nat :: k in Canonical(group).members <==> k in group.members;
  }

  lemma IndependentIsTaken(fixed: seq<Fixed>, group: Group, order: seq<Strategy>, strategy: Strategy)
    ensures IndependentJoint(fixed, Canonical(group), order) == Some(strategy) <==> TakesByItself(fixed, group, order, strategy)
  {
    var sorted := Canonical(group);
    forall s
      ensures Suits(fixed, sorted, s) <==> Suits(fixed, group, s)
    {
      SortedSuits(fixed, group, s);
    }
    FirstJointIsFirst(fixed, sorted, order);
    assert MembersYield(fixed, sorted.members) <==> forall k: nat | k in group.members :: Yields(fixed, k) by {
      assert forall k: nat :: k in sorted.members <==> k in group.members;
      if MembersYield(fixed, sorted.members) {
        forall k: nat | k in group.members
          ensures Yields(fixed, k)
        {
          var i :| 0 <= i < |sorted.members| && sorted.members[i] == k;
        }
      }
    }
    if TakesByItself(fixed, group, order, strategy) {
      var i :| 0 <= i < |order| && order[i] == strategy && Suits(fixed, group, strategy)
               && forall j | 0 <= j < i :: !Suits(fixed, group, order[j]);
      var choice := FirstJoint(fixed, sorted, order);
      assert Suits(fixed, sorted, order[i]);
      var k :| 0 <= k < |order| && order[k] == choice.value && Suits(fixed, sorted, order[k])
               && forall j | 0 <= j < k :: !Suits(fixed, sorted, order[j]);
      assert k == i;
    }
  }

  /** The pin of a group is accepted exactly when the report says so. */
  lemma GroupEntryIs(globals: seq<GlobalRecord>, groups: seq<Group>, o: Overrides, order: seq<Strategy>, g: nat, e: Entry)
    requires Strategy.Unhandled !in order && KeysParse(o) && DisjointGroups(groups) && g < |groups|
    ensures AcceptedFor(Report(globals, groups, o, order), GroupScope(groups[g].id), e) <==>
              var pin := FindGroupPin(o.groups, groups[g].id);
              pin.Some? && Accepted(e.outcome)
              && e == GroupEntry(FixedPart(Base(globals, order)), Canonical(groups[g]), pin.value, order)
  {
    var fixed, sorted := FixedPart(Base(globals, order)), CanonicalGroups(groups);
    var scope := GroupScope(groups[g].id);
    MatchedEntriesAre(fixed, sorted, o.groups, order);
    UnmatchedEntriesAre(sorted, o.groups);
    var pinned := PinEntries(fixed, SettledGroups(globals, groups, o.groups, order), o.globals, order);
    PinEntriesAt(fixed, SettledGroups(globals, groups, o.groups, order), o.globals, order);
    assert forall x | x in pinned :: x.scope.GlobalScope?;
    if AcceptedFor(Report(globals, groups, o, order), scope, e) {
      assert e in MatchedEntries(fixed, sorted, o.groups, order);
      var h :| 0 <= h < |sorted| && FindGroupPin(o.groups, sorted[h].id).Some?
               && e == GroupEntry(fixed, sorted[h], FindGroupPin(o.groups, sorted[h].id).value, order);
      assert groups[h].id == groups[g].id;
      assert h == g;
    }
    assert sorted[g] == Canonical(groups[g]) && sorted[g].id == groups[g].id;
  }

  /**
   A group whose pin the report accepts is on the pin's disposition, with every member that has a record, and
   carries the pin.
   */
  lemma AcceptedGroupPinDecides(globals: seq<GlobalRecord>, groups: seq<Group>, o: Overrides, order: seq<Strategy>, g: nat, e: Entry)
    requires Strategy.Unhandled !in order && KeysParse(o) && DistinctKeys(globals) && DisjointGroups(groups) && g < |groups|
    requires AcceptedFor(Report(globals, groups, o, order), GroupScope(groups[g].id), e)
    ensures e.requested.ForStrategy?
    ensures var pin, group := Pin(e.requested.strategy, e.acceptRisk), FinalGroups(globals, groups, o, order)[g];
            && Requests(o, e.scope, pin)
            && group.disposition == Some(pin.disposition) && group.pin == Some(pin)
            && group.provenance == Some(if e.outcome.HonoredAcceptedRisk? then FromOverrideAcceptedRisk else FromOverride)
            && forall i | 0 <= i < |globals| && globals[i].key in groups[g].members ::
                 FinalChoice(globals, groups, o, order, i) == pin.disposition
  {
    GroupEntryIs(globals, groups, o, order, g, e);
    var sorted := CanonicalGroups(groups);
    assert sorted[g] == Canonical(groups[g]) && sorted[g].id == groups[g].id;
    forall i | 0 <= i < |globals| && globals[i].key in groups[g].members
      ensures FinalChoice(globals, groups, o, order, i) == e.requested.strategy
    {
      GroupsAreUniform(globals, groups, o, order, g, i);
    }
  }

  /** Any other group has what it takes by itself, and carries no pin. */
  lemma UnpinnedGroupDecides(globals: seq<GlobalRecord>, groups: seq<Group>, o: Overrides, order: seq<Strategy>, g: nat)
    requires Strategy.Unhandled !in order && KeysParse(o) && DisjointGroups(groups) && g < |groups|
    requires forall e :: !AcceptedFor(Report(globals, groups, o, order), GroupScope(groups[g].id), e)
    ensures var group := FinalGroups(globals, groups, o, order)[g];
            && (forall strategy :: group.disposition == Some(strategy) <==>
                  TakesByItself(FixedPart(Base(globals, order)), groups[g], order, strategy))
            && group.pin == None && group.provenance == if group.disposition.Some? then Some(FromCascade) else None
  {
    var fixed, sorted := FixedPart(Base(globals, order)), CanonicalGroups(groups);
    var pin := FindGroupPin(o.groups, groups[g].id);
    assert sorted[g] == Canonical(groups[g]) && sorted[g].id == groups[g].id;
    if pin.Some? {
      GroupEntryIs(globals, groups, o, order, g, GroupEntry(fixed, Canonical(groups[g]), pin.value, order));
    }
    forall strategy
      ensures IndependentJoint(fixed, Canonical(groups[g]), order) == Some(strategy) <==> TakesByItself(fixed, groups[g], order, strategy)
    {
      IndependentIsTaken(fixed, groups[g], order, strategy);
    }
  }

  // ---------------------------------------------------------------------------------------------
  // Records

  lemma ChoiceOfOwnGroup(groups: seq<Group>, key: nat, g: nat)
    requires DisjointGroups(groups) && g < |groups| && key in groups[g].members
    ensures ChoiceFor(groups, key) == groups[g].disposition
  {
    OwnGroup(groups, g, key);
  }

  /** The choice a record is put on is that of the group that lists it. */
  lemma ChoiceIsGroups(globals: seq<GlobalRecord>, groups: seq<Group>, o: Overrides, order: seq<Strategy>, key: nat)
    requires Strategy.Unhandled !in order && DisjointGroups(groups)
    ensures var choice := ChoiceFor(SettledGroups(globals, groups, o.groups, order), key);
            && (forall g | 0 <= g < |groups| && key in groups[g].members :: choice == FinalGroups(globals, groups, o, order)[g].disposition)
            && ((forall g | 0 <= g < |groups| :: key !in groups[g].members) ==> choice == None)
  {
    var settled := SettledGroups(globals, groups, o.groups, order);
    CanonicalDisjoint(groups);
    ResolvedDisjoint(FixedPart(Base(globals, order)), CanonicalGroups(groups), o.groups, order);
    forall g | 0 <= g < |groups|
      ensures key in settled[g].members <==> key in groups[g].members
      ensures FinalGroups(globals, groups, o, order)[g].disposition == settled[g].disposition
    {
      assert settled[g].members == Canonical(groups[g]).members;
    }
    hide SettledGroups, FinalGroups, DisjointGroups;
    forall g | 0 <= g < |groups| && key in groups[g].members
      ensures ChoiceFor(settled, key) == settled[g].disposition
    {
      ChoiceOfOwnGroup(settled, key, g);
    }
    var at := GroupOf(settled, key);
    assert at.Some? ==> key in groups[at.value].members;
  }

  /** The pin of a record is accepted exactly when the report says so. */
  lemma PinEntryIs(globals: seq<GlobalRecord>, groups: seq<Group>, o: Overrides, order: seq<Strategy>, i: nat, e: Entry)
    requires Strategy.Unhandled !in order && KeysParse(o) && OverridesOk(o) && DistinctKeys(globals) && i < |globals|
    ensures AcceptedFor(Report(globals, groups, o, order), GlobalScope(globals[i].key), e) <==>
              var pin := FindGlobalPin(o.globals, globals[i].key);
              pin.Some? && Accepted(e.outcome)
              && e == PinEntry(FixedPart(Base(globals, order))[i], pin.value,
                               ChoiceFor(SettledGroups(globals, groups, o.groups, order), globals[i].key), order)
  {
    var fixed, settled := FixedPart(Base(globals, order)), SettledGroups(globals, groups, o.groups, order);
    var scope, pin := GlobalScope(globals[i].key), FindGlobalPin(o.globals, globals[i].key);
    var pinned := PinEntries(fixed, settled, o.globals, order);
    PinEntriesAt(fixed, settled, o.globals, order);
    FindSelf(globals, order, i);
    if AcceptedFor(Report(globals, groups, o, order), scope, e) {
      MatchedEntriesAre(fixed, CanonicalGroups(groups), o.groups, order);
      UnmatchedEntriesAre(CanonicalGroups(groups), o.groups);
      assert e in pinned;
      var k :| 0 <= k < |pinned| && pinned[k] == e;
      assert o.globals[k].key == Some(globals[i].key) && pin.Some?;
      var l :| 0 <= l < |o.globals| && o.globals[l] == GlobalPin(Some(globals[i].key), pin.value);
      assert k == l;
    }
    if pin.Some? {
      var l :| 0 <= l < |o.globals| && o.globals[l] == GlobalPin(Some(globals[i].key), pin.value);
      assert pinned[l] in pinned && pinned[l] == NextEntry(fixed, settled, o.globals[l], order);
    }
  }

  /** A record whose pin the report accepts is on the pin's disposition and carries the pin. */
  lemma AcceptedPinDecides(globals: seq<GlobalRecord>, groups: seq<Group>, o: Overrides, order: seq<Strategy>, i: nat, e: Entry)
    requires Strategy.Unhandled !in order && KeysParse(o) && OverridesOk(o) && DistinctKeys(globals) && i < |globals|
    requires AcceptedFor(Report(globals, groups, o, order), GlobalScope(globals[i].key), e)
    ensures e.requested.ForStrategy?
    ensures var pin, d := Pin(e.requested.strategy, e.acceptRisk), FinalGlobals(globals, groups, o, order)[i].disposition.value;
            && Requests(o, e.scope, pin) && d.chosen == pin.disposition && d.pin == Some(pin)
            && d.provenance == if e.outcome.HonoredAcceptedRisk? then FromOverrideAcceptedRisk else FromOverride
  {
    PinEntryIs(globals, groups, o, order, i, e);
    FindSelf(globals, order, i);
  }

  /** Any other record is on its group's disposition if there is one, else on its independent choice. */
  lemma UnpinnedRecordDecides(globals: seq<GlobalRecord>, groups: seq<Group>, o: Overrides, order: seq<Strategy>, i: nat)
    requires Strategy.Unhandled !in order && KeysParse(o) && OverridesOk(o) && DistinctKeys(globals) && DisjointGroups(groups) && i < |globals|
    requires forall e :: !AcceptedFor(Report(globals, groups, o, order), GlobalScope(globals[i].key), e)
    ensures var d := FinalGlobals(globals, groups, o, order)[i].disposition.value;
            && (forall g | 0 <= g < |groups| && globals[i].key in groups[g].members ::
                  var disposition := FinalGroups(globals, groups, o, order)[g].disposition;
                  d.chosen == if disposition.Some? then disposition.value else d.cascadeChosen)
            && ((forall g | 0 <= g < |groups| :: globals[i].key !in groups[g].members) ==> d.chosen == d.cascadeChosen)
            && d.pin == None && d.provenance == if d.chosen == d.cascadeChosen then FromCascade else GroupConstraint
  {
    var settled := SettledGroups(globals, groups, o.groups, order);
    ChoiceIsGroups(globals, groups, o, order, globals[i].key);
    FindSelf(globals, order, i);
    var pin := FindGlobalPin(o.globals, globals[i].key);
    if pin.Some? {
      var e := PinEntry(FixedPart(Base(globals, order))[i], pin.value, ChoiceFor(settled, globals[i].key), order);
      PinEntryIs(globals, groups, o, order, i, e);
    }
  }
}
