/** What the policy guarantees whatever the overrides say. */
module PolicyLaws {
  import opened Sorting
  import opened Guards
  import opened Manifests
  import opened Policy

  // ---------------------------------------------------------------------------------------------
  // Group verdicts, member by member

  /** The member has a record that does not rule the strategy out. */
  ghost predicate Pinnable(fixed: seq<Fixed>, k: nat, strategy: Strategy) {
    Find(fixed, k).Some? && UnavailableOutcome(strategy, fixed[Find(fixed, k).value].facts).None?
  }

  lemma {:induction false} AvailableMembers(fixed: seq<Fixed>, members: seq<nat>, strategy: Strategy)
    ensures FirstUnavailable(fixed, members, strategy).None? <==> forall k: nat | k in members :: Pinnable(fixed, k, strategy)
  {
    if members != [] {
      AvailableMembers(fixed, members[1..], strategy);
      assert members == [members[0]] + members[1..];
      assert Pinnable(fixed, members[0], strategy) <==>
          Find(fixed, members[0]).Some? && UnavailableOutcome(strategy, fixed[Find(fixed, members[0]).value].facts).None?;
      assert forall k: nat :: k in members <==> k == members[0] || k in members[1..];
    }
  }

  /** The failures of one member. */
  function FailuresAt(fixed: seq<Fixed>, k: nat, strategy: Strategy): set<Failure>
    requires !strategy.Unhandled?
  {
    if Find(fixed, k).None? then {} else GuardFailures(k, Evaluate(strategy, fixed[Find(fixed, k).value].facts))
  }

  lemma {:induction false} MemberFailuresAre(fixed: seq<Fixed>, members: seq<nat>, strategy: Strategy)
    requires !strategy.Unhandled?
    ensures forall f :: f in MemberFailures(fixed, members, strategy) <==>
              exists k: nat :: k in members && f in FailuresAt(fixed, k, strategy)
  {
    if members != [] {
      MemberFailuresAre(fixed, members[1..], strategy);
      assert members == [members[0]] + members[1..];
      forall f
        ensures f in MemberFailures(fixed, members, strategy) <==>
                  exists k: nat :: k in members && f in FailuresAt(fixed, k, strategy)
      {
        assert FailuresAt(fixed, members[0], strategy) + MemberFailures(fixed, members[1..], strategy)
            == MemberFailures(fixed, members, strategy);
        if k: nat :| k in members && f in FailuresAt(fixed, k, strategy) {
          assert k == members[0] || k in members[1..];
        }
        if f in MemberFailures(fixed, members[1..], strategy) {
          var k: nat :| k in members[1..] && f in FailuresAt(fixed, k, strategy);
          assert k in members;
        } else if f in FailuresAt(fixed, members[0], strategy) {
          assert members[0] in members;
        }
      }
    }
  }

  lemma NoFailuresIsApplicable(fixed: seq<Fixed>, k: nat, strategy: Strategy)
    requires !strategy.Unhandled? && Find(fixed, k).Some?
    ensures FailuresAt(fixed, k, strategy) == {} <==> Eligible(strategy, fixed[Find(fixed, k).value].facts)
  {
    var result := Evaluate(strategy, fixed[Find(fixed, k).value].facts);
    ApplicableIsEligible(strategy, fixed[Find(fixed, k).value].facts);
    match result
    case Applicable =>
    case GuardsFailed(guards) => assert Failure(k, guards[0]) in FailuresAt(fixed, k, strategy);
    case NotComputed(fact) => assert Failure(k, fact) in FailuresAt(fixed, k, strategy);
  }

  /** A joint strategy without failures suits every member by itself. */
  lemma NoGroupFailures(fixed: seq<Fixed>, group: Group, strategy: Strategy)
    requires Joint(strategy) && GroupFailures(fixed, group, strategy) == {}
    ensures !SupportFails(group, strategy)
    ensures forall k: nat | k in group.members && Find(fixed, k).Some? :: Eligible(strategy, fixed[Find(fixed, k).value].facts)
  {
    MemberFailuresAre(fixed, group.members, strategy);
    forall k: nat | k in group.members && Find(fixed, k).Some?
      ensures Eligible(strategy, fixed[Find(fixed, k).value].facts)
    {
      forall f
        ensures f !in FailuresAt(fixed, k, strategy)
      {
        assert f !in MemberFailures(fixed, group.members, strategy);
      }
      NoFailuresIsApplicable(fixed, k, strategy);
    }
    SupportFailsShows(fixed, group, strategy);
  }

  lemma SupportFailsShows(fixed: seq<Fixed>, group: Group, strategy: Strategy)
    requires Joint(strategy)
    ensures SupportFails(group, strategy) ==> GroupFailures(fixed, group, strategy) != {}
  {
    if SupportFails(group, strategy) {
      assert Failure(group.members[0], if strategy.OnceLock? then GroupCommonPoint else GroupReentrancy)
          in GroupFailures(fixed, group, strategy);
    }
  }

  /** A group's choice is a configured joint strategy or, by a pin, none at all; it never takes in a declared atomic. */
  lemma GroupChoiceLaws(fixed: seq<Fixed>, group: Group, pin: Option<Pin>, order: seq<Strategy>)
    ensures var choice := GroupChoice(fixed, group, pin, order);
            choice.Some? ==> choice.value.Unhandled? || (Joint(choice.value) && choice.value in order)
    ensures var choice := GroupChoice(fixed, group, pin, order);
            choice.Some? && Joint(choice.value) ==>
              forall k: nat | k in group.members && Find(fixed, k).Some? :: !fixed[Find(fixed, k).value].facts.atomicDeclaration
  {
    var choice := GroupChoice(fixed, group, pin, order);
    if choice.Some? && Joint(choice.value) {
      if pin.Some? && Accepted(JudgeGroupPin(fixed, group, pin.value, order).outcome) {
        AvailableMembers(fixed, group.members, choice.value);
        forall k: nat | k in group.members && Find(fixed, k).Some?
          ensures !fixed[Find(fixed, k).value].facts.atomicDeclaration
        {
          assert Pinnable(fixed, k, choice.value);
          AvailableIsComputed(choice.value, fixed[Find(fixed, k).value].facts);
        }
      } else {
        NoGroupFailures(fixed, group, choice.value);
      }
    }
  }

  /** Accepting a risk never makes up for missing joint support or for a member that cannot be pinned. */
  lemma AcceptedPinIsSupported(fixed: seq<Fixed>, group: Group, pin: Pin, order: seq<Strategy>)
    requires Joint(pin.disposition) && Accepted(JudgeGroupPin(fixed, group, pin, order).outcome)
    ensures SupportOf(group, pin.disposition) == Some(Supported)
    ensures forall k: nat | k in group.members :: Pinnable(fixed, k, pin.disposition)
    ensures JudgeGroupPin(fixed, group, pin, order).outcome.Honored? <==>
              forall k: nat | k in group.members :: FailuresAt(fixed, k, pin.disposition) == {}
  {
    AvailableMembers(fixed, group.members, pin.disposition);
    MemberFailuresAre(fixed, group.members, pin.disposition);
    var failures := MemberFailures(fixed, group.members, pin.disposition);
    if failures == {} {
      assert forall k: nat, f | k in group.members && f in FailuresAt(fixed, k, pin.disposition) :: f in failures;
    } else {
      var f :| f in failures;
      var k: nat :| k in group.members && f in FailuresAt(fixed, k, pin.disposition);
    }
  }

  /** Without a pin a group only takes a strategy that every member could take and none would rather not. */
  lemma UnpinnedChoiceIsSafe(fixed: seq<Fixed>, group: Group, order: seq<Strategy>)
    ensures var choice := IndependentJoint(fixed, group, order);
            choice.Some? ==>
              && Joint(choice.value) && !SupportFails(group, choice.value)
              && forall k: nat | k in group.members ::
                   Yields(fixed, k) && Eligible(choice.value, fixed[Find(fixed, k).value].facts)
  {
    var choice := IndependentJoint(fixed, group, order);
    if choice.Some? {
      NoGroupFailures(fixed, group, choice.value);
    }
  }

  // ---------------------------------------------------------------------------------------------
  // Every run

  lemma FindSelf(globals: seq<GlobalRecord>, order: seq<Strategy>, i: nat)
    requires Strategy.Unhandled !in order && DistinctKeys(globals) && i < |globals|
    ensures Find(FixedPart(Base(globals, order)), globals[i].key) == Some(i)
    ensures FixedPart(Base(globals, order))[i] == Fixed(globals[i].key, globals[i].facts, Cascade(order, globals[i].facts).0)
  {
    var fixed := FixedPart(Base(globals, order));
    assert fixed[i].key == globals[i].key;
    assert forall j | 0 <= j < |fixed| :: fixed[j].key == globals[j].key;
  }

  lemma OwnGroup(groups: seq<Group>, g: nat, key: nat)
    requires DisjointGroups(groups) && g < |groups| && key in groups[g].members
    ensures GroupOf(groups, key) == Some(g)
  {
  }

  ghost function FinalChoice(globals: seq<GlobalRecord>, groups: seq<Group>, o: Overrides, order: seq<Strategy>, i: nat): Strategy
    requires Strategy.Unhandled !in order && i < |globals|
  {
    FinalGlobals(globals, groups, o, order)[i].disposition.value.chosen
  }

  lemma ResolvedDisjoint(fixed: seq<Fixed>, groups: seq<Group>, pins: seq<GroupPin>, order: seq<Strategy>)
    requires DisjointGroups(groups)
    ensures DisjointGroups(Resolved(fixed, groups, pins, order))
  {
    var resolved := Resolved(fixed, groups, pins, order);
    assert forall g | 0 <= g < |groups| :: resolved[g].members == groups[g].members && resolved[g].id == groups[g].id;
  }

  /** Every group with a disposition has all its members on it, even after member pins. */
  lemma GroupsAreUniform(globals: seq<GlobalRecord>, groups: seq<Group>, o: Overrides, order: seq<Strategy>, g: nat, i: nat)
    requires Strategy.Unhandled !in order && DistinctKeys(globals) && DisjointGroups(groups)
    requires g < |groups| && i < |globals| && globals[i].key in groups[g].members
    requires FinalGroups(globals, groups, o, order)[g].disposition.Some?
    ensures Some(FinalChoice(globals, groups, o, order, i)) == FinalGroups(globals, groups, o, order)[g].disposition
  {
    var resolved := SettledGroups(globals, groups, o.groups, order);
    CanonicalDisjoint(groups);
    ResolvedDisjoint(FixedPart(Base(globals, order)), CanonicalGroups(groups), o.groups, order);
    assert resolved[g].members == Canonical(groups[g]).members;
    OwnGroup(resolved, g, globals[i].key);
    assert ChoiceFor(resolved, globals[i].key) == resolved[g].disposition;
  }

  /** What the group of a key, if any, may choose for it. */
  lemma ChoiceForLaws(globals: seq<GlobalRecord>, groups: seq<Group>, pins: seq<GroupPin>, order: seq<Strategy>, i: nat)
    requires Strategy.Unhandled !in order && DistinctKeys(globals) && i < |globals|
    ensures var choice := ChoiceFor(SettledGroups(globals, groups, pins, order), globals[i].key);
            choice.Some? ==>
              && (choice.value.Unhandled? || (Joint(choice.value) && choice.value in order))
              && (globals[i].facts.atomicDeclaration ==> choice.value.Unhandled?)
  {
    var fixed := FixedPart(Base(globals, order));
    var resolved := SettledGroups(globals, groups, pins, order);
    var at := GroupOf(resolved, globals[i].key);
    if at.Some? {
      var group := Canonical(groups[at.value]);
      assert resolved[at.value].members == group.members;
      GroupChoiceLaws(fixed, group, FindGroupPin(pins, group.id), order);
      FindSelf(globals, order, i);
    }
  }

  /**
   Every choice other than `Unhandled` is a configured strategy; only a declared atomic ends atomic, and
   it ends atomic or unhandled, even with accepted risks.
   */
  lemma FinalChoiceLaws(globals: seq<GlobalRecord>, groups: seq<Group>, o: Overrides, order: seq<Strategy>, i: nat)
    requires Strategy.Unhandled !in order && DistinctKeys(globals) && i < |globals|
    ensures var chosen := FinalChoice(globals, groups, o, order, i);
            && (chosen.Unhandled? || chosen in order)
            && (chosen.Atomic? ==> globals[i].facts.atomicDeclaration)
            && (globals[i].facts.atomicDeclaration ==> chosen.Atomic? || chosen.Unhandled?)
  {
    hide SettledGroups;
    var choice := ChoiceFor(SettledGroups(globals, groups, o.groups, order), globals[i].key);
    ChoiceForLaws(globals, groups, o.groups, order, i);
    CascadeAtomic(order, globals[i].facts);
    var pin := FindGlobalPin(o.globals, globals[i].key);
    if pin.Some? && Accepted(JudgePin(globals[i].key, globals[i].facts, pin.value, choice, order).outcome)
       && !pin.value.disposition.Unhandled? {
      AvailableIsComputed(pin.value.disposition, globals[i].facts);
    }
  }

  /** Overrides never touch the facts, the independent choice or its trace, the failed prefix before it. */
  lemma HistoryIsKept(globals: seq<GlobalRecord>, groups: seq<Group>, o: Overrides, order: seq<Strategy>, i: nat)
    requires Strategy.Unhandled !in order && i < |globals|
    ensures var g := FinalGlobals(globals, groups, o, order)[i];
            && g.key == globals[i].key && g.facts == globals[i].facts
            && (g.disposition.value.cascadeChosen, g.disposition.value.trace) == Cascade(order, globals[i].facts)
            && g.disposition.value.demotion.None?
  {
  }

  /** A record without a pin and without a group choice keeps its independent choice. */
  lemma UntouchedKeepsCascade(globals: seq<GlobalRecord>, groups: seq<Group>, o: Overrides, order: seq<Strategy>, i: nat)
    requires Strategy.Unhandled !in order && i < |globals|
    requires FindGlobalPin(o.globals, globals[i].key).None?
    requires ChoiceFor(FinalGroups(globals, groups, o, order), globals[i].key).None?
    ensures FinalGlobals(globals, groups, o, order)[i] == Independent(globals[i], order)
  {
    var resolved := SettledGroups(globals, groups, o.groups, order);
    SameGroupOf(resolved, CanonicalGroups(resolved), globals[i].key);
  }

  lemma {:induction false} SameGroupOf(a: seq<Group>, b: seq<Group>, key: nat)
    requires |a| == |b|
    requires forall g | 0 <= g < |a| :: key in a[g].members <==> key in b[g].members
    requires forall g | 0 <= g < |a| :: a[g].disposition == b[g].disposition
    ensures GroupOf(a, key) == GroupOf(b, key) && ChoiceFor(a, key) == ChoiceFor(b, key)
  {
  }

  // ---------------------------------------------------------------------------------------------
  // The report

  /** The overrides, as the report names them. */
  ghost predicate Overridden(o: Overrides, scope: Scope) {
    match scope
    case GroupScope(id) => exists i :: 0 <= i < |o.groups| && o.groups[i].id == id
    case GlobalScope(key) => exists i :: 0 <= i < |o.globals| && o.globals[i].key == Some(key)
    case CascadeScope => o.cascade.Some?
  }

  ghost predicate Reported(entries: seq<Entry>, scope: Scope) {
    exists i :: 0 <= i < |entries| && entries[i].scope == scope
  }

  ghost predicate DistinctScopes(entries: seq<Entry>) {
    forall i, j | 0 <= i < j < |entries| :: entries[i].scope != entries[j].scope
  }

  lemma ReportedConcat(a: seq<Entry>, b: seq<Entry>, scope: Scope)
    ensures Reported(a + b, scope) <==> Reported(a, scope) || Reported(b, scope)
  {
    if i :| 0 <= i < |a| && a[i].scope == scope {
      assert (a + b)[i].scope == scope;
    }
    if i :| 0 <= i < |b| && b[i].scope == scope {
      assert (a + b)[|a| + i].scope == scope;
    }
  }

  lemma DistinctConcat(a: seq<Entry>, b: seq<Entry>)
    requires DistinctScopes(a) && DistinctScopes(b)
    requires forall scope :: !(Reported(a, scope) && Reported(b, scope))
    ensures DistinctScopes(a + b)
  {
    forall i, j | 0 <= i < |a| && 0 <= j < |b|
      ensures a[i].scope != b[j].scope
    {
      assert Reported(a, a[i].scope);
      assert Reported(b, b[j].scope);
    }
  }

  lemma {:induction false} MatchedScopes(fixed: seq<Fixed>, groups: seq<Group>, pins: seq<GroupPin>, order: seq<Strategy>)
    requires forall i, j | 0 <= i < j < |groups| :: groups[i].id != groups[j].id
    ensures DistinctScopes(MatchedEntries(fixed, groups, pins, order))
    ensures forall scope :: Reported(MatchedEntries(fixed, groups, pins, order), scope) <==>
              scope.GroupScope? && HasGroup(groups, scope.id) && FindGroupPin(pins, scope.id).Some?
  {
    if groups != [] {
      var rest, group := groups[..|groups| - 1], groups[|groups| - 1];
      MatchedScopes(fixed, rest, pins, order);
      HasGroupNext(rest, group);
      assert groups == rest + [group];
      assert !HasGroup(rest, group.id);
      var pin := FindGroupPin(pins, group.id);
      var added := if pin.Some? then [GroupEntry(fixed, group, pin.value, order)] else [];
      forall scope
        ensures Reported(added, scope) <==> pin.Some? && scope == GroupScope(group.id)
      {
        assert pin.Some? ==> added[0].scope == GroupScope(group.id);
      }
      DistinctConcat(MatchedEntries(fixed, rest, pins, order), added);
      forall scope
        ensures Reported(MatchedEntries(fixed, groups, pins, order), scope) <==>
                  scope.GroupScope? && HasGroup(groups, scope.id) && FindGroupPin(pins, scope.id).Some?
      {
        ReportedConcat(MatchedEntries(fixed, rest, pins, order), added, scope);
      }
    }
  }

  lemma {:induction false} UnmatchedScopes(groups: seq<Group>, pins: seq<GroupPin>)
    requires forall i, j | 0 <= i < j < |pins| :: pins[i].id != pins[j].id
    ensures DistinctScopes(UnmatchedEntries(groups, pins))
    ensures forall scope :: Reported(UnmatchedEntries(groups, pins), scope) <==>
              scope.GroupScope? && !HasGroup(groups, scope.id) && FindGroupPin(pins, scope.id).Some?
  {
    if pins != [] {
      var rest, pin := pins[..|pins| - 1], pins[|pins| - 1];
      UnmatchedScopes(groups, rest);
      forall id: nat
        ensures FindGroupPin(pins, id).Some? <==> FindGroupPin(rest, id).Some? || id == pin.id
      {
        FindGroupPinSome(pins, id);
        FindGroupPinSome(rest, id);
      }
      var added := if HasGroup(groups, pin.id) then [] else [UnmatchedGroup(pin)];
      forall scope
        ensures Reported(added, scope) <==> !HasGroup(groups, pin.id) && scope == GroupScope(pin.id)
      {
        assert !HasGroup(groups, pin.id) ==> added[0].scope == GroupScope(pin.id);
      }
      FindGroupPinSome(rest, pin.id);
      DistinctConcat(UnmatchedEntries(groups, rest), added);
      forall scope
        ensures Reported(UnmatchedEntries(groups, pins), scope) <==>
                  scope.GroupScope? && !HasGroup(groups, scope.id) && FindGroupPin(pins, scope.id).Some?
      {
        ReportedConcat(UnmatchedEntries(groups, rest), added, scope);
      }
    }
  }

  lemma FindGroupPinSome(pins: seq<GroupPin>, id: nat)
    ensures FindGroupPin(pins, id).Some? <==> exists i :: 0 <= i < |pins| && pins[i].id == id
  {
  }

  lemma {:induction false} PinEntriesAt(fixed: seq<Fixed>, groups: seq<Group>, pins: seq<GlobalPin>, order: seq<Strategy>)
    requires forall i | 0 <= i < |pins| :: pins[i].key.Some?
    ensures |PinEntries(fixed, groups, pins, order)| == |pins|
    ensures forall i | 0 <= i < |pins| ::
              PinEntries(fixed, groups, pins, order)[i] == NextEntry(fixed, groups, pins[i], order)
              && PinEntries(fixed, groups, pins, order)[i].scope == GlobalScope(pins[i].key.value)
  {
    if pins != [] {
      PinEntriesAt(fixed, groups, pins[..|pins| - 1], order);
    }
  }

  lemma PinScopes(fixed: seq<Fixed>, groups: seq<Group>, o: Overrides, order: seq<Strategy>)
    requires KeysParse(o) && OverridesOk(o)
    ensures DistinctScopes(PinEntries(fixed, groups, o.globals, order))
    ensures forall scope :: Reported(PinEntries(fixed, groups, o.globals, order), scope) <==> scope.GlobalScope? && Overridden(o, scope)
  {
    PinEntriesAt(fixed, groups, o.globals, order);
    var entries := PinEntries(fixed, groups, o.globals, order);
    forall scope: Scope | scope.GlobalScope? && Overridden(o, scope)
      ensures Reported(entries, scope)
    {
      var i :| 0 <= i < |o.globals| && o.globals[i].key == Some(scope.key);
      assert entries[i].scope == scope;
    }
    forall scope | Reported(entries, scope)
      ensures scope.GlobalScope? && Overridden(o, scope)
    {
      var i :| 0 <= i < |entries| && entries[i].scope == scope;
      assert o.globals[i].key == Some(scope.key);
    }
  }

  lemma CascadeScopes(o: Overrides)
    ensures DistinctScopes(CascadeEntry(o.cascade))
    ensures forall scope :: Reported(CascadeEntry(o.cascade), scope) <==> scope.CascadeScope? && Overridden(o, scope)
  {
    if o.cascade.Some? {
      assert CascadeEntry(o.cascade)[0].scope == CascadeScope;
    }
  }

  lemma GroupScopes(fixed: seq<Fixed>, groups: seq<Group>, o: Overrides, order: seq<Strategy>)
    requires OverridesOk(o) && DisjointGroups(groups)
    ensures var part := MatchedEntries(fixed, groups, o.groups, order) + UnmatchedEntries(groups, o.groups);
            DistinctScopes(part) && forall scope :: Reported(part, scope) <==> scope.GroupScope? && Overridden(o, scope)
  {
    var named, unnamed := MatchedEntries(fixed, groups, o.groups, order), UnmatchedEntries(groups, o.groups);
    MatchedScopes(fixed, groups, o.groups, order);
    UnmatchedScopes(groups, o.groups);
    DistinctConcat(named, unnamed);
    forall scope
      ensures Reported(named + unnamed, scope) <==> scope.GroupScope? && Overridden(o, scope)
    {
      ReportedConcat(named, unnamed, scope);
      if scope.GroupScope? {
        FindGroupPinSome(o.groups, scope.id);
      }
    }
  }

  lemma ThreeParts(a: seq<Entry>, b: seq<Entry>, c: seq<Entry>, o: Overrides)
    requires DistinctScopes(a) && DistinctScopes(b) && DistinctScopes(c)
    requires forall scope :: Reported(a, scope) <==> scope.GroupScope? && Overridden(o, scope)
    requires forall scope :: Reported(b, scope) <==> scope.GlobalScope? && Overridden(o, scope)
    requires forall scope :: Reported(c, scope) <==> scope.CascadeScope? && Overridden(o, scope)
    ensures DistinctScopes(a + b + c) && forall scope :: Reported(a + b + c, scope) <==> Overridden(o, scope)
  {
    forall scope
      ensures Reported(a + b, scope) <==> Reported(a, scope) || Reported(b, scope)
      ensures Reported(a + b + c, scope) <==> Overridden(o, scope)
    {
      ReportedConcat(a, b, scope);
      ReportedConcat(a + b, c, scope);
    }
    DistinctConcat(a, b);
    DistinctConcat(a + b, c);
  }

  /** Every override is reported exactly once, and nothing else is. */
  lemma ReportIsComplete(globals: seq<GlobalRecord>, groups: seq<Group>, o: Overrides, order: seq<Strategy>)
    requires Strategy.Unhandled !in order && KeysParse(o) && OverridesOk(o) && DisjointGroups(groups)
    ensures DistinctScopes(Report(globals, groups, o, order))
    ensures forall scope :: Reported(Report(globals, groups, o, order), scope) <==> Overridden(o, scope)
  {
    hide SettledGroups, MatchedEntries, UnmatchedEntries, PinEntries, CascadeEntry, DistinctScopes, Reported, Overridden;
    var fixed, sorted, settled := FixedPart(Base(globals, order)), CanonicalGroups(groups), SettledGroups(globals, groups, o.groups, order);
    CanonicalDisjoint(groups);
    GroupScopes(fixed, sorted, o, order);
    PinScopes(fixed, settled, o, order);
    CascadeScopes(o);
    ThreeParts(MatchedEntries(fixed, sorted, o.groups, order) + UnmatchedEntries(sorted, o.groups),
               PinEntries(fixed, settled, o.globals, order), CascadeEntry(o.cascade), o);
  }

  /** The audit records of a run are exactly its accepted risks, one for one. */
  lemma {:induction false} RisksAreAccepted(entries: seq<Entry>)
    ensures |Risks(entries)| == CountOf(entries, HonoredAcceptedRisk)
    ensures forall a :: a in Risks(entries) <==>
              exists e :: e in entries && e.outcome.HonoredAcceptedRisk? && a == AuditRecord(OverrideSource, e.scope, e.failures)
  {
    if entries != [] {
      var rest, last := entries[..|entries| - 1], entries[|entries| - 1];
      RisksAreAccepted(rest);
      assert entries == rest + [last];
      forall a
        ensures a in Risks(entries) <==>
                  exists e :: e in entries && e.outcome.HonoredAcceptedRisk? && a == AuditRecord(OverrideSource, e.scope, e.failures)
      {
        if e :| e in entries && e.outcome.HonoredAcceptedRisk? && a == AuditRecord(OverrideSource, e.scope, e.failures) {
          assert e in rest || e == last;
        }
        if a in Risks(rest) {
          var e :| e in rest && e.outcome.HonoredAcceptedRisk? && a == AuditRecord(OverrideSource, e.scope, e.failures);
          assert e in entries;
        }
      }
    }
  }
}
