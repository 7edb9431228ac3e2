/** What every verdict on a pin means, and what a run without accepted risks guarantees. */
module PolicySafety {
  import opened Sorting
  import opened Guards
  import opened Manifests
  import opened Policy
  import opened PolicyLaws

  // ---------------------------------------------------------------------------------------------
  // Pins on a global

  /** The slot holds a certificate, or a refusal that comes with a recipe. */
  predicate HasRecipe(slot: Option<Certificate>) {
    slot.Some? && (slot.value.Certified? || slot.value.hasRecipe)
  }

  /** What has to be there before a pin on `strategy` is judged by its guard. */
  ghost predicate CanBePinned(strategy: Strategy, facts: Facts) {
    match strategy
    case Immutable =>
      && !facts.source.InvalidContract? && !facts.atomicDeclaration
      && (facts.source.Contract? ==>
            && facts.source.declared && !facts.source.containsObjectPointer && !facts.source.sectionInitializer
            && forall use | use in facts.source.uses :: !use.Assignment? && !use.Update? && !use.Unclassified?)
    case OnceLock => facts.source.NoContract? && !facts.atomicDeclaration && HasRecipe(facts.phaseStationarity)
    case Mutex => facts.source.NoContract? && !facts.atomicDeclaration && HasRecipe(facts.mutexEligibility)
    case Localize =>
      && !facts.source.InvalidContract? && !facts.atomicDeclaration && facts.localization.Some?
      && (facts.source.Contract? ==> !facts.localization.value.sourceBlocked)
    case Atomic => !facts.source.InvalidContract? && facts.atomicDeclaration
    case Unhandled => true
  }

  lemma AvailableIsPinnable(strategy: Strategy, facts: Facts)
    ensures UnavailableOutcome(strategy, facts).None? <==> CanBePinned(strategy, facts)
  {
    if strategy.Immutable? && facts.source.Contract? {
      assert SourceImmutableFailures(facts.source) == [] <==>
          && facts.source.declared && !facts.source.containsObjectPointer && !facts.source.sectionInitializer
          && Assignment !in facts.source.uses && Update !in facts.source.uses && Unclassified !in facts.source.uses;
    }
  }

  /** What is ruled out for good: the retained source forbids it, or its certificate failed and names no way out. */
  ghost predicate NoRecipe(strategy: Strategy, facts: Facts) {
    match strategy
    case Immutable => facts.source.InvalidContract? || (facts.source.Contract? && exists guard :: SourceFault(guard, facts.source))
    case OnceLock => !facts.source.NoContract? || (!facts.atomicDeclaration && FailedForGood(facts.phaseStationarity))
    case Mutex => !facts.source.NoContract? || (!facts.atomicDeclaration && FailedForGood(facts.mutexEligibility))
    case Localize =>
      || facts.source.InvalidContract?
      || (facts.source.Contract? && facts.localization.Some? && facts.localization.value.sourceBlocked)
    case Atomic => facts.source.InvalidContract?
    case Unhandled => false
  }

  predicate FailedForGood(slot: Option<Certificate>) {
    slot.Some? && slot.value.Failed? && !slot.value.hasRecipe
  }

  /** Which of the two refusals a strategy gets that cannot be pinned. */
  lemma RefusalIs(strategy: Strategy, facts: Facts)
    ensures UnavailableOutcome(strategy, facts) ==
              if CanBePinned(strategy, facts) then None
              else Some(if NoRecipe(strategy, facts) then RejectedNoRecipe else RejectedUnavailable)
  {
    AvailableIsPinnable(strategy, facts);
    if strategy.Immutable? && facts.source.Contract? {
      var failed := SourceImmutableFailures(facts.source);
      forall guard
        ensures guard in failed <==> SourceFault(guard, facts.source)
      {
        SourceFaultsAre(facts.source, guard);
      }
      if failed != [] {
        assert failed[0] in failed;
      }
    }
  }

  /** The pin does not contradict the group. */
  predicate Agrees(groupChoice: Option<Strategy>, pin: Pin) {
    groupChoice.None? || groupChoice.value == pin.disposition
  }

  /** The pin gets as far as its guard: the group agrees, the strategy is configured and can be pinned. */
  ghost predicate Judged(facts: Facts, pin: Pin, groupChoice: Option<Strategy>, order: seq<Strategy>) {
    && Agrees(groupChoice, pin) && !pin.disposition.Unhandled? && pin.disposition in order
    && CanBePinned(pin.disposition, facts)
  }

  /** When each outcome is given; a pin is accepted at a risk only where its guard is the single obstacle. */
  lemma PinVerdicts(key: nat, facts: Facts, pin: Pin, groupChoice: Option<Strategy>, order: seq<Strategy>)
    ensures var verdict := JudgePin(key, facts, pin, groupChoice, order);
            var judged := Judged(facts, pin, groupChoice, order);
            && (verdict.outcome.Honored? <==>
                  || (Agrees(groupChoice, pin) && pin.disposition.Unhandled?)
                  || (judged && Eligible(pin.disposition, facts)))
            && (verdict.outcome.HonoredAcceptedRisk? <==> judged && !Eligible(pin.disposition, facts) && pin.acceptRisk)
            && (verdict.outcome.Rejected? <==>
                  || !Agrees(groupChoice, pin)
                  || (judged && !Eligible(pin.disposition, facts) && !pin.acceptRisk))
            && (verdict.outcome.RejectedDisabled? <==>
                  Agrees(groupChoice, pin) && !pin.disposition.Unhandled? && pin.disposition !in order)
            && (verdict.outcome.RejectedNoRecipe? <==>
                  && Agrees(groupChoice, pin) && !pin.disposition.Unhandled? && pin.disposition in order
                  && !CanBePinned(pin.disposition, facts) && NoRecipe(pin.disposition, facts))
            && (verdict.outcome.RejectedUnavailable? <==>
                  && Agrees(groupChoice, pin) && !pin.disposition.Unhandled? && pin.disposition in order
                  && !CanBePinned(pin.disposition, facts) && !NoRecipe(pin.disposition, facts))
            && !verdict.outcome.UnmatchedKey?
            && (verdict.failures != {} <==> judged && !Eligible(pin.disposition, facts))
  {
    RefusalIs(pin.disposition, facts);
    if !pin.disposition.Unhandled? {
      ApplicableIsEligible(pin.disposition, facts);
      if UnavailableOutcome(pin.disposition, facts).None? {
        AvailableIsComputed(pin.disposition, facts);
      }
      var result := Evaluate(pin.disposition, facts);
      if result.GuardsFailed? && Judged(facts, pin, groupChoice, order) {
        assert result.guards[0] in result.guards;
        assert Failure(key, result.guards[0]) in JudgePin(key, facts, pin, groupChoice, order).failures;
      }
    }
  }

  /** The failures that come with the verdict of a judged pin are the guards to blame, each under the pinned key. */
  lemma PinFailuresAre(key: nat, facts: Facts, pin: Pin, groupChoice: Option<Strategy>, order: seq<Strategy>, f: Failure)
    ensures f in JudgePin(key, facts, pin, groupChoice, order).failures <==>
              Judged(facts, pin, groupChoice, order) && f.member == key && Blamed(f.guard, pin.disposition, facts)
  {
    RefusalIs(pin.disposition, facts);
    if Judged(facts, pin, groupChoice, order) {
      AvailableIsComputed(pin.disposition, facts);
      GuardsAreBlamed(pin.disposition, facts, f.guard);
    }
    hide Blamed, CanBePinned, NoRecipe, Evaluate, UnavailableOutcome;
  }

  // ---------------------------------------------------------------------------------------------
  // Pins on a group

  /** Every member has a record whose facts let it be pinned. */
  ghost predicate MembersCanBePinned(fixed: seq<Fixed>, members: seq<nat>, strategy: Strategy) {
    forall k: nat | k in members :: Find(fixed, k).Some? && CanBePinned(strategy, fixed[Find(fixed, k).value].facts)
  }

  ghost predicate MembersEligible(fixed: seq<Fixed>, members: seq<nat>, strategy: Strategy) {
    forall k: nat | k in members && Find(fixed, k).Some? :: Eligible(strategy, fixed[Find(fixed, k).value].facts)
  }

  ghost predicate GroupJudged(fixed: seq<Fixed>, group: Group, pin: Pin, order: seq<Strategy>) {
    && Joint(pin.disposition) && pin.disposition in order && SupportOf(group, pin.disposition) == Some(Supported)
    && MembersCanBePinned(fixed, group.members, pin.disposition)
  }

  lemma GroupAvailabilityMeans(fixed: seq<Fixed>, group: Group, strategy: Strategy)
    requires Joint(strategy)
    ensures GroupAvailability(fixed, group, strategy).None? <==>
              SupportOf(group, strategy) == Some(Supported) && MembersCanBePinned(fixed, group.members, strategy)
  {
    AvailableMembers(fixed, group.members, strategy);
    forall k: nat | Find(fixed, k).Some?
      ensures Pinnable(fixed, k, strategy) <==> CanBePinned(strategy, fixed[Find(fixed, k).value].facts)
    {
      AvailableIsPinnable(strategy, fixed[Find(fixed, k).value].facts);
    }
    assert forall k: nat :: Pinnable(fixed, k, strategy) ==> Find(fixed, k).Some?;
  }

  lemma GroupFailuresMean(fixed: seq<Fixed>, group: Group, strategy: Strategy)
    requires Joint(strategy) && SupportOf(group, strategy) == Some(Supported)
    ensures GroupFailures(fixed, group, strategy) == {} <==> MembersEligible(fixed, group.members, strategy)
  {
    MemberFailuresAre(fixed, group.members, strategy);
    forall k: nat | k in group.members && Find(fixed, k).Some?
      ensures FailuresAt(fixed, k, strategy) == {} <==> Eligible(strategy, fixed[Find(fixed, k).value].facts)
    {
      NoFailuresIsApplicable(fixed, k, strategy);
    }
    if f :| f in GroupFailures(fixed, group, strategy) {
      var k: nat :| k in group.members && f in FailuresAt(fixed, k, strategy);
      assert Find(fixed, k).Some? && FailuresAt(fixed, k, strategy) != {};
    } else {
      NoGroupFailures(fixed, group, strategy);
    }
  }

  /** The member has no record, or one whose facts rule the strategy out. */
  ghost predicate Refuses(fixed: seq<Fixed>, k: nat, strategy: Strategy) {
    Find(fixed, k).Some? ==> !CanBePinned(strategy, fixed[Find(fixed, k).value].facts)
  }

  /** The first member in the way, in the order in which the group lists them. */
  ghost predicate FirstRefuses(fixed: seq<Fixed>, members: seq<nat>, strategy: Strategy, i: nat) {
    i < |members| && Refuses(fixed, members[i], strategy) && forall j: nat | j < i :: !Refuses(fixed, members[j], strategy)
  }

  ghost predicate RefusesForGood(fixed: seq<Fixed>, k: nat, strategy: Strategy) {
    Find(fixed, k).Some? && NoRecipe(strategy, fixed[Find(fixed, k).value].facts)
  }

  lemma {:induction false} FirstRefusalDecides(fixed: seq<Fixed>, members: seq<nat>, strategy: Strategy, i: nat)
    requires FirstRefuses(fixed, members, strategy, i)
    ensures FirstUnavailable(fixed, members, strategy) ==
              Some(if RefusesForGood(fixed, members[i], strategy) then RejectedNoRecipe else RejectedUnavailable)
  {
    hide CanBePinned, NoRecipe, UnavailableOutcome;
    if Find(fixed, members[0]).Some? {
      RefusalIs(strategy, fixed[Find(fixed, members[0]).value].facts);
    }
    if i > 0 {
      assert !Refuses(fixed, members[0], strategy);
      assert forall j: nat | j < i - 1 :: members[1..][j] == members[j + 1];
      FirstRefusalDecides(fixed, members[1..], strategy, i - 1);
    }
  }

  /** Whether the obstacle to a joint strategy stays: the first member in the way decides, or else the joint certificate. */
  ghost predicate GroupNoRecipe(fixed: seq<Fixed>, group: Group, strategy: Strategy)
    requires Joint(strategy)
  {
    || (exists i: nat :: FirstRefuses(fixed, group.members, strategy, i) && RefusesForGood(fixed, group.members[i], strategy))
    || (SupportOf(group, strategy).Some? && forall k: nat | k in group.members :: !Refuses(fixed, k, strategy))
  }

  lemma SomeoneIsFirst(fixed: seq<Fixed>, members: seq<nat>, strategy: Strategy, k: nat) returns (i: nat)
    requires k in members && Refuses(fixed, k, strategy)
    ensures FirstRefuses(fixed, members, strategy, i)
  {
    i := 0;
    while !Refuses(fixed, members[i], strategy)
      invariant i < |members| && k in members[i..]
      invariant forall j: nat | j < i :: !Refuses(fixed, members[j], strategy)
      decreases |members| - i
    {
      assert members[i..] == [members[i]] + members[i + 1..];
      i := i + 1;
    }
  }

  lemma GroupRefusalIs(fixed: seq<Fixed>, group: Group, strategy: Strategy)
    requires Joint(strategy)
    ensures GroupAvailability(fixed, group, strategy) ==
              if SupportOf(group, strategy) == Some(Supported) && MembersCanBePinned(fixed, group.members, strategy) then None
              else Some(if GroupNoRecipe(fixed, group, strategy) then RejectedNoRecipe else RejectedUnavailable)
  {
    GroupAvailabilityMeans(fixed, group, strategy);
    hide CanBePinned, NoRecipe, UnavailableOutcome;
    if k: nat :| k in group.members && Refuses(fixed, k, strategy) {
      var i := SomeoneIsFirst(fixed, group.members, strategy, k);
      FirstRefusalDecides(fixed, group.members, strategy, i);
      assert forall j: nat | FirstRefuses(fixed, group.members, strategy, j) :: j == i;
    } else {
      AvailableMembers(fixed, group.members, strategy);
      forall k: nat | k in group.members
        ensures Pinnable(fixed, k, strategy)
      {
        assert !Refuses(fixed, k, strategy);
        AvailableIsPinnable(strategy, fixed[Find(fixed, k).value].facts);
      }
      assert forall j: nat :: !FirstRefuses(fixed, group.members, strategy, j);
    }
  }

  /** When a group pin is given each outcome; only guards of members can be overruled by accepting a risk. */
  lemma GroupPinVerdicts(fixed: seq<Fixed>, group: Group, pin: Pin, order: seq<Strategy>)
    ensures var verdict := JudgeGroupPin(fixed, group, pin, order);
            var judged := GroupJudged(fixed, group, pin, order);
            var eligible := MembersEligible(fixed, group.members, pin.disposition);
            && (verdict.outcome.Honored? <==> pin.disposition.Unhandled? || (judged && eligible))
            && (verdict.outcome.HonoredAcceptedRisk? <==> judged && !eligible && pin.acceptRisk)
            && (verdict.outcome.Rejected? <==> PerGlobal(pin.disposition) || (judged && !eligible && !pin.acceptRisk))
            && (verdict.outcome.RejectedDisabled? <==> Joint(pin.disposition) && pin.disposition !in order)
            && (verdict.outcome.RejectedNoRecipe? <==>
                  Joint(pin.disposition) && pin.disposition in order && !judged && GroupNoRecipe(fixed, group, pin.disposition))
            && (verdict.outcome.RejectedUnavailable? <==>
                  Joint(pin.disposition) && pin.disposition in order && !judged && !GroupNoRecipe(fixed, group, pin.disposition))
            && !verdict.outcome.UnmatchedKey?
            && (verdict.failures != {} <==> judged && !eligible)
  {
    if Joint(pin.disposition) {
      GroupAvailabilityMeans(fixed, group, pin.disposition);
      GroupRefusalIs(fixed, group, pin.disposition);
      if SupportOf(group, pin.disposition) == Some(Supported) {
        GroupFailuresMean(fixed, group, pin.disposition);
      }
    }
  }

  lemma FailuresAreBlamed(fixed: seq<Fixed>, k: nat, strategy: Strategy, f: Failure)
    requires !strategy.Unhandled? && Pinnable(fixed, k, strategy)
    ensures f in FailuresAt(fixed, k, strategy) <==>
              f.member == k && Blamed(f.guard, strategy, fixed[Find(fixed, k).value].facts)
  {
    var facts := fixed[Find(fixed, k).value].facts;
    AvailableIsComputed(strategy, facts);
    GuardsAreBlamed(strategy, facts, f.guard);
    hide Blamed, Evaluate, UnavailableOutcome;
  }

  /** The failures that come with the verdict of a judged group pin: the guards to blame in any of the members. */
  lemma GroupPinFailuresAre(fixed: seq<Fixed>, group: Group, pin: Pin, order: seq<Strategy>, f: Failure)
    ensures f in JudgeGroupPin(fixed, group, pin, order).failures <==>
              && GroupJudged(fixed, group, pin, order) && f.member in group.members
              && Blamed(f.guard, pin.disposition, fixed[Find(fixed, f.member).value].facts)
  {
    var strategy := pin.disposition;
    if Joint(strategy) {
      GroupAvailabilityMeans(fixed, group, strategy);
      if GroupJudged(fixed, group, pin, order) {
        MemberFailuresAre(fixed, group.members, strategy);
        forall k: nat | k in group.members
          ensures f in FailuresAt(fixed, k, strategy) <==>
                    f.member == k && Blamed(f.guard, strategy, fixed[Find(fixed, k).value].facts)
        {
          AvailableIsPinnable(strategy, fixed[Find(fixed, k).value].facts);
          FailuresAreBlamed(fixed, k, strategy, f);
        }
      }
    }
    hide Blamed, CanBePinned, FailuresAt, MemberFailures, FirstUnavailable;
  }

  // ---------------------------------------------------------------------------------------------
  // Groups without a pin

  /** Joint support that does not show up as a failure, although it need not be there. */
  predicate CountsAsSupported(group: Group, strategy: Strategy)
    requires Joint(strategy)
  {
    || group.members == []
    || SupportOf(group, strategy) == Some(Supported)
    || (strategy.Mutex? && group.mutex == Some(Unsupported(0)))
  }

  /** What a group takes by itself. */
  ghost predicate Suits(fixed: seq<Fixed>, group: Group, strategy: Strategy) {
    Joint(strategy) && CountsAsSupported(group, strategy) && MembersEligible(fixed, group.members, strategy)
  }

  lemma NoFailuresIsSuited(fixed: seq<Fixed>, group: Group, strategy: Strategy)
    requires Joint(strategy)
    ensures GroupFailures(fixed, group, strategy) == {} <==> Suits(fixed, group, strategy)
  {
    if GroupFailures(fixed, group, strategy) == {} {
      NoGroupFailures(fixed, group, strategy);
      var support := SupportOf(group, strategy);
      assert support.Some? && support.value.Unsupported? ==> support.value == Unsupported(support.value.witnesses);
      assert CountsAsSupported(group, strategy);
    } else if Suits(fixed, group, strategy) {
      MemberFailuresAre(fixed, group.members, strategy);
      var f :| f in GroupFailures(fixed, group, strategy);
      var k: nat :| k in group.members && f in FailuresAt(fixed, k, strategy);
      NoFailuresIsApplicable(fixed, k, strategy);
    }
  }

  /** The first configured joint strategy that suits the group. */
  lemma {:induction false} FirstJointIsFirst(fixed: seq<Fixed>, group: Group, order: seq<Strategy>)
    ensures var choice := FirstJoint(fixed, group, order);
            && (choice.None? ==> forall i | 0 <= i < |order| :: !Suits(fixed, group, order[i]))
            && (choice.Some? ==>
                  exists i :: 0 <= i < |order| && order[i] == choice.value && Suits(fixed, group, order[i])
                              && forall j | 0 <= j < i :: !Suits(fixed, group, order[j]))
  {
    if order != [] {
      if Joint(order[0]) {
        NoFailuresIsSuited(fixed, group, order[0]);
      }
      if !Suits(fixed, group, order[0]) {
        FirstJointIsFirst(fixed, group, order[1..]);
        assert forall i | 1 <= i < |order| :: order[i] == order[1..][i - 1];
        var choice := FirstJoint(fixed, group, order);
        if choice.Some? {
          var i :| 0 <= i < |order| - 1 && order[1..][i] == choice.value && Suits(fixed, group, order[1..][i])
                   && forall j | 0 <= j < i :: !Suits(fixed, group, order[1..][j]);
          assert order[i + 1] == choice.value;
        }
      }
    }
  }

  /**
   When a group without a pin has joint support for what it takes: always, except that an empty group takes
   anything and a failed mutex certificate without witnesses passes for one that holds.
   */
  lemma UnpinnedSupport(fixed: seq<Fixed>, group: Group, order: seq<Strategy>)
    requires IndependentJoint(fixed, group, order).Some?
    ensures var choice := IndependentJoint(fixed, group, order).value;
            && (group.members != [] ==>
                  (SupportOf(group, choice) == Some(Supported) <==> !(choice.Mutex? && group.mutex == Some(Unsupported(0)))))
            && (group.members == [] ==> forall strategy :: Joint(strategy) ==> Suits(fixed, group, strategy))
  {
    var choice := IndependentJoint(fixed, group, order).value;
    NoFailuresIsSuited(fixed, group, choice);
  }

  function LockableFacts(id: nat): Facts {
    Facts(NoContract, false, true, false, false, [], None, Some(Certified), None, Some(id))
  }

  /** The mutex that a group refuses as a pin and takes by itself, its joint certificate having failed. */
  lemma UncertifiedMutexIsTaken(fixed: seq<Fixed>, group: Group)
    requires fixed == [Fixed(1, LockableFacts(7), Mutex), Fixed(2, LockableFacts(7), Mutex)]
    requires group == Group(7, [1, 2], None, Some(Unsupported(0)), None, None, None)
    ensures IndependentJoint(fixed, group, [Mutex]) == Some(Mutex)
    ensures JudgeGroupPin(fixed, group, Pin(Mutex, true), [Mutex]).outcome == RejectedNoRecipe
  {
    assert Find(fixed, 1) == Some(0);
    assert Find(fixed, 2) == Some(1);
    forall k: nat | k in group.members
      ensures Yields(fixed, k) && Eligible(Mutex, fixed[Find(fixed, k).value].facts)
      ensures CanBePinned(Mutex, fixed[Find(fixed, k).value].facts)
    {
      assert k == 1 || k == 2;
    }
    NoFailuresIsSuited(fixed, group, Mutex);
    FirstJointIsFirst(fixed, group, [Mutex]);
    assert Suits(fixed, group, [Mutex][0]);
    AvailableMembers(fixed, group.members, Mutex);
    forall k: nat | k in group.members
      ensures Pinnable(fixed, k, Mutex)
    {
      AvailableIsPinnable(Mutex, fixed[Find(fixed, k).value].facts);
    }
  }

  // ---------------------------------------------------------------------------------------------
  // Whole runs

  ghost predicate NoRisks(o: Overrides) {
    && (forall i | 0 <= i < |o.globals| :: !o.globals[i].pin.acceptRisk)
    && (forall i | 0 <= i < |o.groups| :: !o.groups[i].pin.acceptRisk)
  }

  /** A group that is pinned without accepting risks only takes what each of its members could take. */
  lemma GroupChoiceIsEligible(fixed: seq<Fixed>, group: Group, pin: Option<Pin>, order: seq<Strategy>, k: nat)
    requires pin.Some? ==> !pin.value.acceptRisk
    requires k in group.members && Find(fixed, k).Some?
    requires GroupChoice(fixed, group, pin, order).Some? && !GroupChoice(fixed, group, pin, order).value.Unhandled?
    ensures Eligible(GroupChoice(fixed, group, pin, order).value, fixed[Find(fixed, k).value].facts)
  {
    if pin.Some? {
      GroupPinVerdicts(fixed, group, pin.value, order);
    }
    if pin.None? || !Accepted(JudgeGroupPin(fixed, group, pin.value, order).outcome) {
      UnpinnedChoiceIsSafe(fixed, group, order);
    }
  }

  lemma MemberChoiceIsEligible(globals: seq<GlobalRecord>, groups: seq<Group>, o: Overrides, order: seq<Strategy>, i: nat)
    requires Strategy.Unhandled !in order && DistinctKeys(globals) && i < |globals| && NoRisks(o)
    ensures var choice := ChoiceFor(SettledGroups(globals, groups, o.groups, order), globals[i].key);
            choice.Some? ==> choice.value.Unhandled? || Eligible(choice.value, globals[i].facts)
  {
    var fixed := FixedPart(Base(globals, order));
    var resolved := SettledGroups(globals, groups, o.groups, order);
    var at := GroupOf(resolved, globals[i].key);
    if at.Some? && resolved[at.value].disposition.Some? && !resolved[at.value].disposition.value.Unhandled? {
      var group := Canonical(groups[at.value]);
      var pin := FindGroupPin(o.groups, group.id);
      assert resolved[at.value].members == group.members;
      assert resolved[at.value].disposition == GroupChoice(fixed, group, pin, order);
      FindSelf(globals, order, i);
      GroupChoiceIsEligible(fixed, group, pin, order, globals[i].key);
    }
  }

  /**
   Unless an override accepts a risk, no run gives a global a strategy whose guard it does not meet:
   groups and pins can only take strategies away or exchange them for ones that apply as well.
   */
  lemma WithoutRisksGuardsHold(globals: seq<GlobalRecord>, groups: seq<Group>, o: Overrides, order: seq<Strategy>, i: nat)
    requires Strategy.Unhandled !in order && DistinctKeys(globals) && i < |globals| && NoRisks(o)
    ensures var chosen := FinalChoice(globals, groups, o, order, i);
            chosen.Unhandled? || Eligible(chosen, globals[i].facts)
  {
    var facts := globals[i].facts;
    var choice := ChoiceFor(SettledGroups(globals, groups, o.groups, order), globals[i].key);
    MemberChoiceIsEligible(globals, groups, o, order, i);
    var independent := Cascade(order, facts).0;
    if !independent.Unhandled? {
      ApplicableIsEligible(independent, facts);
    }
    var pin := FindGlobalPin(o.globals, globals[i].key);
    if pin.Some? {
      PinVerdicts(globals[i].key, facts, pin.value, choice, order);
    }
  }

  /** What the recorded provenance says about how a record came by its choice. */
  lemma ProvenanceTells(globals: seq<GlobalRecord>, groups: seq<Group>, o: Overrides, order: seq<Strategy>, i: nat)
    requires Strategy.Unhandled !in order && i < |globals|
    ensures var d := FinalGlobals(globals, groups, o, order)[i].disposition.value;
            var choice := ChoiceFor(FinalGroups(globals, groups, o, order), globals[i].key);
            && d.pin == (if d.provenance in {FromOverride, FromOverrideAcceptedRisk} then FindGlobalPin(o.globals, globals[i].key) else None)
            && (d.pin.Some? ==> d.chosen == d.pin.value.disposition)
            && (choice.Some? ==> d.chosen == choice.value)
            && (d.provenance.FromCascade? ==> d.chosen == d.cascadeChosen)
            && (d.provenance.GroupConstraint? ==> choice.Some? && d.chosen != d.cascadeChosen)
            && (d.provenance.FromOverride? ==> d.chosen.Unhandled? || Eligible(d.chosen, globals[i].facts))
            && (d.provenance.FromOverrideAcceptedRisk? ==> d.pin.value.acceptRisk && !Eligible(d.chosen, globals[i].facts))
            && !d.provenance.Demoted?
  {
    var resolved := SettledGroups(globals, groups, o.groups, order);
    SameGroupOf(resolved, CanonicalGroups(resolved), globals[i].key);
    var pin := FindGlobalPin(o.globals, globals[i].key);
    if pin.Some? {
      PinVerdicts(globals[i].key, globals[i].facts, pin.value, ChoiceFor(resolved, globals[i].key), order);
    }
  }
}
