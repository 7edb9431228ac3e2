/** Running the policy again, on its own result or on any manifest with the same facts. */
module PolicyTwice {
  import opened Sorting
  import opened Guards
  import opened Manifests
  import opened Policy
  import opened PolicyLaws

  /** The records agree on everything the policy reads. */
  ghost predicate SameFacts(a: seq<GlobalRecord>, b: seq<GlobalRecord>) {
    |a| == |b| && forall i | 0 <= i < |a| :: a[i].key == b[i].key && a[i].facts == b[i].facts
  }

  ghost predicate SameGroup(a: Group, b: Group) {
    a.id == b.id && a.members == b.members && a.onceLock == b.onceLock && a.mutex == b.mutex
  }

  /** The groups agree on what they are; their decisions and the order of their members may differ. */
  ghost predicate SameGroups(a: seq<Group>, b: seq<Group>) {
    && |a| == |b|
    && forall g | 0 <= g < |a| ::
         a[g].id == b[g].id && multiset(a[g].members) == multiset(b[g].members)
         && a[g].onceLock == b[g].onceLock && a[g].mutex == b[g].mutex
  }

  lemma SameBase(a: seq<GlobalRecord>, b: seq<GlobalRecord>, order: seq<Strategy>)
    requires Strategy.Unhandled !in order && SameFacts(a, b)
    ensures FixedPart(Base(a, order)) == FixedPart(Base(b, order))
    ensures forall i | 0 <= i < |a| :: Independent(a[i], order) == Independent(b[i], order)
  {
  }

  /**
   The outcome is a function of the facts and the groups alone: whatever was decided, demoted or selected
   before is forgotten, and so is the order in which members were listed.
   */
  lemma PolicyForgets(
      a: seq<GlobalRecord>, groupsA: seq<Group>, b: seq<GlobalRecord>, groupsB: seq<Group>, o: Overrides, order: seq<Strategy>)
    requires Strategy.Unhandled !in order && SameFacts(a, b) && SameGroups(groupsA, groupsB)
    ensures FinalGlobals(a, groupsA, o, order) == FinalGlobals(b, groupsB, o, order)
    ensures FinalGroups(a, groupsA, o, order) == FinalGroups(b, groupsB, o, order)
    ensures KeysParse(o) ==> Report(a, groupsA, o, order) == Report(b, groupsB, o, order)
  {
    SameBase(a, b, order);
    var fixed := FixedPart(Base(a, order));
    var sortedA, sortedB := CanonicalGroups(groupsA), CanonicalGroups(groupsB);
    forall g | 0 <= g < |groupsA|
      ensures SameGroup(sortedA[g], sortedB[g])
      ensures ResolveGroup(fixed, sortedA[g], FindGroupPin(o.groups, sortedA[g].id), order)
           == ResolveGroup(fixed, sortedB[g], FindGroupPin(o.groups, sortedB[g].id), order)
    {
      SortForgets(groupsA[g].members, groupsB[g].members);
      SameResolution(fixed, sortedA[g], sortedB[g], FindGroupPin(o.groups, sortedA[g].id), order);
    }
    assert SettledGroups(a, groupsA, o.groups, order) == SettledGroups(b, groupsB, o.groups, order);
    SameEntries(fixed, sortedA, sortedB, o.groups, order);
    SameUnmatched(sortedA, sortedB, o.groups);
  }

  /** Sorting depends on the elements and not on their order. */
  lemma SortForgets(s: seq<nat>, t: seq<nat>)
    requires multiset(s) == multiset(t)
    ensures Sort(s) == Sort(t)
  {
    SortAscending(s);
    SortAscending(t);
    AscendingUnique(Sort(s), Sort(t));
  }

  lemma {:induction false} AscendingUnique(s: seq<nat>, t: seq<nat>)
    requires Ascending(s) && Ascending(t) && multiset(s) == multiset(t)
    ensures s == t
  {
    if s == [] {
      assert |multiset(t)| == 0;
    } else {
      FirstIsLeast(s, t);
      FirstIsLeast(t, s);
      assert s == [s[0]] + s[1..] && t == [t[0]] + t[1..];
      assert multiset(s[1..]) == multiset(s) - multiset{s[0]} && multiset(t[1..]) == multiset(t) - multiset{t[0]};
      AscendingUnique(s[1..], t[1..]);
    }
  }

  lemma FirstIsLeast(s: seq<nat>, t: seq<nat>)
    requires s != [] && Ascending(t) && multiset(s) == multiset(t)
    ensures t != [] && t[0] <= s[0]
  {
    assert s[0] in multiset(t);
  }

  lemma SameJoint(fixed: seq<Fixed>, a: Group, b: Group, order: seq<Strategy>)
    requires a.members == b.members && a.onceLock == b.onceLock && a.mutex == b.mutex
    ensures FirstJoint(fixed, a, order) == FirstJoint(fixed, b, order)
  {
  }

  lemma SameResolution(fixed: seq<Fixed>, a: Group, b: Group, pin: Option<Pin>, order: seq<Strategy>)
    requires SameGroup(a, b)
    ensures ResolveGroup(fixed, a, pin, order) == ResolveGroup(fixed, b, pin, order)
    ensures pin.Some? ==> JudgeGroupPin(fixed, a, pin.value, order) == JudgeGroupPin(fixed, b, pin.value, order)
  {
    SameJoint(fixed, a, b, order);
  }

  lemma {:induction false} SameEntries(fixed: seq<Fixed>, a: seq<Group>, b: seq<Group>, pins: seq<GroupPin>, order: seq<Strategy>)
    requires |a| == |b| && forall g | 0 <= g < |a| :: SameGroup(a[g], b[g])
    ensures MatchedEntries(fixed, a, pins, order) == MatchedEntries(fixed, b, pins, order)
  {
    if a != [] {
      var last := |a| - 1;
      SameEntries(fixed, a[..last], b[..last], pins, order);
      SameResolution(fixed, a[last], b[last], FindGroupPin(pins, a[last].id), order);
    }
  }

  lemma {:induction false} SameUnmatched(a: seq<Group>, b: seq<Group>, pins: seq<GroupPin>)
    requires |a| == |b| && forall g | 0 <= g < |a| :: a[g].id == b[g].id
    ensures UnmatchedEntries(a, pins) == UnmatchedEntries(b, pins)
  {
    if pins != [] {
      SameUnmatched(a, b, pins[..|pins| - 1]);
      assert HasGroup(a, pins[|pins| - 1].id) <==> HasGroup(b, pins[|pins| - 1].id);
    }
  }

  // ---------------------------------------------------------------------------------------------
  // The same members in another order

  /** The same group, its members perhaps in another order and decided otherwise. */
  ghost predicate Reordered(a: Group, b: Group) {
    && a.id == b.id && a.onceLock == b.onceLock && a.mutex == b.mutex && |a.members| == |b.members|
    && forall k: nat :: k in a.members <==> k in b.members
  }

  lemma ReorderedMembers(fixed: seq<Fixed>, a: Group, b: Group, strategy: Strategy)
    requires Joint(strategy) && Reordered(a, b)
    ensures FirstUnavailable(fixed, a.members, strategy).None? <==> FirstUnavailable(fixed, b.members, strategy).None?
    ensures MemberFailures(fixed, a.members, strategy) == MemberFailures(fixed, b.members, strategy)
    ensures SupportFails(a, strategy) <==> SupportFails(b, strategy)
    ensures GroupFailures(fixed, a, strategy) == {} <==> GroupFailures(fixed, b, strategy) == {}
  {
    AvailableMembers(fixed, a.members, strategy);
    AvailableMembers(fixed, b.members, strategy);
    MemberFailuresAre(fixed, a.members, strategy);
    MemberFailuresAre(fixed, b.members, strategy);
    forall f
      ensures f in MemberFailures(fixed, a.members, strategy) <==> f in MemberFailures(fixed, b.members, strategy)
    {
    }
    SupportFailsShows(fixed, a, strategy);
    SupportFailsShows(fixed, b, strategy);
  }

  lemma {:induction false} ReorderedJoint(fixed: seq<Fixed>, a: Group, b: Group, order: seq<Strategy>)
    requires Reordered(a, b)
    ensures FirstJoint(fixed, a, order) == FirstJoint(fixed, b, order)
  {
    if order != [] {
      if Joint(order[0]) {
        ReorderedMembers(fixed, a, b, order[0]);
      }
      ReorderedJoint(fixed, a, b, order[1..]);
    }
  }

  lemma YieldIsByMember(fixed: seq<Fixed>, members: seq<nat>)
    ensures MembersYield(fixed, members) <==> forall k: nat | k in members :: Yields(fixed, k)
  {
  }

  /** Whether the outcome of a group's pin, as reported, is the same for both orders of the members. */
  ghost predicate OrderBlind(fixed: seq<Fixed>, a: seq<nat>, b: seq<nat>, pin: Option<Pin>, order: seq<Strategy>) {
    pin.Some? && Joint(pin.value.disposition) && pin.value.disposition in order ==>
      FirstUnavailable(fixed, a, pin.value.disposition) == FirstUnavailable(fixed, b, pin.value.disposition)
  }

  lemma ReorderedVerdict(fixed: seq<Fixed>, a: Group, b: Group, pin: Pin, order: seq<Strategy>)
    requires Reordered(a, b)
    ensures Accepted(JudgeGroupPin(fixed, a, pin, order).outcome) || Accepted(JudgeGroupPin(fixed, b, pin, order).outcome) ==>
              JudgeGroupPin(fixed, a, pin, order) == JudgeGroupPin(fixed, b, pin, order)
    ensures JudgeGroupPin(fixed, a, pin, order) == JudgeGroupPin(fixed, b, pin, order) <==>
              OrderBlind(fixed, a.members, b.members, Some(pin), order)
  {
    if Joint(pin.disposition) {
      ReorderedMembers(fixed, a, b, pin.disposition);
    }
  }

  /** Reordering the members never changes the decision, and the reported outcome only with the first refusal. */
  lemma ReorderedResolution(fixed: seq<Fixed>, a: Group, b: Group, pin: Option<Pin>, order: seq<Strategy>)
    requires Reordered(a, b)
    ensures ResolveGroup(fixed, a, pin, order).(members := b.members) == ResolveGroup(fixed, b, pin, order)
    ensures pin.Some? ==>
              (GroupEntry(fixed, a, pin.value, order) == GroupEntry(fixed, b, pin.value, order)
               <==> OrderBlind(fixed, a.members, b.members, pin, order))
  {
    ReorderedJoint(fixed, a, b, order);
    YieldIsByMember(fixed, a.members);
    YieldIsByMember(fixed, b.members);
    assert IndependentJoint(fixed, a, order) == IndependentJoint(fixed, b, order);
    if pin.Some? {
      ReorderedVerdict(fixed, a, b, pin.value, order);
    }
  }

  // ---------------------------------------------------------------------------------------------
  // Idempotence

  lemma {:induction false} SortSorted(s: seq<nat>)
    requires Ascending(s)
    ensures Sort(s) == s
  {
    if s != [] {
      SortSorted(s[1..]);
    }
  }

  lemma SortTwice(s: seq<nat>)
    ensures Sort(Sort(s)) == Sort(s)
  {
    SortAscending(s);
    SortSorted(Sort(s));
  }

  lemma FinalGroupIsSame(globals: seq<GlobalRecord>, groups: seq<Group>, o: Overrides, order: seq<Strategy>, g: nat)
    requires Strategy.Unhandled !in order && g < |groups|
    ensures var group := FinalGroups(globals, groups, o, order)[g];
            && group.id == groups[g].id && group.members == Sort(groups[g].members)
            && group.onceLock == groups[g].onceLock && group.mutex == groups[g].mutex
  {
    SortTwice(groups[g].members);
  }

  lemma FinalIsSame(globals: seq<GlobalRecord>, groups: seq<Group>, o: Overrides, order: seq<Strategy>)
    requires Strategy.Unhandled !in order
    ensures SameFacts(globals, FinalGlobals(globals, groups, o, order))
    ensures SameGroups(groups, FinalGroups(globals, groups, o, order))
  {
    hide FinalGroups, FinalGlobals;
    forall g | 0 <= g < |groups|
      ensures var group := FinalGroups(globals, groups, o, order)[g];
              && group.id == groups[g].id && group.members == Sort(groups[g].members)
              && group.onceLock == groups[g].onceLock && group.mutex == groups[g].mutex
    {
      FinalGroupIsSame(globals, groups, o, order, g);
    }
    forall i | 0 <= i < |globals|
      ensures var g := FinalGlobals(globals, groups, o, order)[i]; g.key == globals[i].key && g.facts == globals[i].facts
    {
      HistoryIsKept(globals, groups, o, order, i);
    }
  }

  /** The policy is idempotent: run again on its own result it changes no record and no group and repeats its report. */
  lemma PolicyTwiceIsOnce(globals: seq<GlobalRecord>, groups: seq<Group>, o: Overrides, order: seq<Strategy>)
    requires Strategy.Unhandled !in order
    ensures var globals', groups' := FinalGlobals(globals, groups, o, order), FinalGroups(globals, groups, o, order);
            && FinalGlobals(globals', groups', o, order) == globals'
            && FinalGroups(globals', groups', o, order) == groups'
            && (KeysParse(o) ==> Report(globals', groups', o, order) == Report(globals, groups, o, order))
  {
    FinalIsSame(globals, groups, o, order);
    PolicyForgets(globals, groups, FinalGlobals(globals, groups, o, order), FinalGroups(globals, groups, o, order), o, order);
  }
}
