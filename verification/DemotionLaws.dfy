/** What demotion keeps, and how demotions combine. */
module DemotionLaws {
  import opened Sorting
  import opened Guards
  import opened Manifests
  import opened Policy
  import opened PolicyLaws
  import opened PolicyTwice
  import opened Demotions

  // ---------------------------------------------------------------------------------------------
  // One demotion

  /** The record is on a strategy and among those taken down. */
  ghost predicate IsTaken(g: GlobalRecord, causes: map<nat, nat>) {
    g.key in causes && exists d :: g.disposition == Some(d) && d.chosen != Strategy.Unhandled
  }

  /**
   A record that is taken down moves to `Unhandled` and says from where and why; its pin, independent choice and trace
   stay. No other record changes.
   */
  lemma DemotionOnlyLowers(globals: seq<GlobalRecord>, causes: map<nat, nat>, i: nat)
    requires i < |globals|
    ensures var after := DemoteAll(globals, causes)[i];
            && after.key == globals[i].key && after.facts == globals[i].facts
            && (IsTaken(globals[i], causes) ==>
                  && after.disposition.Some?
                  && var was, d := globals[i].disposition.value, after.disposition.value;
                     && d.chosen == Strategy.Unhandled && d.provenance == Demoted
                     && d.demotion == Some(Demotion(was.chosen, causes[globals[i].key]))
                     && d.cascadeChosen == was.cascadeChosen && d.trace == was.trace && d.pin == was.pin)
            && (!IsTaken(globals[i], causes) ==> after == globals[i])
  {
  }

  /** Every record that is newly taken down is listed once, with its former choice, and no other is. */
  lemma {:induction false} DemotionsAreRecorded(globals: seq<GlobalRecord>, causes: map<nat, nat>)
    requires DistinctKeys(globals)
    ensures var listed := NewDemotions(globals, causes);
            && (forall i, j | 0 <= i < j < |listed| :: listed[i].0 != listed[j].0)
            && forall k: nat, d: Demotion :: (k, d) in listed <==>
                 exists i :: 0 <= i < |globals| && globals[i].key == k && NewlyDemoted(globals[i], causes)
                   && d == Demotion(globals[i].disposition.value.chosen, causes[k])
  {
    if globals != [] {
      var rest, g := globals[..|globals| - 1], globals[|globals| - 1];
      DemotionsAreRecorded(rest, causes);
      var listed := NewDemotions(rest, causes);
      forall i | 0 <= i < |listed|
        ensures listed[i].0 != g.key
      {
        assert (listed[i].0, listed[i].1) in listed;
      }
      forall k: nat, d: Demotion
        ensures (k, d) in NewDemotions(globals, causes) <==>
                  exists i :: 0 <= i < |globals| && globals[i].key == k && NewlyDemoted(globals[i], causes)
                    && d == Demotion(globals[i].disposition.value.chosen, causes[k])
      {
        if i :| 0 <= i < |globals| && globals[i].key == k && NewlyDemoted(globals[i], causes)
                && d == Demotion(globals[i].disposition.value.chosen, causes[k]) {
          assert i < |rest| ==> rest[i] == globals[i];
        }
        if (k, d) in listed {
          var i :| 0 <= i < |rest| && rest[i].key == k && NewlyDemoted(rest[i], causes)
                   && d == Demotion(rest[i].disposition.value.chosen, causes[k]);
          assert globals[i] == rest[i];
        }
      }
    }
  }

  // ---------------------------------------------------------------------------------------------
  // Groups stay whole

  lemma OwnShared(globals: seq<GlobalRecord>, groups: seq<Group>, g: nat, i: nat)
    requires Consistent(globals, groups) && g < |groups| && i < |globals| && globals[i].key in groups[g].members
    ensures SharedGroup(groups, globals[i]) == if groups[g].disposition.Some? && Joint(ChosenOf(globals[i])) then Some(g) else None
  {
    assert GroupConsistent(globals, groups[g]);
    assert globals[i].facts.couplingGroup == Some(groups[g].id);
    var at := SharedGroup(groups, globals[i]);
    if groups[g].disposition.Some? && Joint(ChosenOf(globals[i])) {
      assert Shares(groups[g], globals[i]);
    }
  }

  /** A failure takes down its own global and the whole group that is on a joint strategy with it. */
  lemma FailureTakesDown(globals: seq<GlobalRecord>, groups: seq<Group>, k: nat, x: nat)
    requires Consistent(globals, groups)
    ensures TakesDown(globals, groups, k, x) <==>
              || x == k
              || exists g :: 0 <= g < |groups| && k in groups[g].members && x in groups[g].members
                   && (groups[g].disposition == Some(Strategy.OnceLock) || groups[g].disposition == Some(Strategy.Mutex))
  {
    if x != k && TakesDown(globals, groups, k, x) {
      var i :| 0 <= i < |globals| && globals[i].key == k && SharedGroup(groups, globals[i]).Some?
               && x in groups[SharedGroup(groups, globals[i]).value].members;
      var g := SharedGroup(groups, globals[i]).value;
      assert GroupConsistent(globals, groups[g]);
    }
    if g :| 0 <= g < |groups| && k in groups[g].members && x in groups[g].members
            && (groups[g].disposition == Some(Strategy.OnceLock) || groups[g].disposition == Some(Strategy.Mutex)) {
      assert GroupConsistent(globals, groups[g]);
      var i :| 0 <= i < |globals| && globals[i].key == k;
      OwnShared(globals, groups, g, i);
      assert x in groups[SharedGroup(groups, globals[i]).value].members;
    }
  }

  /** The member has a record that is, or has just been, taken off its strategy. */
  ghost predicate IsDown(globals: seq<GlobalRecord>, causes: map<nat, nat>, k: nat) {
    exists i, d :: 0 <= i < |globals| && globals[i].key == k && globals[i].disposition == Some(d)
                   && (k in causes || d.chosen == Strategy.Unhandled)
  }

  /** A group ends unhandled exactly when all its members do, and is otherwise left as it was, but for the order of its members. */
  lemma GroupsFollow(globals: seq<GlobalRecord>, groups: seq<Group>, causes: map<nat, nat>, g: nat)
    requires g < |groups|
    ensures var group := CanonicalGroups(RelabelGroups(DemoteAll(globals, causes), groups))[g];
            var down := forall k: nat | k in groups[g].members :: IsDown(globals, causes, k);
            && group.disposition == (if down then Some(Strategy.Unhandled) else groups[g].disposition)
            && group.(disposition := None, members := []) == groups[g].(disposition := None, members := [])
            && forall k: nat :: k in group.members <==> k in groups[g].members
  {
    var after := DemoteAll(globals, causes);
    forall k: nat
      ensures UnhandledAt(after, k) <==> IsDown(globals, causes, k)
    {
      if UnhandledAt(after, k) {
        var i :| 0 <= i < |after| && after[i].key == k && after[i].disposition.Some? && after[i].disposition.value.chosen.Unhandled?;
        assert globals[i].disposition == Some(globals[i].disposition.value);
      }
      if i, d :| 0 <= i < |globals| && globals[i].key == k && globals[i].disposition == Some(d)
                 && (k in causes || d.chosen == Strategy.Unhandled) {
        assert after[i].key == k;
      }
    }
    hide UnhandledAt, IsDown, DemoteAll;
    var members := groups[g].members;
    if AllUnhandled(after, members) {
      forall k: nat | k in members
        ensures UnhandledAt(after, k)
      {
        var m :| 0 <= m < |members| && members[m] == k;
      }
    } else {
      var m :| 0 <= m < |members| && !UnhandledAt(after, members[m]);
      assert members[m] in members;
    }
  }

  /** A group on a joint strategy is taken down whole or not at all. */
  lemma JointGoesWhole(
      globals: seq<GlobalRecord>, groups: seq<Group>, failures: seq<Failed>, causes: map<nat, nat>, g: nat, x: nat, y: nat)
    requires Consistent(globals, groups) && CausesOk(globals, groups, failures, causes)
    requires g < |groups| && groups[g].disposition.Some? && Joint(groups[g].disposition.value)
    requires x in groups[g].members && y in groups[g].members && x in causes
    ensures y in causes
  {
    var f :| 0 <= f < |failures| && TakesDown(globals, groups, failures[f].key, x);
    assert GroupConsistent(globals, groups[g]);
    var k := failures[f].key;
    if x != k {
      var i :| 0 <= i < |globals| && globals[i].key == k && SharedGroup(groups, globals[i]).Some?
               && x in groups[SharedGroup(groups, globals[i]).value].members;
      var h := SharedGroup(groups, globals[i]).value;
      assert h == g;
      assert TakesDown(globals, groups, k, y);
    } else {
      var i :| 0 <= i < |globals| && globals[i].key == k;
      OwnShared(globals, groups, g, i);
      assert TakesDown(globals, groups, k, y);
    }
    assert Down(globals, groups, failures, y);
  }

  lemma DownIsUnhandled(globals: seq<GlobalRecord>, causes: map<nat, nat>, i: nat)
    requires i < |globals|
    ensures ChosenOf(DemoteAll(globals, causes)[i]) == if globals[i].key in causes then Strategy.Unhandled else ChosenOf(globals[i])
  {
  }

  lemma DemotedGroup(
      globals: seq<GlobalRecord>, groups: seq<Group>, failures: seq<Failed>, causes: map<nat, nat>, g: nat)
    requires Consistent(globals, groups) && CausesOk(globals, groups, failures, causes) && g < |groups|
    ensures GroupConsistent(DemoteAll(globals, causes), RelabelGroup(DemoteAll(globals, causes), groups[g]))
  {
    var after := DemoteAll(globals, causes);
    var group := groups[g];
    assert GroupConsistent(globals, group);
    assert Decided(globals);
    hide Consistent, CausesOk;
    forall i | 0 <= i < |globals|
      ensures after[i].key == globals[i].key && after[i].facts == globals[i].facts && after[i].disposition.Some?
      ensures ChosenOf(after[i]) == if globals[i].key in causes then Strategy.Unhandled else ChosenOf(globals[i])
    {
      DownIsUnhandled(globals, causes, i);
    }
    hide DemoteAll;
    if AllUnhandled(after, group.members) {
      forall i | 0 <= i < |after| && after[i].key in group.members
        ensures ChosenOf(after[i]).Unhandled?
      {
        assert UnhandledAt(after, after[i].key);
      }
    } else if group.disposition.Some? && Joint(group.disposition.value) {
      forall i | 0 <= i < |after| && after[i].key in group.members
        ensures ChosenOf(after[i]) == group.disposition.value
      {
        if globals[i].key in causes {
          forall m | 0 <= m < |group.members|
            ensures UnhandledAt(after, group.members[m])
          {
            JointGoesWhole(globals, groups, failures, causes, g, globals[i].key, group.members[m]);
            var j :| 0 <= j < |globals| && globals[j].key == group.members[m];
            assert ChosenOf(after[j]).Unhandled? && after[j].disposition.Some?;
          }
        }
      }
    }
    forall k: nat | k in group.members && group.disposition.Some? && Joint(group.disposition.value)
      ensures exists i :: 0 <= i < |after| && after[i].key == k
    {
      var i :| 0 <= i < |globals| && globals[i].key == k;
      assert after[i].key == k;
    }
  }

  /** Demotion keeps the manifest consistent: uniform groups stay uniform. */
  lemma DemotionKeepsConsistent(
      globals: seq<GlobalRecord>, groups: seq<Group>, failures: seq<Failed>, causes: map<nat, nat>)
    requires Consistent(globals, groups) && CausesOk(globals, groups, failures, causes)
    ensures var after := DemoteAll(globals, causes);
            Consistent(after, CanonicalGroups(RelabelGroups(after, groups)))
  {
    var after := DemoteAll(globals, causes);
    var relabeled := CanonicalGroups(RelabelGroups(after, groups));
    forall i | 0 <= i < |globals|
      ensures after[i].key == globals[i].key && after[i].disposition.Some?
    {
    }
    forall g | 0 <= g < |groups|
      ensures relabeled[g].id == groups[g].id && forall k: nat :: k in relabeled[g].members <==> k in groups[g].members
      ensures GroupConsistent(after, relabeled[g])
    {
      DemotedGroup(globals, groups, failures, causes, g);
      CanonicalConsistent(after, RelabelGroup(after, groups[g]));
    }
  }

  lemma CanonicalConsistent(globals: seq<GlobalRecord>, group: Group)
    requires GroupConsistent(globals, group)
    ensures GroupConsistent(globals, Canonical(group))
  {
  }

  // ---------------------------------------------------------------------------------------------
  // After the policy

  /** The policy leaves a consistent manifest behind, whatever the overrides. */
  lemma PolicyIsConsistent(globals: seq<GlobalRecord>, groups: seq<Group>, o: Overrides, order: seq<Strategy>)
    requires Strategy.Unhandled !in order && DistinctKeys(globals) && DisjointGroups(groups)
    requires forall g, i | 0 <= g < |groups| && 0 <= i < |globals| ::
               globals[i].key in groups[g].members <==> globals[i].facts.couplingGroup == Some(groups[g].id)
    ensures Consistent(FinalGlobals(globals, groups, o, order), FinalGroups(globals, groups, o, order))
  {
    var globals', groups' := FinalGlobals(globals, groups, o, order), FinalGroups(globals, groups, o, order);
    forall i | 0 <= i < |globals|
      ensures globals'[i].key == globals[i].key && globals'[i].facts == globals[i].facts && globals'[i].disposition.Some?
    {
      HistoryIsKept(globals, groups, o, order, i);
    }
    forall g | 0 <= g < |groups|
      ensures groups'[g].id == groups[g].id && forall k: nat :: k in groups'[g].members <==> k in groups[g].members
      ensures GroupConsistent(globals', groups'[g])
    {
      PolicyGroupConsistent(globals, groups, o, order, g);
    }
  }

  lemma PolicyGroupConsistent(globals: seq<GlobalRecord>, groups: seq<Group>, o: Overrides, order: seq<Strategy>, g: nat)
    requires Strategy.Unhandled !in order && DistinctKeys(globals) && DisjointGroups(groups) && g < |groups|
    requires forall i | 0 <= i < |globals| :: globals[i].key in groups[g].members <==> globals[i].facts.couplingGroup == Some(groups[g].id)
    ensures GroupConsistent(FinalGlobals(globals, groups, o, order), FinalGroups(globals, groups, o, order)[g])
  {
    var fixed := FixedPart(Base(globals, order));
    var globals', group' := FinalGlobals(globals, groups, o, order), FinalGroups(globals, groups, o, order)[g];
    var pin := FindGroupPin(o.groups, groups[g].id);
    var group := Canonical(groups[g]);
    GroupChoiceLaws(fixed, group, pin, order);
    assert group'.disposition == GroupChoice(fixed, group, pin, order);
    forall i | 0 <= i < |globals|
      ensures globals'[i].key == globals[i].key && globals'[i].facts == globals[i].facts
      ensures globals[i].key in group'.members && group'.disposition.Some? ==> ChosenOf(globals'[i]) == group'.disposition.value
    {
      HistoryIsKept(globals, groups, o, order, i);
      if globals[i].key in group'.members && group'.disposition.Some? {
        GroupsAreUniform(globals, groups, o, order, g, i);
      }
    }
    forall k: nat | k in group'.members && group'.disposition.Some? && Joint(group'.disposition.value)
      ensures exists i :: 0 <= i < |globals'| && globals'[i].key == k
    {
      JointMembersHaveRecords(fixed, group, pin, order, k);
      var i := Find(fixed, k).value;
      assert globals'[i].key == fixed[i].key;
    }
  }

  lemma JointMembersHaveRecords(fixed: seq<Fixed>, group: Group, pin: Option<Pin>, order: seq<Strategy>, k: nat)
    requires var choice := GroupChoice(fixed, group, pin, order); choice.Some? && Joint(choice.value)
    requires k in group.members
    ensures Find(fixed, k).Some?
  {
    if pin.Some? && Accepted(JudgeGroupPin(fixed, group, pin.value, order).outcome) {
      AcceptedPinIsSupported(fixed, group, pin.value, order);
      assert Pinnable(fixed, k, pin.value.disposition);
    } else {
      UnpinnedChoiceIsSafe(fixed, group, order);
      assert Yields(fixed, k);
    }
  }

  // ---------------------------------------------------------------------------------------------
  // Two demotions

  /** Repeating a demotion changes nothing and records nothing. */
  lemma DemotingTwiceIsOnce(
      globals: seq<GlobalRecord>, groups: seq<Group>, failures: seq<Failed>, causes: map<nat, nat>, causes': map<nat, nat>)
    requires Consistent(globals, groups) && CausesOk(globals, groups, failures, causes)
    requires CausesOk(DemoteAll(globals, causes), CanonicalGroups(RelabelGroups(DemoteAll(globals, causes), groups)), failures, causes')
    ensures var after := DemoteAll(globals, causes);
            var groups' := CanonicalGroups(RelabelGroups(after, groups));
            && DemoteAll(after, causes') == after && NewDemotions(after, causes') == []
            && CanonicalGroups(RelabelGroups(after, groups')) == groups'
  {
    var after := DemoteAll(globals, causes);
    var groups' := CanonicalGroups(RelabelGroups(after, groups));
    forall i | 0 <= i < |after|
      ensures !NewlyDemoted(after[i], causes') && DemoteAll(after, causes')[i] == after[i]
    {
      if after[i].key in causes' {
        RepeatedIsDown(globals, groups, failures, causes, groups', after[i].key);
        DownIsUnhandled(globals, causes, i);
      }
    }
    NothingNew(after, causes');
    forall g | 0 <= g < |groups|
      ensures Canonical(RelabelGroup(after, groups'[g])) == groups'[g]
    {
      var relabeled := RelabelGroup(after, groups[g]);
      assert groups'[g] == Canonical(relabeled);
      SortAscending(relabeled.members);
      SortSorted(Sort(relabeled.members));
      SameUnhandled(after, groups[g].members, groups'[g].members);
    }
  }

  lemma SameUnhandled(globals: seq<GlobalRecord>, a: seq<nat>, b: seq<nat>)
    requires forall k: nat :: k in a <==> k in b
    ensures AllUnhandled(globals, a) <==> AllUnhandled(globals, b)
  {
    assert forall k: nat | AllUnhandled(globals, a) && k in a :: UnhandledAt(globals, k);
    assert forall k: nat | AllUnhandled(globals, b) && k in b :: UnhandledAt(globals, k);
    assert forall m | 0 <= m < |b| :: b[m] in b;
    assert forall m | 0 <= m < |a| :: a[m] in a;
  }

  lemma {:induction false} NothingNew(globals: seq<GlobalRecord>, causes: map<nat, nat>)
    requires forall i | 0 <= i < |globals| :: !NewlyDemoted(globals[i], causes)
    ensures NewDemotions(globals, causes) == []
  {
    if globals != [] {
      NothingNew(globals[..|globals| - 1], causes);
    }
  }

  /** The same failures take down nothing more once they have been demoted. */
  lemma RepeatedIsDown(
      globals: seq<GlobalRecord>, groups: seq<Group>, failures: seq<Failed>, causes: map<nat, nat>, groups': seq<Group>, x: nat)
    requires CausesOk(globals, groups, failures, causes)
    requires Down(DemoteAll(globals, causes), groups', failures, x)
    ensures x in causes
  {
    var after := DemoteAll(globals, causes);
    var f :| 0 <= f < |failures| && TakesDown(after, groups', failures[f].key, x);
    var k := failures[f].key;
    assert TakesDown(globals, groups, k, k);
    assert k in causes;
    forall i | 0 <= i < |after| && after[i].key == k
      ensures SharedGroup(groups', after[i]).None?
    {
      DownIsUnhandled(globals, causes, i);
    }
  }

  /** Failures in sequence leave the same choices as all of them at once, hence in either order. */
  lemma DemotionsCompose(
      globals: seq<GlobalRecord>, groups: seq<Group>, first: seq<Failed>, second: seq<Failed>, causes1: map<nat, nat>,
      causes2: map<nat, nat>, together: map<nat, nat>, i: nat)
    requires Consistent(globals, groups) && CausesOk(globals, groups, first, causes1) && i < |globals|
    requires CausesOk(DemoteAll(globals, causes1), CanonicalGroups(RelabelGroups(DemoteAll(globals, causes1), groups)), second, causes2)
    requires CausesOk(globals, groups, first + second, together)
    ensures ChosenOf(DemoteAll(DemoteAll(globals, causes1), causes2)[i]) == ChosenOf(DemoteAll(globals, together)[i])
  {
    var after := DemoteAll(globals, causes1);
    var groups' := CanonicalGroups(RelabelGroups(after, groups));
    var x := globals[i].key;
    DownIsUnhandled(globals, causes1, i);
    DownIsUnhandled(after, causes2, i);
    DownIsUnhandled(globals, together, i);
    DownConcat(globals, groups, first, second, x);
    if x in causes2 && x !in causes1 {
      LaterIsDown(globals, groups, first, causes1, second, x);
    }
    if x in together && x !in causes1 {
      DownIsLater(globals, groups, first, causes1, second, x);
    }
  }

  lemma DownConcat(globals: seq<GlobalRecord>, groups: seq<Group>, first: seq<Failed>, second: seq<Failed>, x: nat)
    ensures Down(globals, groups, first + second, x) <==> Down(globals, groups, first, x) || Down(globals, groups, second, x)
  {
    var both := first + second;
    if f :| 0 <= f < |first| && TakesDown(globals, groups, first[f].key, x) {
      assert both[f] == first[f];
    }
    if f :| 0 <= f < |second| && TakesDown(globals, groups, second[f].key, x) {
      assert both[|first| + f] == second[f];
    }
  }

  /** A record that was spared is shared by the same group before and after. */
  lemma SparedShares(
      globals: seq<GlobalRecord>, groups: seq<Group>, first: seq<Failed>, causes: map<nat, nat>, j: nat)
    requires Consistent(globals, groups) && CausesOk(globals, groups, first, causes)
    requires j < |globals| && globals[j].key !in causes
    ensures var after := DemoteAll(globals, causes);
            && after[j] == globals[j]
            && SharedGroup(CanonicalGroups(RelabelGroups(after, groups)), after[j]) == SharedGroup(groups, globals[j])
  {
    var after := DemoteAll(globals, causes);
    var groups' := CanonicalGroups(RelabelGroups(after, groups));
    forall g | 0 <= g < |groups|
      ensures Shares(groups'[g], after[j]) <==> Shares(groups[g], globals[j])
    {
      assert GroupConsistent(globals, groups[g]);
      if Shares(groups[g], globals[j]) {
        var m :| 0 <= m < |groups[g].members| && groups[g].members[m] == globals[j].key;
        assert !UnhandledAt(after, groups[g].members[m]);
      }
    }
    SameShared(groups, groups', globals[j]);
  }

  lemma {:induction false} SameShared(a: seq<Group>, b: seq<Group>, g: GlobalRecord)
    requires |a| == |b| && forall i | 0 <= i < |a| :: Shares(a[i], g) <==> Shares(b[i], g)
    ensures SharedGroup(a, g) == SharedGroup(b, g)
  {
    if a != [] {
      SameShared(a[1..], b[1..], g);
    }
  }

  lemma LaterIsDown(
      globals: seq<GlobalRecord>, groups: seq<Group>, first: seq<Failed>, causes: map<nat, nat>, second: seq<Failed>, x: nat)
    requires Consistent(globals, groups) && CausesOk(globals, groups, first, causes)
    requires var after := DemoteAll(globals, causes);
             Down(after, CanonicalGroups(RelabelGroups(after, groups)), second, x)
    ensures Down(globals, groups, second, x)
  {
    var after := DemoteAll(globals, causes);
    var groups' := CanonicalGroups(RelabelGroups(after, groups));
    var f :| 0 <= f < |second| && TakesDown(after, groups', second[f].key, x);
    var k := second[f].key;
    if x != k {
      var j :| 0 <= j < |after| && after[j].key == k && SharedGroup(groups', after[j]).Some?
               && x in groups'[SharedGroup(groups', after[j]).value].members;
      DownIsUnhandled(globals, causes, j);
      SharedIsSpared(globals, groups, first, causes, j, x);
      assert globals[j].key == k;
    }
    assert TakesDown(globals, groups, k, x);
  }

  lemma SharedIsSpared(
      globals: seq<GlobalRecord>, groups: seq<Group>, first: seq<Failed>, causes: map<nat, nat>, j: nat, x: nat)
    requires Consistent(globals, groups) && CausesOk(globals, groups, first, causes)
    requires var after := DemoteAll(globals, causes);
             var groups' := CanonicalGroups(RelabelGroups(after, groups));
             j < |after| && SharedGroup(groups', after[j]).Some? && x in groups'[SharedGroup(groups', after[j]).value].members
    ensures SharedGroup(groups, globals[j]).Some? && x in groups[SharedGroup(groups, globals[j]).value].members
  {
    DownIsUnhandled(globals, causes, j);
    SparedShares(globals, groups, first, causes, j);
  }

  lemma DownIsLater(
      globals: seq<GlobalRecord>, groups: seq<Group>, first: seq<Failed>, causes: map<nat, nat>, second: seq<Failed>, x: nat)
    requires Consistent(globals, groups) && CausesOk(globals, groups, first, causes)
    requires Down(globals, groups, second, x) && x !in causes
    ensures var after := DemoteAll(globals, causes);
            Down(after, CanonicalGroups(RelabelGroups(after, groups)), second, x)
  {
    var after := DemoteAll(globals, causes);
    var groups' := CanonicalGroups(RelabelGroups(after, groups));
    var f :| 0 <= f < |second| && TakesDown(globals, groups, second[f].key, x);
    var k := second[f].key;
    if x != k {
      var j :| 0 <= j < |globals| && globals[j].key == k && SharedGroup(groups, globals[j]).Some?
               && x in groups[SharedGroup(groups, globals[j]).value].members;
      var g := SharedGroup(groups, globals[j]).value;
      assert GroupConsistent(globals, groups[g]);
      if k in causes {
        JointGoesWhole(globals, groups, first, causes, g, k, x);
      }
      SparedShares(globals, groups, first, causes, j);
      assert after[j].key == k;
    }
    assert TakesDown(after, groups', k, x);
  }
}
