/** Demoting globals whose materialization failed: joint representations go as a whole, nothing else moves. */
module Demotions {
  import opened Sorting
  import opened Guards
  import opened Manifests
  import opened Policy
  import opened PolicyLaws

  /** A failed global with the witness of its failure. */
  datatype Failed = Failed(key: nat, cause: nat)

  datatype DemotionError = UnknownSubject(key: nat) | NotFinalized(key: nat) | NoRecipe(key: nat)

  // ---------------------------------------------------------------------------------------------
  // What a failure takes down

  function ChosenOf(g: GlobalRecord): Strategy {
    if g.disposition.Some? then g.disposition.value.chosen else Strategy.Unhandled
  }

  /** The group that shares the joint representation of the record. */
  predicate Shares(group: Group, g: GlobalRecord) {
    Joint(ChosenOf(g)) && g.facts.couplingGroup == Some(group.id) && group.disposition == Some(ChosenOf(g))
  }

  function SharedGroup(groups: seq<Group>, g: GlobalRecord): (r: Option<nat>)
    ensures r.Some? ==> r.value < |groups| && Shares(groups[r.value], g)
    ensures r.None? ==> forall i | 0 <= i < |groups| :: !Shares(groups[i], g)
  {
    if groups == [] then None
    else if Shares(groups[0], g) then Some(0)
    else
      var rest := SharedGroup(groups[1..], g);
      assert forall i | 0 < i < |groups| :: groups[i] == groups[1..][i - 1];
      if rest.Some? then Some(rest.value + 1) else None
  }

  /** The failure of `k` breaks the joint representation of a group that `x` belongs to. */
  ghost predicate BreaksGroup(globals: seq<GlobalRecord>, groups: seq<Group>, k: nat, x: nat) {
    exists i :: 0 <= i < |globals| && globals[i].key == k && SharedGroup(groups, globals[i]).Some?
          && x in groups[SharedGroup(groups, globals[i]).value].members
  }

  /** The failure of `k` takes `x` down. */
  ghost predicate TakesDown(globals: seq<GlobalRecord>, groups: seq<Group>, k: nat, x: nat) {
    x == k || BreaksGroup(globals, groups, k, x)
  }

  /** Some failure takes `x` down. */
  ghost predicate Down(globals: seq<GlobalRecord>, groups: seq<Group>, failures: seq<Failed>, x: nat) {
    exists f :: 0 <= f < |failures| && TakesDown(globals, groups, failures[f].key, x)
  }

  function DemoteRecord(g: GlobalRecord, cause: nat): GlobalRecord
  {
    if g.disposition.None? || g.disposition.value.chosen.Unhandled? then g
    else
      var d := g.disposition.value;
      g.(disposition := Some(d.(chosen := Strategy.Unhandled, provenance := Demoted, demotion := Some(Demotion(d.chosen, cause)))))
  }

  /** The records after demotion, and the demotions newly recorded, in record order. */
  function DemoteAll(globals: seq<GlobalRecord>, causes: map<nat, nat>): (r: seq<GlobalRecord>)
    ensures |r| == |globals|
    ensures forall i | 0 <= i < |globals| ::
              r[i] == if globals[i].key in causes then DemoteRecord(globals[i], causes[globals[i].key]) else globals[i]
  {
    seq(|globals|, i requires 0 <= i < |globals| =>
      if globals[i].key in causes then DemoteRecord(globals[i], causes[globals[i].key]) else globals[i])
  }

  predicate NewlyDemoted(g: GlobalRecord, causes: map<nat, nat>) {
    g.key in causes && g.disposition.Some? && !g.disposition.value.chosen.Unhandled?
  }

  function NewDemotions(globals: seq<GlobalRecord>, causes: map<nat, nat>): seq<(nat, Demotion)> {
    if globals == [] then []
    else
      var g := globals[|globals| - 1];
      NewDemotions(globals[..|globals| - 1], causes)
      + if NewlyDemoted(g, causes) then [(g.key, Demotion(g.disposition.value.chosen, causes[g.key]))] else []
  }

  /** Every member has a record, and none of them is handled. */
  predicate AllUnhandled(globals: seq<GlobalRecord>, members: seq<nat>) {
    forall m | 0 <= m < |members| :: UnhandledAt(globals, members[m])
  }

  predicate UnhandledAt(globals: seq<GlobalRecord>, k: nat) {
    exists i | 0 <= i < |globals| ::
      globals[i].key == k && globals[i].disposition.Some? && globals[i].disposition.value.chosen.Unhandled?
  }

  function RelabelGroup(globals: seq<GlobalRecord>, group: Group): Group {
    if AllUnhandled(globals, group.members) then group.(disposition := Some(Strategy.Unhandled)) else group
  }

  function RelabelGroups(globals: seq<GlobalRecord>, groups: seq<Group>): (r: seq<Group>)
    ensures |r| == |groups| && forall g | 0 <= g < |groups| :: r[g] == RelabelGroup(globals, groups[g])
  {
    seq(|groups|, g requires 0 <= g < |groups| => RelabelGroup(globals, groups[g]))
  }

  // ---------------------------------------------------------------------------------------------
  // The state of a finalized manifest

  /** What the policy leaves behind, and what every demotion keeps. */
  ghost predicate Consistent(globals: seq<GlobalRecord>, groups: seq<Group>) {
    && DistinctKeys(globals) && DisjointGroups(groups) && Decided(globals)
    && (forall g | 0 <= g < |groups| :: GroupConsistent(globals, groups[g]))
  }

  ghost predicate GroupConsistent(globals: seq<GlobalRecord>, group: Group) {
    && (group.disposition.Some? ==> group.disposition.value.Unhandled? || Joint(group.disposition.value))
    && (forall i | 0 <= i < |globals| :: globals[i].key in group.members <==> globals[i].facts.couplingGroup == Some(group.id))
    && (forall i | 0 <= i < |globals| && globals[i].key in group.members ::
          group.disposition.Some? ==> ChosenOf(globals[i]) == group.disposition.value)
    && (group.disposition.Some? && Joint(group.disposition.value) ==>
          forall k: nat | k in group.members :: exists i :: 0 <= i < |globals| && globals[i].key == k)
  }

  /** The witness of the last failure that breaks a group of `x`, or else of the failure of `x` itself. */
  ghost predicate CauseOf(globals: seq<GlobalRecord>, groups: seq<Group>, failures: seq<Failed>, x: nat, cause: nat) {
    || (exists f :: 0 <= f < |failures| && BreaksGroup(globals, groups, failures[f].key, x) && failures[f].cause == cause
                    && forall h | f < h < |failures| :: !BreaksGroup(globals, groups, failures[h].key, x))
    || ((forall f | 0 <= f < |failures| :: !BreaksGroup(globals, groups, failures[f].key, x))
        && exists f :: 0 <= f < |failures| && failures[f].key == x && failures[f].cause == cause
                       && forall h | 0 <= h < f :: failures[h].key != x)
  }

  /** The causes cover exactly the records that some failure takes down, each with the witness that is due. */
  ghost predicate CausesOk(globals: seq<GlobalRecord>, groups: seq<Group>, failures: seq<Failed>, causes: map<nat, nat>) {
    && (forall x: nat :: x in causes <==> Down(globals, groups, failures, x))
    && (forall x: nat | x in causes :: CauseOf(globals, groups, failures, x, causes[x]))
  }

  // ---------------------------------------------------------------------------------------------
  // The demotion itself

  lemma DownNext(globals: seq<GlobalRecord>, groups: seq<Group>, failures: seq<Failed>, failed: Failed, x: nat)
    ensures Down(globals, groups, failures + [failed], x) <==>
              Down(globals, groups, failures, x) || TakesDown(globals, groups, failed.key, x)
  {
    var after := failures + [failed];
    assert after[|failures|] == failed;
    if f :| 0 <= f < |failures| && TakesDown(globals, groups, failures[f].key, x) {
      assert after[f] == failures[f];
    }
  }

  /** A later failure leaves its witness where it breaks a group, and where there was none. */
  function Cause(causes: map<nat, nat>, failed: Failed, breaks: bool, x: nat): nat {
    if breaks || x !in causes then failed.cause else causes[x]
  }

  lemma CauseNext(globals: seq<GlobalRecord>, groups: seq<Group>, failures: seq<Failed>, causes: map<nat, nat>, failed: Failed, x: nat)
    requires CausesOk(globals, groups, failures, causes)
    requires x in causes || TakesDown(globals, groups, failed.key, x)
    ensures CauseOf(globals, groups, failures + [failed], x,
                    Cause(causes, failed, BreaksGroup(globals, groups, failed.key, x), x))
  {
    hide BreaksGroup;
    var after := failures + [failed];
    assert after[|failures|] == failed && forall f | 0 <= f < |failures| :: after[f] == failures[f];
    if !BreaksGroup(globals, groups, failed.key, x) && x !in causes {
      assert !Down(globals, groups, failures, x);
      assert forall f | 0 <= f < |failures| :: !TakesDown(globals, groups, failures[f].key, x);
    }
  }

  lemma CausesNext(
      globals: seq<GlobalRecord>, groups: seq<Group>, failures: seq<Failed>, causes: map<nat, nat>, failed: Failed, next: map<nat, nat>)
    requires CausesOk(globals, groups, failures, causes)
    requires forall x: nat :: x in next <==> x in causes || TakesDown(globals, groups, failed.key, x)
    requires forall x: nat | x in next :: next[x] == Cause(causes, failed, BreaksGroup(globals, groups, failed.key, x), x)
    ensures CausesOk(globals, groups, failures + [failed], next)
  {
    forall x: nat
      ensures x in next <==> Down(globals, groups, failures + [failed], x)
      ensures x in next ==> CauseOf(globals, groups, failures + [failed], x, next[x])
    {
      DownNext(globals, groups, failures, failed, x);
      if x in next {
        CauseNext(globals, groups, failures, causes, failed, x);
      }
    }
    hide CauseOf, Down, TakesDown;
  }

  /** Adds the members of a group under one witness, over any earlier witness. */
  method AddMembers(causes: map<nat, nat>, members: seq<nat>, cause: nat) returns (next: map<nat, nat>)
    ensures forall x: nat :: x in next <==> x in causes || x in members
    ensures forall x: nat | x in next :: next[x] == if x in members then cause else causes[x]
  {
    next := causes;
    for m := 0 to |members|
      invariant forall x: nat :: x in next <==> x in causes || x in members[..m]
      invariant forall x: nat | x in next :: next[x] == if x in members[..m] then cause else causes[x]
    {
      assert members[..m + 1] == members[..m] + [members[m]];
      next := next[members[m] := cause];
    }
    assert members[..|members|] == members;
  }

  method FindRecord(globals: seq<GlobalRecord>, key: nat) returns (at: Option<nat>)
    ensures at.Some? ==> at.value < |globals| && globals[at.value].key == key
    ensures at.None? ==> forall i | 0 <= i < |globals| :: globals[i].key != key
  {
    for i := 0 to |globals|
      invariant forall j | 0 <= j < i :: globals[j].key != key
    {
      if globals[i].key == key {
        return Some(i);
      }
    }
    return None;
  }

  ghost predicate Finalized(globals: seq<GlobalRecord>, key: nat) {
    exists i :: 0 <= i < |globals| && globals[i].key == key && globals[i].disposition.Some?
  }

  ghost predicate HasRecord(globals: seq<GlobalRecord>, key: nat) {
    exists i :: 0 <= i < |globals| && globals[i].key == key
  }

  /** Why a failure cannot be acted on: nothing has its key, or what has it was never decided. */
  ghost predicate Refused(globals: seq<GlobalRecord>, key: nat, error: DemotionError) {
    !Finalized(globals, key) && error == if HasRecord(globals, key) then NotFinalized(key) else UnknownSubject(key)
  }

  /** The first failure that cannot be acted on is the one that is reported. */
  ghost predicate FirstRefused(globals: seq<GlobalRecord>, failures: seq<Failed>, error: DemotionError) {
    exists f :: 0 <= f < |failures| && Refused(globals, failures[f].key, error)
                && forall h | 0 <= h < f :: Finalized(globals, failures[h].key)
  }

  /** One failure: its own key, which keeps an earlier witness, and the group it breaks. */
  method ExpandOne(globals: seq<GlobalRecord>, groups: seq<Group>, causes: map<nat, nat>, failed: Failed)
    returns (error: Option<DemotionError>, next: map<nat, nat>)
    requires DistinctKeys(globals)
    ensures error.None? <==> Finalized(globals, failed.key)
    ensures error.Some? ==> Refused(globals, failed.key, error.value)
    ensures error.None? ==> forall x: nat :: x in next <==> x in causes || TakesDown(globals, groups, failed.key, x)
    ensures error.None? ==> forall x: nat | x in next ::
              next[x] == Cause(causes, failed, BreaksGroup(globals, groups, failed.key, x), x)
  {
    next := causes;
    var at := FindRecord(globals, failed.key);
    if at.None? {
      return Some(UnknownSubject(failed.key)), next;
    }
    var g := globals[at.value];
    assert forall i | 0 <= i < |globals| && globals[i].key == failed.key :: i == at.value;
    if g.disposition.None? {
      return Some(NotFinalized(failed.key)), next;
    }
    next := if failed.key in causes then causes else causes[failed.key := failed.cause];
    var shared := SharedGroup(groups, g);
    if shared.Some? {
      next := AddMembers(next, groups[shared.value].members, failed.cause);
    }
    return None, next;
  }

  lemma IsFirstRefused(globals: seq<GlobalRecord>, failures: seq<Failed>, f: nat, error: DemotionError)
    requires f < |failures| && Refused(globals, failures[f].key, error)
    requires forall h | 0 <= h < f :: Finalized(globals, failures[h].key)
    ensures FirstRefused(globals, failures, error)
  {
  }

  lemma NoCauses(globals: seq<GlobalRecord>, groups: seq<Group>, failures: seq<Failed>)
    requires failures == []
    ensures CausesOk(globals, groups, failures, map[])
  {
  }

  /** Expands the failures to the joint groups they break. */
  method Expand(globals: seq<GlobalRecord>, groups: seq<Group>, failures: seq<Failed>)
    returns (error: Option<DemotionError>, causes: map<nat, nat>)
    requires DistinctKeys(globals)
    ensures error.None? ==> CausesOk(globals, groups, failures, causes)
    ensures error.None? <==> forall f | 0 <= f < |failures| :: Finalized(globals, failures[f].key)
    ensures error.Some? ==> FirstRefused(globals, failures, error.value)
  {
    error, causes := None, map[];
    NoCauses(globals, groups, failures[..0]);
    hide CausesOk, Refused, FirstRefused, Finalized, TakesDown;
    for f := 0 to |failures|
      invariant CausesOk(globals, groups, failures[..f], causes) && error.None?
      invariant forall h | 0 <= h < f :: Finalized(globals, failures[h].key)
    {
      var next;
      error, next := ExpandOne(globals, groups, causes, failures[f]);
      if error.Some? {
        IsFirstRefused(globals, failures, f, error.value);
        return;
      }
      CausesNext(globals, groups, failures[..f], causes, failures[f], next);
      assert failures[..f + 1] == failures[..f] + [failures[f]];
      causes := next;
    }
    assert failures[..|failures|] == failures;
  }

  /**
   The whole step. The new records, groups and demotions are those of the failures and the groups they
   break; the selection is made again from the recipes.
   */
  method DemoteAndReproject(m: Manifest, failures: seq<Failed>) returns (error: Option<DemotionError>, ghost causes: map<nat, nat>)
    requires m.Valid()
    modifies m`globals, m`groups, m`selected, m`demotions
    ensures error.Some? && !error.value.NoRecipe? ==>
              && m.globals == old(m.globals) && m.groups == old(m.groups) && m.selected == old(m.selected)
              && m.demotions == old(m.demotions)
    ensures error.Some? && !error.value.NoRecipe? ==> FirstRefused(old(m.globals), failures, error.value)
    ensures error.Some? && error.value.NoRecipe? ==> error.value.key !in m.recipes && HasLocalized(m.globals, error.value.key)
    ensures error.None? || error.value.NoRecipe? <==> forall f | 0 <= f < |failures| :: Finalized(old(m.globals), failures[f].key)
    ensures error.None? ==>
              && CausesOk(old(m.globals), old(m.groups), failures, causes)
              && m.globals == DemoteAll(old(m.globals), causes)
              && m.groups == CanonicalGroups(RelabelGroups(m.globals, old(m.groups)))
              && m.demotions == Some((if old(m.demotions).Some? then old(m.demotions).value else []) + NewDemotions(old(m.globals), causes))
              && m.selected.Some? && SelectionOk(m.selected.value, m.globals, m.recipes)
  {
    var expanded;
    error, expanded := Expand(m.globals, m.groups, failures);
    causes := expanded;
    if error.Some? {
      return;
    }
    DemoteRecords(m, expanded);
    Relabel(m);
    var missing := m.SelectContextRewrite();
    if missing.Some? {
      return Some(NoRecipe(missing.value)), expanded;
    }
    m.Canonicalize();
  }

  method DemoteRecords(m: Manifest, causes: map<nat, nat>)
    modifies m`globals, m`demotions
    ensures m.globals == DemoteAll(old(m.globals), causes)
    ensures m.demotions == Some((if old(m.demotions).Some? then old(m.demotions).value else []) + NewDemotions(old(m.globals), causes))
  {
    ghost var start := m.globals;
    var recorded := if m.demotions.Some? then m.demotions.value else [];
    ghost var recorded0 := recorded;
    for i := 0 to |m.globals|
      invariant |m.globals| == |start|
      invariant forall j | 0 <= j < i :: m.globals[j] == DemoteAll(start, causes)[j]
      invariant forall j | i <= j < |start| :: m.globals[j] == start[j]
      invariant recorded == recorded0 + NewDemotions(start[..i], causes)
    {
      var g := m.globals[i];
      assert start[..i + 1][..i] == start[..i];
      if g.key in causes && g.disposition.Some? && !g.disposition.value.chosen.Unhandled? {
        recorded := recorded + [(g.key, Demotion(g.disposition.value.chosen, causes[g.key]))];
        m.globals := m.globals[i := DemoteRecord(g, causes[g.key])];
      }
    }
    assert start[..|start|] == start;
    m.demotions := Some(recorded);
  }

  method Relabel(m: Manifest)
    modifies m`groups
    ensures m.groups == RelabelGroups(m.globals, old(m.groups))
  {
    for g := 0 to |m.groups|
      invariant |m.groups| == |old(m.groups)|
      invariant forall h | 0 <= h < g :: m.groups[h] == RelabelGroup(m.globals, old(m.groups)[h])
      invariant forall h | g <= h < |m.groups| :: m.groups[h] == old(m.groups)[h]
    {
      m.groups := m.groups[g := RelabelGroup(m.globals, m.groups[g])];
    }
  }
}
