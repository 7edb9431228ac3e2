/** The disposition manifest, and the verdicts on groups and pins that the policy layers over it. */
module Manifests {
  import opened Sorting
  import opened Guards

  datatype Pin = Pin(disposition: Strategy, acceptRisk: bool)

  datatype Provenance = FromCascade | GroupConstraint | FromOverride | FromOverrideAcceptedRisk | Demoted

  datatype Demotion = Demotion(origin: Strategy, cause: nat)

  datatype Disposition = Disposition(
    chosen: Strategy, cascadeChosen: Strategy, trace: seq<Skip>, provenance: Provenance, pin: Option<Pin>,
    demotion: Option<Demotion>)

  datatype GlobalRecord = GlobalRecord(key: nat, facts: Facts, disposition: Option<Disposition>)

  /** Whether one publication point, or one mutex, serves the whole group; if not, how many witnesses say so. */
  datatype JointSupport = Supported | Unsupported(witnesses: nat)

  datatype Group = Group(
    id: nat, members: seq<nat>, onceLock: Option<JointSupport>, mutex: Option<JointSupport>,
    disposition: Option<Strategy>, provenance: Option<Provenance>, pin: Option<Pin>)

  /** A pin under its raw key; the key is absent if it does not parse. */
  datatype GlobalPin = GlobalPin(key: Option<nat>, pin: Pin)
  datatype GroupPin = GroupPin(id: nat, pin: Pin)

  datatype Overrides = Overrides(globals: seq<GlobalPin>, groups: seq<GroupPin>, cascade: Option<seq<Strategy>>)

  datatype Scope = GlobalScope(key: nat) | GroupScope(id: nat) | CascadeScope

  datatype Requested = ForStrategy(strategy: Strategy) | ForOrder(order: seq<Strategy>)

  datatype Failure = Failure(member: nat, guard: Guard)

  datatype Entry = Entry(scope: Scope, requested: Requested, acceptRisk: bool, outcome: Outcome, failures: set<Failure>)

  datatype AuditSource = OverrideSource | OtherSource(id: nat)

  datatype AuditRecord = AuditRecord(source: AuditSource, scope: Scope, failures: set<Failure>)

  // ---------------------------------------------------------------------------------------------
  // What the verdicts depend on

  /** The part of a record that the policy never changes after the independent cascade. */
  datatype Fixed = Fixed(key: nat, facts: Facts, cascadeChosen: Strategy)

  function FixedOf(g: GlobalRecord): Fixed {
    Fixed(g.key, g.facts, if g.disposition.Some? then g.disposition.value.cascadeChosen else Strategy.Unhandled)
  }

  function FixedPart(globals: seq<GlobalRecord>): (fixed: seq<Fixed>)
    ensures |fixed| == |globals| && forall i | 0 <= i < |globals| :: fixed[i] == FixedOf(globals[i])
  {
    seq(|globals|, i requires 0 <= i < |globals| => FixedOf(globals[i]))
  }

  /** The first record with the key. */
  function Find(fixed: seq<Fixed>, key: nat): (r: Option<nat>)
    ensures r.Some? ==> r.value < |fixed| && fixed[r.value].key == key
    ensures forall i | 0 <= i < |fixed| && fixed[i].key == key :: r.Some? && r.value <= i
  {
    if fixed == [] then None
    else if fixed[0].key == key then Some(0)
    else
      var rest := Find(fixed[1..], key);
      assert forall i | 0 < i < |fixed| :: fixed[i] == fixed[1..][i - 1];
      if rest.Some? then Some(rest.value + 1) else None
  }

  predicate PerGlobal(s: Strategy) {
    s.Immutable? || s.Atomic? || s.Localize?
  }

  predicate Joint(s: Strategy) {
    s.OnceLock? || s.Mutex?
  }

  /** The outcome for the first member that rules the strategy out as a pin. */
  function FirstUnavailable(fixed: seq<Fixed>, members: seq<nat>, strategy: Strategy): (r: Option<Outcome>)
    ensures r.Some? ==> r.value in {RejectedUnavailable, RejectedNoRecipe}
  {
    if members == [] then None
    else
      var at := Find(fixed, members[0]);
      if at.None? then Some(RejectedUnavailable)
      else
        var outcome := UnavailableOutcome(strategy, fixed[at.value].facts);
        if outcome.Some? then outcome else FirstUnavailable(fixed, members[1..], strategy)
  }

  function SupportOf(group: Group, strategy: Strategy): Option<JointSupport>
    requires Joint(strategy)
  {
    if strategy.OnceLock? then group.onceLock else group.mutex
  }

  function GroupAvailability(fixed: seq<Fixed>, group: Group, strategy: Strategy): Option<Outcome>
    requires Joint(strategy)
  {
    var outcome := FirstUnavailable(fixed, group.members, strategy);
    if outcome.Some? then outcome
    else
      match SupportOf(group, strategy)
      case None => Some(RejectedUnavailable)
      case Some(Unsupported(_)) => Some(RejectedNoRecipe)
      case Some(Supported) => None
  }

  function GuardFailures(key: nat, result: GuardResult): set<Failure> {
    match result
    case Applicable => {}
    case GuardsFailed(guards) => set guard | guard in guards :: Failure(key, guard)
    case NotComputed(fact) => {Failure(key, fact)}
  }

  /** What fails in the members themselves; members without a record are passed over. */
  function MemberFailures(fixed: seq<Fixed>, members: seq<nat>, strategy: Strategy): set<Failure>
    requires !strategy.Unhandled?
  {
    if members == [] then {}
    else
      var at := Find(fixed, members[0]);
      (if at.None? then {} else GuardFailures(members[0], Evaluate(strategy, fixed[at.value].facts)))
      + MemberFailures(fixed, members[1..], strategy)
  }

  /**
   Whether missing joint support shows up as a failure: it is reported against the first member, and for a
   mutex once per witness, so a group without members or a mutex refusal without witnesses shows none.
   */
  predicate SupportFails(group: Group, strategy: Strategy)
    requires Joint(strategy)
  {
    var support := SupportOf(group, strategy);
    group.members != [] && support != Some(Supported) && (strategy.Mutex? && support.Some? ==> support.value.witnesses > 0)
  }

  function GroupFailures(fixed: seq<Fixed>, group: Group, strategy: Strategy): set<Failure>
    requires Joint(strategy)
  {
    MemberFailures(fixed, group.members, strategy)
    + if SupportFails(group, strategy) then
        {Failure(group.members[0], if strategy.OnceLock? then GroupCommonPoint else GroupReentrancy)}
      else {}
  }

  /** The member has a record, and no independent choice that a joint strategy would undo. */
  predicate Yields(fixed: seq<Fixed>, k: nat) {
    Find(fixed, k).Some? && !PerGlobal(fixed[Find(fixed, k).value].cascadeChosen)
  }

  predicate MembersYield(fixed: seq<Fixed>, members: seq<nat>) {
    forall i | 0 <= i < |members| :: Yields(fixed, members[i])
  }

  function FirstJoint(fixed: seq<Fixed>, group: Group, order: seq<Strategy>): (r: Option<Strategy>)
    ensures r.Some? ==> Joint(r.value) && r.value in order && GroupFailures(fixed, group, r.value) == {}
  {
    if order == [] then None
    else if Joint(order[0]) && GroupFailures(fixed, group, order[0]) == {} then Some(order[0])
    else FirstJoint(fixed, group, order[1..])
  }

  /** The joint strategy a group gets without a pin, if any. */
  function IndependentJoint(fixed: seq<Fixed>, group: Group, order: seq<Strategy>): (r: Option<Strategy>)
    ensures r.Some? ==> Joint(r.value) && r.value in order && GroupFailures(fixed, group, r.value) == {}
  {
    if MembersYield(fixed, group.members) then FirstJoint(fixed, group, order) else None
  }

  // ---------------------------------------------------------------------------------------------
  // Verdicts

  datatype Verdict = Verdict(outcome: Outcome, failures: set<Failure>)

  predicate Accepted(outcome: Outcome) {
    outcome.Honored? || outcome.HonoredAcceptedRisk?
  }

  function JudgeGroupPin(fixed: seq<Fixed>, group: Group, pin: Pin, order: seq<Strategy>): Verdict {
    if PerGlobal(pin.disposition) then Verdict(Rejected, {})
    else if pin.disposition.Unhandled? then Verdict(Honored, {})
    else if pin.disposition !in order then Verdict(RejectedDisabled, {})
    else
      var unavailable := GroupAvailability(fixed, group, pin.disposition);
      if unavailable.Some? then Verdict(unavailable.value, {})
      else
        var failures := GroupFailures(fixed, group, pin.disposition);
        if failures == {} then Verdict(Honored, {})
        else Verdict(if pin.acceptRisk then HonoredAcceptedRisk else Rejected, failures)
  }

  /** A group's choice: its pin if that is accepted, otherwise what it gets by itself. */
  function GroupChoice(fixed: seq<Fixed>, group: Group, pin: Option<Pin>, order: seq<Strategy>): (r: Option<Strategy>)
  {
    if pin.Some? && Accepted(JudgeGroupPin(fixed, group, pin.value, order).outcome) then Some(pin.value.disposition)
    else IndependentJoint(fixed, group, order)
  }

  function JudgePin(key: nat, facts: Facts, pin: Pin, groupChoice: Option<Strategy>, order: seq<Strategy>): Verdict {
    if groupChoice.Some? && groupChoice.value != pin.disposition then Verdict(Rejected, {})
    else if pin.disposition.Unhandled? then Verdict(Honored, {})
    else if pin.disposition !in order then Verdict(RejectedDisabled, {})
    else
      var unavailable := UnavailableOutcome(pin.disposition, facts);
      if unavailable.Some? then Verdict(unavailable.value, {})
      else
        match Evaluate(pin.disposition, facts)
        case Applicable => Verdict(Honored, {})
        case NotComputed(_) => Verdict(RejectedUnavailable, {})
        case GuardsFailed(guards) =>
          Verdict(if pin.acceptRisk then HonoredAcceptedRisk else Rejected, set guard | guard in guards :: Failure(key, guard))
  }
}
