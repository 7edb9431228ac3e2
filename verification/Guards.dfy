/** Facts about a global, the guard of every strategy, and the first-match cascade over them. */
module Guards {
  import opened Sorting

  datatype Strategy = Immutable | OnceLock | Atomic | Mutex | Localize | Unhandled

  datatype Certificate = Certified | Failed(hasRecipe: bool)

  /** How the retained source uses a global; `Unclassified` is any kind the emitter does not know. */
  datatype Use = Assignment | Update | Read | PointerRead | Address | ArrayDecay | DecayedAddress | Unevaluated | Unclassified

  /** The emitter contract: absent for a client that only has the IR, or unreadable. */
  datatype Obligations =
    | NoContract
    | InvalidContract
    | Contract(declared: bool, containsObjectPointer: bool, sectionInitializer: bool, uses: seq<Use>)

  datatype Diagnostic = Diagnostic(hard: bool, localizeExempt: bool)

  datatype Localization = Localization(ok: bool, sourceBlocked: bool)

  datatype Facts = Facts(
    source: Obligations,
    atomicDeclaration: bool,
    written: bool,
    omegaEscaped: bool,
    violationTaint: bool,
    violations: seq<Diagnostic>,
    phaseStationarity: Option<Certificate>,
    mutexEligibility: Option<Certificate>,
    localization: Option<Localization>,
    couplingGroup: Option<nat>)

  datatype Guard =
    | SourceInvalid | SourceUnsupported | SourceUnmapped | SourceNotSync | SourceInitializer | SourceAssigned | SourceUnclassified
    | AtomicDeclaration | ViolationTaint | Written | OmegaEscaped | PhaseStationarity | MutexEligibility | Localizable
    | GroupCommonPoint | GroupReentrancy

  datatype GuardResult = Applicable | GuardsFailed(guards: seq<Guard>) | NotComputed(fact: Guard)

  predicate HardUnexempt(violations: seq<Diagnostic>) {
    exists d :: d in violations && d.hard && !d.localizeExempt
  }

  predicate SawHard(violations: seq<Diagnostic>) {
    exists d :: d in violations && d.hard
  }

  /** Localization tolerates one kind of violation; the other analysis-derived strategies none. */
  predicate ViolationTaintBlocks(strategy: Strategy, facts: Facts) {
    if strategy.Atomic? then false
    else if !strategy.Localize? then facts.violationTaint
    else HardUnexempt(facts.violations) || (facts.violationTaint && !SawHard(facts.violations))
  }

  function SourceImmutableFailures(source: Obligations): (failed: seq<Guard>)
    requires source.Contract?
  {
    (if source.declared then [] else [SourceUnmapped])
    + (if source.containsObjectPointer then [SourceNotSync] else [])
    + (if source.sectionInitializer then [SourceInitializer] else [])
    + (if Assignment in source.uses || Update in source.uses then [SourceAssigned] else [])
    + (if Unclassified in source.uses then [SourceUnclassified] else [])
  }

  predicate IsCertified(slot: Option<Certificate>) {
    slot.Some? && slot.value.Certified?
  }

  function ImmutableFailures(facts: Facts): seq<Guard> {
    (if facts.written then [Written] else []) + (if facts.omegaEscaped then [OmegaEscaped] else [])
  }

  function Tainted(strategy: Strategy, facts: Facts): (failed: seq<Guard>)
    requires !strategy.Atomic? && !strategy.Unhandled?
  {
    [ViolationTaint] +
    match strategy
    case Immutable => ImmutableFailures(facts)
    case OnceLock => if IsCertified(facts.phaseStationarity) then [] else [PhaseStationarity]
    case Mutex => if IsCertified(facts.mutexEligibility) then [] else [MutexEligibility]
    case Localize => if facts.localization.Some? && !facts.localization.value.ok then [Localizable] else []
  }

  function CertificateGuard(name: Guard, slot: Option<Certificate>): GuardResult {
    if slot.None? then NotComputed(name) else if slot.value.Certified? then Applicable else GuardsFailed([name])
  }

  function FailedResult(failed: seq<Guard>): GuardResult {
    if failed == [] then Applicable else GuardsFailed(failed)
  }

  function Evaluate(strategy: Strategy, facts: Facts): (r: GuardResult)
    requires !strategy.Unhandled?
  {
    if facts.source.InvalidContract? then GuardsFailed([SourceInvalid])
    else if facts.source.Contract? && (strategy.OnceLock? || strategy.Mutex?) then GuardsFailed([SourceUnsupported])
    else if strategy.Atomic? then
      if facts.atomicDeclaration then Applicable else GuardsFailed([AtomicDeclaration])
    else if facts.atomicDeclaration then GuardsFailed([AtomicDeclaration])
    else if ViolationTaintBlocks(strategy, facts) then GuardsFailed(Tainted(strategy, facts))
    else
      match strategy
      case Immutable =>
        FailedResult(ImmutableFailures(facts)
                     + if facts.source.Contract? then SourceImmutableFailures(facts.source) else [])
      case OnceLock => CertificateGuard(PhaseStationarity, facts.phaseStationarity)
      case Mutex => CertificateGuard(MutexEligibility, facts.mutexEligibility)
      case Localize =>
        if facts.localization.None? then NotComputed(Localizable)
        else if facts.localization.value.ok then Applicable
        else GuardsFailed([Localizable])
  }

  datatype Outcome =
    | Honored | HonoredAcceptedRisk | Rejected | RejectedDisabled | RejectedUnavailable | RejectedNoRecipe | UnmatchedKey

  /** Why a pin on `strategy` cannot even be taken at the user's risk, if it cannot. */
  function UnavailableOutcome(strategy: Strategy, facts: Facts): (r: Option<Outcome>)
    ensures r.Some? ==> r.value in {RejectedUnavailable, RejectedNoRecipe}
  {
    if !strategy.Unhandled? && facts.source.InvalidContract? then Some(RejectedNoRecipe)
    else if
      && facts.source.Contract?
      && (strategy.OnceLock? || strategy.Mutex?
          || (strategy.Immutable? && SourceImmutableFailures(facts.source) != [])
          || (strategy.Localize? && facts.localization.Some? && facts.localization.value.sourceBlocked)) then
      Some(RejectedNoRecipe)
    else if facts.atomicDeclaration && !strategy.Atomic? && !strategy.Unhandled? then Some(RejectedUnavailable)
    else
      match strategy
      case Atomic => if facts.atomicDeclaration then None else Some(RejectedUnavailable)
      case OnceLock => SlotOutcome(facts.phaseStationarity)
      case Mutex => SlotOutcome(facts.mutexEligibility)
      case Localize => if facts.localization.None? then Some(RejectedUnavailable) else None
      case Immutable => None
      case Unhandled => None
  }

  function SlotOutcome(slot: Option<Certificate>): Option<Outcome> {
    if slot.None? then Some(RejectedUnavailable)
    else if slot.value.Failed? && !slot.value.hasRecipe then Some(RejectedNoRecipe)
    else None
  }

  /** What the guards demand of the facts, strategy by strategy. */
  predicate Eligible(strategy: Strategy, facts: Facts) {
    match strategy
    case Immutable =>
      && !facts.source.InvalidContract? && !facts.atomicDeclaration && !facts.violationTaint && !facts.written && !facts.omegaEscaped
      && (facts.source.Contract? ==>
            && facts.source.declared && !facts.source.containsObjectPointer && !facts.source.sectionInitializer
            && forall use | use in facts.source.uses :: !use.Assignment? && !use.Update? && !use.Unclassified?)
    case OnceLock =>
      facts.source.NoContract? && !facts.atomicDeclaration && !facts.violationTaint && IsCertified(facts.phaseStationarity)
    case Mutex =>
      facts.source.NoContract? && !facts.atomicDeclaration && !facts.violationTaint && IsCertified(facts.mutexEligibility)
    case Localize =>
      && !facts.source.InvalidContract? && !facts.atomicDeclaration
      && (forall d | d in facts.violations :: d.hard ==> d.localizeExempt)
      && (facts.violationTaint ==> exists d :: d in facts.violations && d.hard)
      && facts.localization.Some? && facts.localization.value.ok
    case Atomic => !facts.source.InvalidContract? && facts.atomicDeclaration
    case Unhandled => false
  }

  /** A strategy applies exactly when its demands are met; otherwise the result names something that failed. */
  lemma ApplicableIsEligible(strategy: Strategy, facts: Facts)
    requires !strategy.Unhandled?
    ensures Evaluate(strategy, facts).Applicable? <==> Eligible(strategy, facts)
    ensures Evaluate(strategy, facts).GuardsFailed? ==> Evaluate(strategy, facts).guards != []
  {
    if strategy.Immutable? && facts.source.Contract? {
      var failed := SourceImmutableFailures(facts.source);
      if failed == [] {
        assert facts.source.declared && !facts.source.containsObjectPointer && !facts.source.sectionInitializer;
      }
      assert ImmutableFailures(facts) + failed == [] <==> ImmutableFailures(facts) == [] && failed == [];
      assert failed == [] <==>
          && facts.source.declared && !facts.source.containsObjectPointer && !facts.source.sectionInitializer
          && Assignment !in facts.source.uses && Update !in facts.source.uses && Unclassified !in facts.source.uses;
    }
  }

  /** The guards that get past the source contract and the declaration. */
  predicate Plain(strategy: Strategy, facts: Facts) {
    && !strategy.Atomic? && !facts.atomicDeclaration && !facts.source.InvalidContract?
    && (facts.source.Contract? ==> strategy.Immutable? || strategy.Localize?)
  }

  /** Localization only minds a hard violation it is not exempt from, and a taint that no hard violation explains. */
  ghost predicate Spoiled(strategy: Strategy, facts: Facts) {
    if strategy.Localize? then
      || (exists d :: d in facts.violations && d.hard && !d.localizeExempt)
      || (facts.violationTaint && forall d | d in facts.violations :: !d.hard)
    else facts.violationTaint
  }

  /** The slot does not hold a certificate, which is only held against it once something is computed or tainted. */
  predicate Uncertified(slot: Option<Certificate>, tainted: bool) {
    !IsCertified(slot) && (slot.Some? || tainted)
  }

  /** What the source contract can hold against leaving the global immutable. */
  ghost predicate SourceFault(guard: Guard, source: Obligations)
    requires source.Contract?
  {
    match guard
    case SourceUnmapped => !source.declared
    case SourceNotSync => source.containsObjectPointer
    case SourceInitializer => source.sectionInitializer
    case SourceAssigned => exists use :: use in source.uses && (use.Assignment? || use.Update?)
    case SourceUnclassified => exists use :: use in source.uses && use.Unclassified?
    case _ => false
  }

  /** What speaks against one strategy alone. */
  ghost predicate OwnFault(guard: Guard, strategy: Strategy, facts: Facts) {
    match strategy
    case Immutable =>
      || (guard.Written? && facts.written) || (guard.OmegaEscaped? && facts.omegaEscaped)
      || (facts.source.Contract? && !facts.violationTaint && SourceFault(guard, facts.source))
    case OnceLock => guard.PhaseStationarity? && Uncertified(facts.phaseStationarity, facts.violationTaint)
    case Mutex => guard.MutexEligibility? && Uncertified(facts.mutexEligibility, facts.violationTaint)
    case Localize => guard.Localizable? && facts.localization.Some? && !facts.localization.value.ok
    case Atomic => false
    case Unhandled => false
  }

  /** When a guard is named as the reason against a strategy. */
  ghost predicate Blamed(guard: Guard, strategy: Strategy, facts: Facts) {
    if Plain(strategy, facts) then OwnFault(guard, strategy, facts) || (guard.ViolationTaint? && Spoiled(strategy, facts))
    else if facts.source.InvalidContract? then guard.SourceInvalid?
    else if facts.source.Contract? && (strategy.OnceLock? || strategy.Mutex?) then guard.SourceUnsupported?
    else guard.AtomicDeclaration? && (strategy.Atomic? <==> !facts.atomicDeclaration)
  }

  /** A fact that nobody computed, asked for by a strategy that nothing else speaks against. */
  ghost predicate Missing(fact: Guard, strategy: Strategy, facts: Facts) {
    && Plain(strategy, facts) && !Spoiled(strategy, facts)
    && (|| (fact == PhaseStationarity && strategy.OnceLock? && facts.phaseStationarity.None?)
        || (fact == MutexEligibility && strategy.Mutex? && facts.mutexEligibility.None?)
        || (fact == Localizable && strategy.Localize? && facts.localization.None?))
  }

  lemma SourceFaultsAre(source: Obligations, guard: Guard)
    requires source.Contract?
    ensures guard in SourceImmutableFailures(source) <==> SourceFault(guard, source)
  {
    assert guard in SourceImmutableFailures(source) <==>
        || (guard == SourceUnmapped && !source.declared)
        || (guard == SourceNotSync && source.containsObjectPointer)
        || (guard == SourceInitializer && source.sectionInitializer)
        || (guard == SourceAssigned && (Assignment in source.uses || Update in source.uses))
        || (guard == SourceUnclassified && Unclassified in source.uses);
  }

  lemma OwnFaultsAre(strategy: Strategy, facts: Facts, guard: Guard)
    requires !strategy.Atomic? && !strategy.Unhandled?
    ensures facts.source.Contract? ==> (guard in SourceImmutableFailures(facts.source) <==> SourceFault(guard, facts.source))
    ensures guard in ImmutableFailures(facts) <==> (guard.Written? && facts.written) || (guard.OmegaEscaped? && facts.omegaEscaped)
    ensures ViolationTaintBlocks(strategy, facts) <==> Spoiled(strategy, facts)
  {
    if facts.source.Contract? {
      SourceFaultsAre(facts.source, guard);
    }
  }

  lemma TaintedAre(strategy: Strategy, facts: Facts, guard: Guard)
    requires !strategy.Atomic? && !strategy.Unhandled? && ViolationTaintBlocks(strategy, facts)
    ensures guard in Tainted(strategy, facts) <==> guard.ViolationTaint? || OwnFault(guard, strategy, facts)
  {
    OwnFaultsAre(strategy, facts, guard);
    hide SourceImmutableFailures, ImmutableFailures, SourceFault;
  }

  lemma UntaintedAre(facts: Facts, guard: Guard)
    requires !facts.violationTaint
    ensures var failed := ImmutableFailures(facts) + if facts.source.Contract? then SourceImmutableFailures(facts.source) else [];
            guard in failed <==> OwnFault(guard, Immutable, facts)
  {
    OwnFaultsAre(Immutable, facts, guard);
    hide SourceImmutableFailures, ImmutableFailures, SourceFault;
  }

  lemma PlainAreBlamed(strategy: Strategy, facts: Facts, guard: Guard)
    requires !strategy.Unhandled? && Plain(strategy, facts)
    ensures var result := Evaluate(strategy, facts);
            result.GuardsFailed? && guard in result.guards <==>
              OwnFault(guard, strategy, facts) || (guard.ViolationTaint? && Spoiled(strategy, facts))
  {
    OwnFaultsAre(strategy, facts, guard);
    if ViolationTaintBlocks(strategy, facts) {
      TaintedAre(strategy, facts, guard);
      hide SourceImmutableFailures, ImmutableFailures, OwnFault, SourceFault, Spoiled, ViolationTaintBlocks, Tainted;
    } else if strategy.Immutable? {
      UntaintedAre(facts, guard);
      hide SourceImmutableFailures, ImmutableFailures, OwnFault, SourceFault, Spoiled, ViolationTaintBlocks;
    } else {
      hide SourceImmutableFailures, ImmutableFailures, SourceFault, Spoiled, ViolationTaintBlocks, Tainted;
    }
  }

  lemma NotComputedIsMissing(strategy: Strategy, facts: Facts, fact: Guard)
    requires !strategy.Unhandled?
    ensures Evaluate(strategy, facts) == NotComputed(fact) <==> Missing(fact, strategy, facts)
  {
    hide SourceImmutableFailures, ImmutableFailures, Tainted;
    if !strategy.Atomic? {
      OwnFaultsAre(strategy, facts, fact);
    }
    hide Spoiled, ViolationTaintBlocks;
  }

  /** The guards that a failed result names are exactly those to blame, and the fact it misses was never computed. */
  lemma GuardsAreBlamed(strategy: Strategy, facts: Facts, guard: Guard)
    requires !strategy.Unhandled?
    ensures var result := Evaluate(strategy, facts);
            && (result.GuardsFailed? && guard in result.guards <==> Blamed(guard, strategy, facts))
            && (result == NotComputed(guard) <==> Missing(guard, strategy, facts))
  {
    hide Missing, OwnFault, Spoiled;
    NotComputedIsMissing(strategy, facts, guard);
    if Plain(strategy, facts) {
      PlainAreBlamed(strategy, facts, guard);
      hide Evaluate;
    }
  }

  /** A pin that is available can be judged: its guard is always computed. */
  lemma AvailableIsComputed(strategy: Strategy, facts: Facts)
    requires !strategy.Unhandled? && UnavailableOutcome(strategy, facts).None?
    ensures !Evaluate(strategy, facts).NotComputed?
    ensures strategy.Atomic? <==> facts.atomicDeclaration
    ensures strategy.Atomic? ==> Evaluate(strategy, facts).Applicable?
  {
  }

  /** What validation asks of a localization: blockers are listed exactly when it is blocked. */
  predicate ValidFacts(facts: Facts) {
    facts.localization.Some? && facts.localization.value.ok ==> !facts.localization.value.sourceBlocked
  }

  /**
   What the guards accept can also be pinned. Facts that never went through validation are the one
   exception: a localization that is not blocked and lists a source blocker is refused as a pin only.
   */
  lemma ApplicableIsAvailable(strategy: Strategy, facts: Facts)
    requires !strategy.Unhandled? && Evaluate(strategy, facts).Applicable?
    ensures UnavailableOutcome(strategy, facts).Some? <==>
              strategy.Localize? && facts.source.Contract? && facts.localization.value.sourceBlocked
    ensures ValidFacts(facts) ==> UnavailableOutcome(strategy, facts).None?
  {
    if strategy.Immutable? && facts.source.Contract? {
      assert ImmutableFailures(facts) + SourceImmutableFailures(facts.source) == [];
      assert SourceImmutableFailures(facts.source) == [];
    }
  }

  // ---------------------------------------------------------------------------------------------
  // The cascade

  datatype Mode = Application | Library

  datatype Config = Config(mode: Mode, order: seq<Strategy>)

  datatype ConfigError = Duplicate(strategy: Strategy) | ExplicitUnhandled | LocalizeInLibrary

  ghost predicate ConfigOk(config: Config) {
    && Strategy.Unhandled !in config.order && NoDuplicates(config.order)
    && (config.mode.Library? ==> Strategy.Localize !in config.order)
  }

  method ValidateConfig(config: Config) returns (error: Option<ConfigError>)
    ensures error.None? <==> ConfigOk(config)
    ensures error == Some(ExplicitUnhandled) ==> Strategy.Unhandled in config.order
    ensures error == Some(LocalizeInLibrary) ==> config.mode.Library? && Strategy.Localize in config.order
    ensures error.Some? && error.value.Duplicate? ==>
              exists i, j :: 0 <= i < j < |config.order| && config.order[i] == config.order[j] == error.value.strategy
  {
    var seen: set<Strategy> := {};
    for i := 0 to |config.order|
      invariant seen == Elements(config.order[..i])
      invariant ConfigOk(Config(config.mode, config.order[..i]))
    {
      var strategy := config.order[i];
      assert config.order[..i + 1] == config.order[..i] + [strategy];
      if strategy.Unhandled? {
        return Some(ExplicitUnhandled);
      }
      if strategy in seen {
        assert exists h :: 0 <= h < i && config.order[h] == config.order[i];
        return Some(Duplicate(strategy));
      }
      if config.mode.Library? && strategy.Localize? {
        return Some(LocalizeInLibrary);
      }
      seen := seen + {strategy};
    }
    assert config.order[..|config.order|] == config.order;
    return None;
  }

  datatype Skip = Skip(strategy: Strategy, reason: GuardResult)

  /** The first applicable strategy of the order, with the reason against every one before it. */
  function Cascade(order: seq<Strategy>, facts: Facts): (r: (Strategy, seq<Skip>))
    requires Strategy.Unhandled !in order
    ensures |r.1| <= |order|
    ensures forall i | 0 <= i < |r.1| ::
              && r.1[i].strategy == order[i]
              && r.1[i].reason == Evaluate(order[i], facts) && !r.1[i].reason.Applicable?
    ensures if |r.1| == |order| then r.0.Unhandled?
            else r.0 == order[|r.1|] && Evaluate(r.0, facts).Applicable?
  {
    if order == [] then (Strategy.Unhandled, [])
    else
      assert order == [order[0]] + order[1..];
      var result := Evaluate(order[0], facts);
      if result.Applicable? then (order[0], [])
      else
        var (chosen, trace) := Cascade(order[1..], facts);
        (chosen, [Skip(order[0], result)] + trace)
  }

  /** No earlier strategy of the order would have applied, and `Unhandled` means that none does. */
  lemma CascadeIsFirst(order: seq<Strategy>, facts: Facts, i: nat)
    requires Strategy.Unhandled !in order && i < |order| && Eligible(order[i], facts)
    ensures var (chosen, trace) := Cascade(order, facts);
            |trace| <= i && chosen == order[|trace|] && Eligible(chosen, facts)
  {
    ApplicableIsEligible(order[i], facts);
    var (chosen, trace) := Cascade(order, facts);
    ApplicableIsEligible(chosen, facts);
  }

  /** A declared atomic is never chosen for anything else, and nothing else is chosen for atomic. */
  lemma CascadeAtomic(order: seq<Strategy>, facts: Facts)
    requires Strategy.Unhandled !in order
    ensures var chosen := Cascade(order, facts).0;
            && (chosen.Atomic? ==> facts.atomicDeclaration)
            && (facts.atomicDeclaration ==> chosen.Atomic? || chosen.Unhandled?)
  {
    var chosen := Cascade(order, facts).0;
    if !chosen.Unhandled? {
      ApplicableIsEligible(chosen, facts);
    }
  }
}
