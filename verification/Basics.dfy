/** What several passes have in common: how a global is accessed, and by what kind of build. */
module Basics {
  import opened Sorting

  datatype BuildMode = Executable | Library

  datatype Access = Ref | Mod
  datatype Via = DirectVia | Aliased | UnknownVia

  /** Where an unnamed access may land. */
  datatype Candidates<T> = Finite(globals: T) | ModuleWide

  /** The preferred witness. Witnesses only matter through their order; a missing one never wins. */
  function Preferred(existing: Option<nat>, candidate: Option<nat>): (w: Option<nat>)
    ensures w.None? <==> existing.None? && candidate.None?
    ensures w == existing || w == candidate
    ensures forall x | x in {existing, candidate} && x.Some? :: w.Some? && w.value <= x.value
  {
    match (existing, candidate)
    case (None, _) => candidate
    case (_, None) => existing
    case (Some(left), Some(right)) => if left <= right then existing else candidate
  }
}
