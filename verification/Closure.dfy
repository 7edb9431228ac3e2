/**
 The transitive mod/ref closure: rows flow bottom-up over the condensed call graph, and a row list
 longer than the fanout limit is collapsed to at most one row for each access kind.
 */
module Closure {
  import opened Basics
  import opened Paths
  import opened Sorting
  import opened CallGraph
  import opened ModRefs
  import Tarjan

  // ---------------------------------------------------------------------------------------------
  // Row lists

  method MergeSortedUnique(left: seq<nat>, right: seq<nat>) returns (merged: seq<nat>)
    ensures |merged| <= |left| + |right|
    ensures forall x :: x in merged <==> x in left || x in right
    ensures StrictlyAscending(left) && StrictlyAscending(right) ==> StrictlyAscending(merged)
  {
    merged := [];
    var i, j := 0, 0;
    while i < |left| && j < |right|
      invariant 0 <= i <= |left| && 0 <= j <= |right| && |merged| <= i + j
      invariant forall x :: x in merged <==> x in left[..i] || x in right[..j]
      invariant StrictlyAscending(left) && StrictlyAscending(right) ==>
                  StrictlyAscending(merged) && BelowRest(merged, left, i) && BelowRest(merged, right, j)
      decreases |left| - i + |right| - j
    {
      assert left[..i + 1] == left[..i] + [left[i]] && right[..j + 1] == right[..j] + [right[j]];
      if left[i] < right[j] {
        merged := merged + [left[i]];
        i := i + 1;
      } else if left[i] > right[j] {
        merged := merged + [right[j]];
        j := j + 1;
      } else {
        merged := merged + [left[i]];
        i, j := i + 1, j + 1;
      }
    }
    assert left == left[..i] + left[i..] && right == right[..j] + right[j..];
    merged := merged + left[i..] + right[j..];
  }

  /** Everything emitted so far is smaller than what is left of `list` from `i` on. */
  ghost predicate BelowRest(merged: seq<nat>, list: seq<nat>, i: nat) {
    forall a, b | 0 <= a < |merged| && i <= b < |list| :: merged[a] < list[b]
  }

  /** The globals that rows of one access kind may touch; one unbounded row makes them all. */
  method TransitiveCandidateUnion(rows: seq<nat>, payloads: seq<Payload>, access: Access) returns (c: Candidates<seq<nat>>)
    requires RowsInRange(rows, payloads)
    ensures c.ModuleWide? <==> HasWide(FactsOf(rows, payloads), access)
    ensures c.Finite? ==> StrictlyAscending(c.globals)
    ensures c.Finite? ==> forall g :: g in c.globals <==> g in Touched(FactsOf(rows, payloads), access)
  {
    var globals: seq<nat> := [];
    for i := 0 to |rows|
      invariant !HasWide(FactsOf(rows[..i], payloads), access)
      invariant forall g :: g in globals <==> g in Touched(FactsOf(rows[..i], payloads), access)
    {
      var fact := payloads[rows[i]].fact;
      FactsOfNext(rows, i, payloads);
      TouchedNext(FactsOf(rows[..i], payloads), fact, access);
      if fact.access == access {
        match fact.target
        case Named(g) => globals := globals + [g];
        case UnknownTarget(_) =>
          if fact.candidates.Finite? {
            globals := globals + fact.candidates.globals;
          } else {
            FactsOfPrefix(rows, i + 1, payloads);
            return ModuleWide;
          }
      }
    }
    assert rows[..|rows|] == rows;
    SortDedupAscending(globals);
    c := Finite(SortDedup(globals));
  }

  lemma FactsOfSingle(id: nat, payloads: seq<Payload>)
    requires id < |payloads|
    ensures RowsInRange([id], payloads) && FactsOf([id], payloads) == {payloads[id].fact}
  {
    assert [id][0] == id;
  }

  lemma TouchedNext(facts: set<Fact>, f: Fact, a: Access)
    ensures Touched(facts + {f}, a) == Touched(facts, a) + if f.access == a then Bounded(f) else {}
    ensures HasWide(facts + {f}, a) <==> HasWide(facts, a) || (f.access == a && Wide(f))
  {
  }

  lemma FactsOfNext(rows: seq<nat>, i: nat, payloads: seq<Payload>)
    requires RowsInRange(rows, payloads) && i < |rows|
    ensures FactsOf(rows[..i + 1], payloads) == FactsOf(rows[..i], payloads) + {payloads[rows[i]].fact}
  {
    var next := rows[..i + 1];
    forall k | 0 <= k < |next|
      ensures payloads[next[k]].fact in FactsOf(rows[..i], payloads) + {payloads[rows[i]].fact}
    {
      if k < i {
        assert rows[..i][k] == next[k];
      }
    }
    forall k | 0 <= k < i
      ensures payloads[rows[..i][k]].fact in FactsOf(next, payloads)
    {
      assert next[k] == rows[..i][k];
    }
    assert next[i] == rows[i];
  }

  lemma FactsOfPrefix(rows: seq<nat>, i: nat, payloads: seq<Payload>)
    requires RowsInRange(rows, payloads) && i <= |rows|
    ensures FactsOf(rows[..i], payloads) <= FactsOf(rows, payloads)
  {
    forall k | 0 <= k < i
      ensures payloads[rows[..i][k]].fact in FactsOf(rows, payloads)
    {
      assert rows[..i][k] == rows[k];
    }
  }

  // ---------------------------------------------------------------------------------------------
  // Collapsing

  function FallbackReason(access: Access): string {
    match access case Ref => "omega_load" case Mod => "omega_store"
  }

  function HighFanoutFact(access: Access, detail: Option<string>, candidates: Candidates<seq<nat>>): Fact {
    Fact(UnknownTarget(FallbackReason(access)), access, UnknownVia, detail, None, [], candidates)
  }

  function Decimal(n: nat): string {
    if n < 10 then ["0123456789"[n]] else Decimal(n / 10) + ["0123456789"[n % 10]]
  }

  function LimitDetail(limit: nat): Option<string> {
    Some("high_fanout_transitive_modref:limit=" + Decimal(limit))
  }

  /** The number that a string of digits spells. */
  ghost function Spelled(digits: string): int {
    if digits == [] then 0 else Spelled(digits[..|digits| - 1]) * 10 + (digits[|digits| - 1] as int - '0' as int)
  }

  /** Numbers are written in decimal, without superfluous zeros. */
  lemma {:induction false} DecimalSpells(n: nat)
    ensures Spelled(Decimal(n)) == n && Decimal(n) != [] && (Decimal(n)[0] == '0' ==> n == 0)
    ensures forall i | 0 <= i < |Decimal(n)| :: '0' <= Decimal(n)[i] <= '9'
  {
    var digit := ["0123456789"[n % 10]];
    assert digit[0] as int - '0' as int == n % 10;
    if n >= 10 {
      DecimalSpells(n / 10);
      assert Decimal(n)[..|Decimal(n)| - 1] == Decimal(n / 10);
    }
  }

  const PROPAGATED: Option<string> := Some("high_fanout_transitive_modref:propagated")

  /** `c` bounds the `access` rows of `facts` exactly. */
  ghost predicate BoundsOf(c: Candidates<seq<nat>>, facts: set<Fact>, access: Access) {
    && (c.ModuleWide? <==> HasWide(facts, access))
    && (c.Finite? ==> Elements(c.globals) == Touched(facts, access))
  }

  /** What one collapse leaves of `facts`: one fact for each access kind present. */
  ghost predicate Collapsed(facts: set<Fact>, result: set<Fact>, detail: Option<string>, refs: Candidates<seq<nat>>, mods: Candidates<seq<nat>>) {
    && (HasAccess(facts, Ref) ==> BoundsOf(refs, facts, Ref))
    && (HasAccess(facts, Mod) ==> BoundsOf(mods, facts, Mod))
    && result == (if HasAccess(facts, Ref) then {HighFanoutFact(Ref, detail, refs)} else {})
               + (if HasAccess(facts, Mod) then {HighFanoutFact(Mod, detail, mods)} else {})
  }

  /** The rows of a collapse: one for each access there was, to nowhere in particular, with the detail and nothing else. */
  lemma CollapsedRowsAre(
      facts: set<Fact>, result: set<Fact>, detail: Option<string>, refs: Candidates<seq<nat>>, mods: Candidates<seq<nat>>)
    requires Collapsed(facts, result, detail, refs, mods)
    ensures forall a :: HasAccess(facts, a) <==> exists f :: f in result && f.access == a
    ensures forall f | f in result ::
              && f.target == UnknownTarget(if f.access == Ref then "omega_load" else "omega_store") && f.via == UnknownVia
              && f.detail == detail && f.addressNode == None && f.pointees == []
  {
    assert HasAccess(facts, Ref) ==> HighFanoutFact(Ref, detail, refs) in result;
    assert HasAccess(facts, Mod) ==> HighFanoutFact(Mod, detail, mods) in result;
  }

  /** A collapse never changes which globals may be read or written. */
  lemma CollapseKeepsScope(
      facts: set<Fact>, result: set<Fact>, detail: Option<string>, refs: Candidates<seq<nat>>, mods: Candidates<seq<nat>>)
    requires Collapsed(facts, result, detail, refs, mods)
    ensures SameScope(result, facts)
  {
    forall a
      ensures ScopeOf(result, a) == ScopeOf(facts, a)
    {
      var c := if a.Ref? then refs else mods;
      var row := HighFanoutFact(a, detail, c);
      if HasAccess(facts, a) {
        assert row in result && row.access == a;
        assert forall f | f in result && f.access == a :: f == row;
        assert HasWide(result, a) <==> Wide(row);
        assert Touched(result, a) == Bounded(row);
      } else {
        assert forall f | f in result :: f.access != a;
      }
    }
  }

  /** The rows of one component: complete up to collapsing, ascending, and short when collapsed. */
  ghost predicate RowsMatch(
      rows: seq<nat>, approximate: bool, payloads: seq<Payload>, facts: set<Fact>, limit: nat)
  {
    && RowsInRange(rows, payloads)
    && StrictlyAscending(rows)
    && SameScope(FactsOf(rows, payloads), facts)
    && (!approximate ==> FactsOf(rows, payloads) == facts)
    && (limit == 0 ==> !approximate)
  }

  ghost predicate Short(rows: seq<nat>, limit: nat) {
    limit > 0 ==> |rows| <= if limit < 2 then 2 else limit
  }

  /** Whether `rows` hold an access of this kind, and if so its bound. */
  method BoundAccess(rows: seq<nat>, payloads: seq<Payload>, access: Access) returns (present: bool, c: Candidates<seq<nat>>)
    requires RowsInRange(rows, payloads)
    ensures present <==> HasAccess(FactsOf(rows, payloads), access)
    ensures present ==> BoundsOf(c, FactsOf(rows, payloads), access)
  {
    present, c := exists i | 0 <= i < |rows| :: payloads[rows[i]].fact.access == access, ModuleWide;
    if present {
      c := TransitiveCandidateUnion(rows, payloads, access);
    }
  }

  // ---------------------------------------------------------------------------------------------
  // The condensed graph

  /** Successors of a component have smaller numbers: what makes the recursion end. */
  ghost predicate Downward(succs: seq<seq<nat>>) {
    forall k, s | 0 <= k < |succs| && s in succs[k] :: s < k
  }

  /** The local facts of component `k` and of everything below it. */
  ghost function SccFacts(local: seq<set<Fact>>, succs: seq<seq<nat>>, k: nat): set<Fact>
    requires |local| == |succs| && Downward(succs) && k < |succs|
    decreases k, 1
  {
    FactsBelow(local, succs, k, |succs[k]|)
  }

  /** `SccFacts` of `k` restricted to its first `i` successors. */
  ghost function FactsBelow(local: seq<set<Fact>>, succs: seq<seq<nat>>, k: nat, i: nat): set<Fact>
    requires |local| == |succs| && Downward(succs) && k < |succs| && i <= |succs[k]|
    decreases k, 0, i
  {
    if i == 0 then local[k]
    else
      assert succs[k][i - 1] in succs[k];
      FactsBelow(local, succs, k, i - 1) + SccFacts(local, succs, succs[k][i - 1])
  }

  datatype SccRows = SccRows(rows: seq<nat>, approximate: bool)

  class Collector {
    const localByScc: seq<seq<nat>>
    const succs: seq<seq<nat>>
    const limit: nat
    const interner: Interner
    /** The facts behind `localByScc`. */
    ghost const local: seq<set<Fact>>
    var memo: seq<Option<SccRows>>

    ghost predicate Valid()
      reads this, interner
    {
      && |localByScc| == |succs| == |local| == |memo| && Downward(succs)
      && interner.Valid()
      && (forall k | 0 <= k < |localByScc| ::
            RowsInRange(localByScc[k], interner.payloads)
            && StrictlyAscending(localByScc[k])
            && FactsOf(localByScc[k], interner.payloads) == local[k])
      && (forall k | 0 <= k < |memo| && memo[k].Some? :: Entry(k, memo[k].value))
    }

    ghost predicate Entry(k: nat, entry: SccRows)
      requires |succs| == |local| && Downward(succs) && k < |succs|
      reads interner
    {
      RowsMatch(entry.rows, entry.approximate, interner.payloads, SccFacts(local, succs, k), limit)
      && Short(entry.rows, limit)
    }

    constructor (interner: Interner, localByScc: seq<seq<nat>>, succs: seq<seq<nat>>, limit: nat, ghost local: seq<set<Fact>>)
      requires |localByScc| == |succs| == |local| && Downward(succs) && interner.Valid()
      requires forall k | 0 <= k < |localByScc| ::
                 RowsInRange(localByScc[k], interner.payloads)
                 && StrictlyAscending(localByScc[k])
                 && FactsOf(localByScc[k], interner.payloads) == local[k]
      ensures Valid() && this.interner == interner && this.succs == succs && this.local == local && this.limit == limit
    {
      this.interner, this.localByScc, this.succs, this.limit, this.local := interner, localByScc, succs, limit, local;
      memo := seq(|succs|, _ => None);
    }

    /** Interning keeps every recorded row list. */
    twostate lemma InterningKeepsValid()
      requires old(Valid()) && interner.Valid() && Grows(old(interner.payloads), interner.payloads)
      requires unchanged(this)
      ensures Valid()
    {
      forall k | 0 <= k < |localByScc|
        ensures RowsInRange(localByScc[k], interner.payloads)
        ensures FactsOf(localByScc[k], interner.payloads) == local[k]
      {
        GrowsKeepsFacts(localByScc[k], old(interner.payloads), interner.payloads);
      }
      forall k | 0 <= k < |memo| && memo[k].Some?
        ensures Entry(k, memo[k].value)
      {
        GrowsKeepsFacts(memo[k].value.rows, old(interner.payloads), interner.payloads);
      }
    }

    /** Interns one fallback row, or nothing. */
    method InternFallback(present: bool, access: Access, detail: Option<string>, candidates: Candidates<seq<nat>>)
      returns (ids: seq<nat>)
      requires Valid()
      modifies interner
      ensures Valid() && Grows(old(interner.payloads), interner.payloads)
      ensures |ids| <= 1 && RowsInRange(ids, interner.payloads)
      ensures FactsOf(ids, interner.payloads) == if present then {HighFanoutFact(access, detail, candidates)} else {}
    {
      ids := [];
      if present {
        var id := interner.Intern(Payload(HighFanoutFact(access, detail, candidates), None));
        ids := [id];
        FactsOfSingle(id, interner.payloads);
        InterningKeepsValid();
      }
    }

    /** Replaces `rows` by one fallback row for each access kind present. */
    method CompactTransitiveRows(rows: seq<nat>, detail: Option<string>) returns (compact: seq<nat>)
      requires Valid() && RowsInRange(rows, interner.payloads)
      modifies interner
      ensures Valid() && Grows(old(interner.payloads), interner.payloads)
      ensures RowsInRange(compact, interner.payloads) && StrictlyAscending(compact) && |compact| <= 2
      ensures SameScope(FactsOf(compact, interner.payloads), FactsOf(rows, old(interner.payloads)))
    {
      ghost var facts := FactsOf(rows, interner.payloads);
      var hasRef, refs := BoundAccess(rows, interner.payloads, Ref);
      var hasMod, mods := BoundAccess(rows, interner.payloads, Mod);
      var refIds := InternFallback(hasRef, Ref, detail, refs);
      ghost var middle := interner.payloads;
      var modIds := InternFallback(hasMod, Mod, detail, mods);
      GrowsKeepsFacts(refIds, middle, interner.payloads);
      var fallback := refIds + modIds;
      SortDedupAscending(fallback);
      compact := SortDedup(fallback);
      DedupLength(fallback);
      FactsOfUnion(compact, refIds, modIds, interner.payloads);
      CollapseKeepsScope(facts, FactsOf(compact, interner.payloads), detail, refs, mods);
    }

    /** The high-fanout collapse; says whether it applied. */
    method CollapseHighFanout(rows: seq<nat>) returns (collapsed: seq<nat>, applied: bool)
      requires Valid() && RowsInRange(rows, interner.payloads)
      modifies interner
      ensures Valid() && Grows(old(interner.payloads), interner.payloads)
      ensures applied <==> limit > 0 && |rows| > limit
      ensures !applied ==> collapsed == rows
      ensures applied ==> StrictlyAscending(collapsed) && |collapsed| <= 2
      ensures RowsInRange(collapsed, interner.payloads)
      ensures SameScope(FactsOf(collapsed, interner.payloads), FactsOf(rows, old(interner.payloads)))
    {
      if limit == 0 || |rows| <= limit {
        collapsed, applied := rows, false;
      } else {
        collapsed := CompactTransitiveRows(rows, LimitDetail(limit));
        applied := true;
      }
    }

    /** One successor's rows folded into the rows collected so far. */
    method AbsorbSuccessor(rows: seq<nat>, approximate: bool, below: SccRows, ghost facts: set<Fact>, ghost more: set<Fact>)
      returns (rows': seq<nat>, approximate': bool)
      requires Valid()
      requires RowsMatch(rows, approximate, interner.payloads, facts, limit)
      requires RowsMatch(below.rows, below.approximate, interner.payloads, more, limit)
      modifies interner
      ensures Valid() && Grows(old(interner.payloads), interner.payloads)
      ensures RowsMatch(rows', approximate', interner.payloads, facts + more, limit) && Short(rows', limit)
    {
      ghost var before := interner.payloads;
      var merged := MergeSortedUnique(rows, below.rows);
      FactsOfUnion(merged, rows, below.rows, before);
      SameScopeUnion(FactsOf(rows, before), facts, FactsOf(below.rows, before), more);
      var applied;
      rows', applied := CollapseHighFanout(merged);
      approximate' := approximate || below.approximate || applied;
      if !applied {
        GrowsKeepsFacts(merged, before, interner.payloads);
      }
      if approximate' {
        rows' := CompactTransitiveRows(rows', PROPAGATED);
      }
    }

    /** `entry` holds the rows of `scc` after its first `i` successors. */
    ghost predicate Partial(scc: nat, i: nat, entry: SccRows)
      requires |succs| == |local| && Downward(succs) && scc < |succs| && i <= |succs[scc]|
      reads interner
    {
      RowsMatch(entry.rows, entry.approximate, interner.payloads, FactsBelow(local, succs, scc, i), limit)
      && Short(entry.rows, limit)
    }

    method CollectSccPayloadIds(scc: nat) returns (result: SccRows)
      requires Valid() && scc < |succs|
      modifies this`memo, interner
      ensures Valid() && Grows(old(interner.payloads), interner.payloads)
      ensures memo[scc] == Some(result)
      ensures forall k | 0 <= k < |succs| && old(memo[k]).Some? :: memo[k] == old(memo[k])
      decreases scc, 1
    {
      if memo[scc].Some? {
        return memo[scc].value;
      }
      result := StartScc(scc);
      for i := 0 to |succs[scc]|
        invariant Valid() && Grows(old(interner.payloads), interner.payloads)
        invariant Partial(scc, i, result)
        invariant forall k | 0 <= k < |succs| && old(memo[k]).Some? :: memo[k] == old(memo[k])
      {
        result := CollectSuccessor(scc, i, result);
      }
      DedupFixed(result.rows);
      assert Dedup(result.rows) == result.rows && Entry(scc, result);
      result := SccRows(Dedup(result.rows), result.approximate);
      Record(scc, result);
    }

    /** The component's own rows. */
    method StartScc(scc: nat) returns (result: SccRows)
      requires Valid() && scc < |succs|
      modifies interner
      ensures Valid() && Grows(old(interner.payloads), interner.payloads)
      ensures Partial(scc, 0, result)
    {
      var rows, approximate := CollapseHighFanout(localByScc[scc]);
      assert FactsBelow(local, succs, scc, 0) == local[scc];
      GrowsKeepsFacts(localByScc[scc], old(interner.payloads), interner.payloads);
      result := SccRows(rows, approximate);
    }

    method Record(scc: nat, result: SccRows)
      requires Valid() && scc < |succs| && Entry(scc, result)
      modifies this`memo
      ensures Valid() && memo == old(memo)[scc := Some(result)]
    {
      memo := memo[scc := Some(result)];
    }

    /** One turn of the successor loop. */
    method CollectSuccessor(scc: nat, i: nat, sofar: SccRows) returns (result: SccRows)
      requires Valid() && scc < |succs| && i < |succs[scc]| && Partial(scc, i, sofar)
      modifies this`memo, interner
      ensures Valid() && Grows(old(interner.payloads), interner.payloads)
      ensures Partial(scc, i + 1, result)
      ensures forall k | 0 <= k < |succs| && old(memo[k]).Some? :: memo[k] == old(memo[k])
      decreases scc, 0
    {
      var succ := succs[scc][i];
      assert succ in succs[scc];
      var below := CollectSccPayloadIds(succ);
      GrowsKeepsFacts(sofar.rows, old(interner.payloads), interner.payloads);
      assert Entry(succ, below);
      var rows, approximate := AbsorbSuccessor(
        sofar.rows, sofar.approximate, below, FactsBelow(local, succs, scc, i), SccFacts(local, succs, succ));
      result := SccRows(rows, approximate);
    }
  }

  lemma DedupLength(s: seq<nat>)
    ensures |SortDedup(s)| <= |s|
  {
  }

  // ---------------------------------------------------------------------------------------------
  // From components back to functions

  /** The local facts of every function that `f` reaches through resolved calls. */
  ghost function ReachableFacts(locals: seq<ModRef>, edges: seq<CallEdge>, f: nat): set<Fact> {
    set i | 0 <= i < |locals| && Reach(KnownCalls(edges), f, locals[i].func) :: locals[i].payload.fact
  }

  ghost predicate LocalsInRange(locals: seq<ModRef>, funcCount: nat) {
    forall i | 0 <= i < |locals| :: locals[i].func < funcCount
  }

  /** The local facts of the functions of component `k`. */
  ghost function FactsOfScc(locals: seq<ModRef>, sccOf: seq<nat>, k: nat): set<Fact>
    requires LocalsInRange(locals, |sccOf|)
  {
    set i | 0 <= i < |locals| && sccOf[locals[i].func] == k :: locals[i].payload.fact
  }

  /** `succs` is the condensation of `table`: the distinct components called from each component. */
  ghost predicate IsCondensed(table: seq<seq<nat>>, sccOf: seq<nat>, sccCount: nat, succs: seq<seq<nat>>)
    requires |sccOf| == |table| && Tarjan.InRange(table)
  {
    && |succs| == sccCount
    && (forall k, s: nat | 0 <= k < |succs| ::
          s in succs[k] <==> s != k && exists u: nat, w: nat :: CrossCall(table, sccOf, u, w, k, s))
  }

  /** The call from `u` to `w` leads from component `k` to component `s`. */
  ghost predicate CrossCall(table: seq<seq<nat>>, sccOf: seq<nat>, u: nat, w: nat, k: nat, s: nat)
    requires |sccOf| == |table| && Tarjan.InRange(table)
  {
    u < |table| && w in table[u] && sccOf[u] == k && sccOf[w] == s
  }

  lemma CondensedIsDownward(table: seq<seq<nat>>, members: seq<seq<nat>>, sccOf: seq<nat>, succs: seq<seq<nat>>)
    requires Tarjan.InRange(table) && Tarjan.IsCondensation(table, members, sccOf)
    requires IsCondensed(table, sccOf, |members|, succs)
    ensures Downward(succs)
  {
    forall k, s | 0 <= k < |succs| && s in succs[k]
      ensures s < k
    {
      var u, w :| CrossCall(table, sccOf, u, w, k, s);
    }
  }

  /** The facts below a component, by the successors they come through. */
  lemma {:induction false} FactsBelowMember(local: seq<set<Fact>>, succs: seq<seq<nat>>, k: nat, i: nat, fact: Fact)
    requires |local| == |succs| && Downward(succs) && k < |succs| && i <= |succs[k]|
    ensures fact in FactsBelow(local, succs, k, i) <==>
            fact in local[k] || exists j :: 0 <= j < i && fact in SccFacts(local, succs, SuccOf(succs, k, j))
    decreases i
  {
    if i > 0 {
      FactsBelowMember(local, succs, k, i - 1, fact);
      assert SuccOf(succs, k, i - 1) == succs[k][i - 1];
    }
  }

  ghost function SuccOf(succs: seq<seq<nat>>, k: nat, j: nat): (s: nat)
    requires Downward(succs) && k < |succs| && j < |succs[k]|
    ensures s < k && s < |succs| && s in succs[k]
  {
    assert succs[k][j] in succs[k];
    succs[k][j]
  }

  /** Facts collected for a component come from functions its members reach. */
  lemma {:induction false} SccFactsReachable(
      table: seq<seq<nat>>, members: seq<seq<nat>>, sccOf: seq<nat>, succs: seq<seq<nat>>, locals: seq<ModRef>,
      local: seq<set<Fact>>, f: nat, fact: Fact) returns (i: nat)
    requires Condensing(table, members, sccOf, succs, locals, local)
    requires f < |table| && fact in SccFacts(local, succs, sccOf[f])
    ensures i < |locals| && locals[i].payload.fact == fact && Tarjan.Reaches(table, f, locals[i].func)
    decreases sccOf[f]
  {
    var k := sccOf[f];
    FactsBelowMember(local, succs, k, |succs[k]|, fact);
    if fact in local[k] {
      i :| 0 <= i < |locals| && sccOf[locals[i].func] == k && locals[i].payload.fact == fact;
    } else {
      var j :| 0 <= j < |succs[k]| && fact in SccFacts(local, succs, SuccOf(succs, k, j));
      var u, w :| CrossCall(table, sccOf, u, w, k, SuccOf(succs, k, j));
      i := SccFactsReachable(table, members, sccOf, succs, locals, local, w, fact);
      Tarjan.CallEdge(table, u, w);
      Tarjan.CallTrans(table, f, u, w);
      Tarjan.CallTrans(table, f, w, locals[i].func);
    }
  }

  /** Every local fact of a reached function is collected. */
  lemma {:induction false} ReachableCollected(
      table: seq<seq<nat>>, members: seq<seq<nat>>, sccOf: seq<nat>, succs: seq<seq<nat>>, locals: seq<ModRef>,
      local: seq<set<Fact>>, f: nat, i: nat)
    requires Condensing(table, members, sccOf, succs, locals, local)
    requires f < |table| && i < |locals| && Tarjan.Reaches(table, f, locals[i].func)
    ensures locals[i].payload.fact in SccFacts(local, succs, sccOf[f])
    decreases sccOf[f]
  {
    var k, h, fact := sccOf[f], locals[i].func, locals[i].payload.fact;
    FactsBelowMember(local, succs, k, |succs[k]|, fact);
    if sccOf[h] != k {
      var u, w := Crossing(Tarjan.Calls(table), (x: nat) => x < |sccOf| && sccOf[x] == k, f, h);
      var s := sccOf[w];
      assert CrossCall(table, sccOf, u, w, k, s);
      assert s in succs[k];
      var j :| 0 <= j < |succs[k]| && succs[k][j] == s;
      assert SuccOf(succs, k, j) == s;
      ReachableCollected(table, members, sccOf, succs, locals, local, w, i);
    }
  }

  ghost predicate Condensing(
    table: seq<seq<nat>>, members: seq<seq<nat>>, sccOf: seq<nat>, succs: seq<seq<nat>>, locals: seq<ModRef>,
    local: seq<set<Fact>>)
  {
    && Tarjan.InRange(table) && Tarjan.IsCondensation(table, members, sccOf)
    && IsCondensed(table, sccOf, |members|, succs) && Downward(succs)
    && LocalsInRange(locals, |sccOf|)
    && |local| == |succs| && forall k: nat | k < |local| :: local[k] == FactsOfScc(locals, sccOf, k)
  }

  /** The component of `f` collects exactly the local facts of the functions `f` reaches. */
  lemma SccFactsAreReachableFacts(
      table: seq<seq<nat>>, members: seq<seq<nat>>, sccOf: seq<nat>, succs: seq<seq<nat>>, locals: seq<ModRef>,
      local: seq<set<Fact>>, edges: seq<CallEdge>, f: nat)
    requires Condensing(table, members, sccOf, succs, locals, local)
    requires IsCalleeTable(table, edges, |table|) && EdgesInRange(edges, |table|) && f < |table|
    ensures SccFacts(local, succs, sccOf[f]) == ReachableFacts(locals, edges, f)
  {
    forall fact | fact in SccFacts(local, succs, sccOf[f])
      ensures fact in ReachableFacts(locals, edges, f)
    {
      var i := SccFactsReachable(table, members, sccOf, succs, locals, local, f, fact);
      TableReach(table, edges, |table|, f, locals[i].func);
    }
    forall i | 0 <= i < |locals| && Reach(KnownCalls(edges), f, locals[i].func)
      ensures locals[i].payload.fact in SccFacts(local, succs, sccOf[f])
    {
      TableReach(table, edges, |table|, f, locals[i].func);
      ReachableCollected(table, members, sccOf, succs, locals, local, f, i);
    }
  }

  // ---------------------------------------------------------------------------------------------
  // The pass

  method CondenseCalls(table: seq<seq<nat>>, sccOf: seq<nat>, sccCount: nat) returns (succs: seq<seq<nat>>)
    requires |sccOf| == |table| && Tarjan.InRange(table) && forall u | 0 <= u < |sccOf| :: sccOf[u] < sccCount
    ensures IsCondensed(table, sccOf, sccCount, succs)
  {
    succs := seq(sccCount, _ => []);
    for u := 0 to |table|
      invariant |succs| == sccCount
      invariant forall k, s: nat | 0 <= k < |succs| ::
                  s in succs[k] <==> s != k && exists x: nat, w: nat :: x < u && CrossCall(table, sccOf, x, w, k, s)
    {
      var from := sccOf[u];
      ghost var before := succs;
      for i := 0 to |table[u]|
        invariant |succs| == sccCount && succs == before[from := succs[from]]
        invariant forall s: nat :: s in succs[from] <==>
                    s in before[from] || (s != from && s in Components(table[u][..i], sccOf))
      {
        assert table[u][i] in table[u];
        var to := sccOf[table[u][i]];
        ComponentsNext(table[u], i, sccOf);
        if from != to {
          succs := succs[from := succs[from] + [to]];
        }
      }
      assert table[u][..|table[u]|] == table[u];
      forall k, s: nat | 0 <= k < |succs|
        ensures s in succs[k] <==> s != k && exists x: nat, w: nat :: x < u + 1 && CrossCall(table, sccOf, x, w, k, s)
      {
        if s in Components(table[u], sccOf) && k == from && s != k {
          var w :| w in table[u] && w < |sccOf| && sccOf[w] == s;
          assert CrossCall(table, sccOf, u, w, k, s);
        }
      }
    }
    for k := 0 to sccCount
      invariant |succs| == sccCount
      invariant IsCondensed(table, sccOf, sccCount, succs)
    {
      succs := succs[k := SortDedup(succs[k])];
    }
  }

  ghost function Components(funcs: seq<nat>, sccOf: seq<nat>): set<nat> {
    set w | w in funcs && w < |sccOf| :: sccOf[w]
  }

  lemma ComponentsNext(funcs: seq<nat>, i: nat, sccOf: seq<nat>)
    requires i < |funcs| && funcs[i] < |sccOf|
    ensures Components(funcs[..i + 1], sccOf) == Components(funcs[..i], sccOf) + {sccOf[funcs[i]]}
  {
    assert funcs[..i + 1] == funcs[..i] + [funcs[i]];
  }

  /** Interns every local row and files its id under the component of its function. */
  method InternLocals(locals: seq<ModRef>, sccOf: seq<nat>, sccCount: nat)
    returns (interner: Interner, localByScc: seq<seq<nat>>)
    requires LocalsInRange(locals, |sccOf|) && forall u | 0 <= u < |sccOf| :: sccOf[u] < sccCount
    ensures fresh(interner) && interner.Valid() && |localByScc| == sccCount
    ensures forall k | 0 <= k < sccCount ::
              RowsInRange(localByScc[k], interner.payloads)
              && StrictlyAscending(localByScc[k])
              && FactsOf(localByScc[k], interner.payloads) == FactsOfScc(locals, sccOf, k)
  {
    interner := new Interner();
    localByScc := seq(sccCount, _ => []);
    for i := 0 to |locals|
      invariant fresh(interner) && interner.Valid() && Filed(localByScc, interner.payloads, locals[..i], sccOf, sccCount)
    {
      ghost var before := interner.payloads;
      var id := interner.Intern(locals[i].payload);
      var scc := sccOf[locals[i].func];
      FileNext(localByScc, before, interner.payloads, locals, i, sccOf, sccCount, id);
      localByScc := localByScc[scc := localByScc[scc] + [id]];
    }
    assert locals[..|locals|] == locals;
    localByScc := SortRows(localByScc, interner.payloads, locals, sccOf);
  }

  /** Each component's rows carry the facts of its functions among `locals`. */
  ghost predicate Filed(
    localByScc: seq<seq<nat>>, payloads: seq<Payload>, locals: seq<ModRef>, sccOf: seq<nat>, sccCount: nat)
  {
    && |localByScc| == sccCount && LocalsInRange(locals, |sccOf|)
    && forall k: nat | k < sccCount ::
         RowsInRange(localByScc[k], payloads) && FactsOf(localByScc[k], payloads) == FactsOfScc(locals, sccOf, k)
  }

  lemma FileNext(
      localByScc: seq<seq<nat>>, before: seq<Payload>, after: seq<Payload>, locals: seq<ModRef>, i: nat,
      sccOf: seq<nat>, sccCount: nat, id: nat)
    requires i < |locals| && LocalsInRange(locals, |sccOf|) && Filed(localByScc, before, locals[..i], sccOf, sccCount)
    requires Grows(before, after) && id < |after| && after[id].fact == locals[i].payload.fact
    requires sccOf[locals[i].func] < sccCount
    ensures var scc := sccOf[locals[i].func];
            Filed(localByScc[scc := localByScc[scc] + [id]], after, locals[..i + 1], sccOf, sccCount)
  {
    var scc := sccOf[locals[i].func];
    forall k: nat | k < sccCount
      ensures FactsOfScc(locals[..i + 1], sccOf, k)
           == FactsOfScc(locals[..i], sccOf, k) + if k == scc then {locals[i].payload.fact} else {}
      ensures RowsInRange(localByScc[k], after)
      ensures FactsOf(localByScc[k], after) == FactsOfScc(locals[..i], sccOf, k)
    {
      FactsOfSccNext(locals, sccOf, k, i);
      GrowsKeepsFacts(localByScc[k], before, after);
    }
    FactsOfUnion(localByScc[scc] + [id], localByScc[scc], [id], after);
    FactsOfSingle(id, after);
  }

  method SortRows(rows: seq<seq<nat>>, ghost payloads: seq<Payload>, ghost locals: seq<ModRef>, ghost sccOf: seq<nat>)
    returns (sorted: seq<seq<nat>>)
    requires Filed(rows, payloads, locals, sccOf, |rows|)
    ensures Filed(sorted, payloads, locals, sccOf, |rows|)
    ensures forall k | 0 <= k < |rows| :: StrictlyAscending(sorted[k])
  {
    sorted := rows;
    for k := 0 to |rows|
      invariant Filed(sorted, payloads, locals, sccOf, |rows|)
      invariant forall x | 0 <= x < k :: StrictlyAscending(sorted[x])
    {
      SortDedupAscending(sorted[k]);
      FactsOfMembers(sorted[k], SortDedup(sorted[k]), payloads);
      sorted := sorted[k := SortDedup(sorted[k])];
    }
  }

  lemma FactsOfSccNext(locals: seq<ModRef>, sccOf: seq<nat>, k: nat, i: nat)
    requires LocalsInRange(locals, |sccOf|) && i < |locals|
    ensures FactsOfScc(locals[..i + 1], sccOf, k)
         == FactsOfScc(locals[..i], sccOf, k) + if sccOf[locals[i].func] == k then {locals[i].payload.fact} else {}
  {
    var next, prefix := locals[..i + 1], locals[..i];
    assert next[i] == locals[i];
    assert forall j | 0 <= j < i :: next[j] == prefix[j];
  }

  /** What the closure promises for the row list of function `f`. */
  ghost predicate ClosedRows(
    rows: seq<nat>, payloads: seq<Payload>, locals: seq<ModRef>, edges: seq<CallEdge>, f: nat, limit: nat)
  {
    && RowsInRange(rows, payloads) && StrictlyAscending(rows)
    && SameScope(FactsOf(rows, payloads), ReachableFacts(locals, edges, f))
    && (limit == 0 ==>
          && FactsOf(rows, payloads) == ReachableFacts(locals, edges, f)
          && forall id: nat | id < |payloads| :: id in rows <==> payloads[id].fact in ReachableFacts(locals, edges, f))
    && Short(rows, limit)
  }

  /**
   The whole pass. For every limit, the rows of a function touch exactly the globals that the local
   rows of the functions it reaches touch; without a limit they are exactly those rows, none missing; with a limit
   there are at most `max(limit, 2)` of them.
   */
  method ComputeTransitiveModrefs(funcCount: nat, edges: seq<CallEdge>, locals: seq<ModRef>, limit: nat)
    returns (payloads: seq<Payload>, rowSets: seq<seq<nat>>, rowSetByFunc: seq<nat>)
    requires EdgesInRange(edges, funcCount) && LocalsInRange(locals, funcCount)
    ensures DistinctFacts(payloads)
    ensures |rowSetByFunc| == funcCount && forall f | 0 <= f < funcCount :: rowSetByFunc[f] < |rowSets|
    ensures forall f | 0 <= f < funcCount ::
              ClosedRows(rowSets[rowSetByFunc[f]], payloads, locals, edges, f, limit)
  {
    var table := CalleesByFunc(edges, funcCount);
    var members, sccOf := Tarjan.StronglyConnectedComponents(table);
    var interner, localByScc := InternLocals(locals, sccOf, |members|);
    var succs := CondenseCalls(table, sccOf, |members|);
    CondensedIsDownward(table, members, sccOf, succs);
    ghost var local := seq(|members|, (k: nat) => FactsOfScc(locals, sccOf, k));
    payloads, rowSets := CollectAll(interner, localByScc, succs, limit, local);
    rowSetByFunc := sccOf;
    forall f | 0 <= f < funcCount
      ensures ClosedRows(rowSets[rowSetByFunc[f]], payloads, locals, edges, f, limit)
    {
      SccFactsAreReachableFacts(table, members, sccOf, succs, locals, local, edges, f);
      RowsAreClosed(rowSets[sccOf[f]], payloads, locals, edges, f, limit);
    }
  }

  ghost predicate CollectedRows(rows: seq<nat>, payloads: seq<Payload>, facts: set<Fact>, limit: nat) {
    && RowsInRange(rows, payloads) && StrictlyAscending(rows) && Short(rows, limit)
    && SameScope(FactsOf(rows, payloads), facts)
    && (limit == 0 ==> FactsOf(rows, payloads) == facts)
  }

  lemma RowsAreClosed(
      rows: seq<nat>, payloads: seq<Payload>, locals: seq<ModRef>, edges: seq<CallEdge>, f: nat, limit: nat)
    requires DistinctFacts(payloads) && CollectedRows(rows, payloads, ReachableFacts(locals, edges, f), limit)
    ensures ClosedRows(rows, payloads, locals, edges, f, limit)
  {
    forall id: nat | id < |payloads|
      ensures id in rows <==> payloads[id].fact in FactsOf(rows, payloads)
    {
      IdsAreFacts(rows, payloads, id);
    }
  }

  /** Collects every component in turn. */
  method CollectAll(
      interner: Interner, localByScc: seq<seq<nat>>, succs: seq<seq<nat>>, limit: nat, ghost local: seq<set<Fact>>)
    returns (payloads: seq<Payload>, rowSets: seq<seq<nat>>)
    requires |localByScc| == |succs| == |local| && Downward(succs) && interner.Valid()
    requires forall k | 0 <= k < |localByScc| ::
               RowsInRange(localByScc[k], interner.payloads)
               && StrictlyAscending(localByScc[k])
               && FactsOf(localByScc[k], interner.payloads) == local[k]
    modifies interner
    ensures DistinctFacts(payloads) && |rowSets| == |succs|
    ensures forall k | 0 <= k < |rowSets| :: CollectedRows(rowSets[k], payloads, SccFacts(local, succs, k), limit)
  {
    var collector := new Collector(interner, localByScc, succs, limit, local);
    CollectEach(collector);
    payloads := interner.payloads;
    interner.FactsDistinct();
    rowSets := ReadRows(collector);
  }

  ghost predicate FilledTo(memo: seq<Option<SccRows>>, n: nat) {
    (n <= |memo| && forall k | 0 <= k < n :: memo[k].Some?) == true
  }

  lemma FilledNext(before: seq<Option<SccRows>>, after: seq<Option<SccRows>>, n: nat)
    requires FilledTo(before, n) && n < |before| == |after| && after[n].Some?
    requires forall k | 0 <= k < |before| && before[k].Some? :: after[k] == before[k]
    ensures FilledTo(after, n + 1)
  {
  }

  /** Fills the whole memo table. */
  method CollectEach(collector: Collector)
    requires collector.Valid()
    modifies collector`memo, collector.interner
    ensures collector.Valid() && FilledTo(collector.memo, |collector.memo|)
  {
    for scc := 0 to |collector.succs|
      invariant collector.Valid() && FilledTo(collector.memo, scc)
    {
      ghost var before := collector.memo;
      var _ := collector.CollectSccPayloadIds(scc);
      FilledNext(before, collector.memo, scc);
    }
  }

  method ReadRows(collector: Collector) returns (rowSets: seq<seq<nat>>)
    requires collector.Valid() && FilledTo(collector.memo, |collector.memo|)
    ensures |rowSets| == |collector.succs|
    ensures forall k | 0 <= k < |rowSets| ::
              CollectedRows(rowSets[k], collector.interner.payloads, SccFacts(collector.local, collector.succs, k), collector.limit)
  {
    rowSets := [];
    for k := 0 to |collector.succs|
      invariant |rowSets| == k
      invariant forall j | 0 <= j < k ::
                  CollectedRows(rowSets[j], collector.interner.payloads, SccFacts(collector.local, collector.succs, j), collector.limit)
    {
      assert collector.Entry(k, collector.memo[k].value);
      rowSets := rowSets + [collector.memo[k].value.rows];
    }
  }
}
