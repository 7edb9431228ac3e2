/** Which globals keep their initial values: the writers of every global, and the verdicts. */
module Stationarity {
  import opened Basics
  import opened Sorting
  import opened Pir
  import opened InitVal
  import opened InitValQuery

  datatype Target = Named(global: nat) | UnknownTarget

  /**
   A mod/ref row. `writer` is the rank of its writer in the order that writers are sorted by;
   `reachesGlobals` says that its detail admits a write to some global of the module.
   */
  datatype Row = Row(isMod: bool, target: Target, candidates: Candidates<seq<nat>>, writer: nat, reachesGlobals: bool)

  datatype GlobalInfo = GlobalInfo(key: string, mutable: bool)

  ghost predicate RowsInRange(rows: seq<Row>, count: nat) {
    forall r | r in rows && r.target.Named? :: r.target.global < count
  }

  // ---------------------------------------------------------------------------------------------
  // Three kinds of writers

  /** A write to anything in the module. */
  predicate WritesAnything(r: Row) {
    r.isMod && r.target.UnknownTarget? && r.candidates.ModuleWide? && r.reachesGlobals
  }

  predicate WritesGlobal(r: Row, g: nat) {
    r.isMod && r.target == Named(g)
  }

  /** A write through an unknown target that may be the global. */
  predicate MayWriteGlobal(r: Row, g: nat) {
    r.isMod && r.target.UnknownTarget? && r.candidates.Finite? && g in r.candidates.globals
  }

  /** The writers of the rows that satisfy `p`, each once, in order: what a scan of all rows finds. */
  ghost predicate IsScan(list: seq<nat>, rows: seq<Row>, p: Row -> bool) {
    && StrictlyAscending(list)
    && forall w: nat :: w in list <==> exists r :: r in rows && p(r) && r.writer == w
  }

  /** There is only one such list. */
  lemma ScanIsUnique(a: seq<nat>, b: seq<nat>, rows: seq<Row>, p: Row -> bool)
    requires IsScan(a, rows, p) && IsScan(b, rows, p)
    ensures a == b
  {
    assert forall w: nat :: w in a <==> w in b;
    StrictlyAscendingUnique(a, b);
  }

  // ---------------------------------------------------------------------------------------------
  // The grouped index

  /** The candidate globals of a row that exist, sorted and without duplicates. */
  method TargetKey(ids: seq<nat>, count: nat) returns (key: seq<nat>)
    ensures StrictlyAscending(key) && forall g: nat :: g in key <==> g in ids && g < count
  {
    key := [];
    for i := 0 to |ids|
      invariant forall g: nat :: g in key <==> g in ids[..i] && g < count
    {
      assert ids[..i + 1] == ids[..i] + [ids[i]];
      if ids[i] < count {
        key := key + [ids[i]];
      }
    }
    assert ids[..|ids|] == ids;
    SortDedupAscending(key);
    key := SortDedup(key);
  }

  function Entry<K>(m: map<K, seq<nat>>, k: K): seq<nat> {
    if k in m then m[k] else []
  }

  ghost predicate NamedWriter(rows: seq<Row>, g: nat, w: nat) {
    exists r :: r in rows && WritesGlobal(r, g) && r.writer == w
  }

  ghost predicate CandidateWriter(rows: seq<Row>, g: nat, w: nat) {
    exists r :: r in rows && MayWriteGlobal(r, g) && r.writer == w
  }

  /** The writer is listed under some set of candidates that has the global. */
  ghost predicate Listed(byTargets: map<seq<nat>, seq<nat>>, g: nat, w: nat) {
    exists k :: k in byTargets && g in k && w in byTargets[k]
  }

  lemma WriterNext(rows: seq<Row>, row: Row, g: nat, w: nat)
    ensures NamedWriter(rows + [row], g, w) <==> NamedWriter(rows, g, w) || (WritesGlobal(row, g) && row.writer == w)
    ensures CandidateWriter(rows + [row], g, w) <==> CandidateWriter(rows, g, w) || (MayWriteGlobal(row, g) && row.writer == w)
  {
    assert row in rows + [row];
    assert forall r | r in rows :: r in rows + [row];
  }

  lemma ListedNext(byTargets: map<seq<nat>, seq<nat>>, key: seq<nat>, writer: nat, g: nat, w: nat)
    ensures Listed(byTargets[key := Entry(byTargets, key) + [writer]], g, w)
            <==> Listed(byTargets, g, w) || (g in key && w == writer)
  {
    var next := byTargets[key := Entry(byTargets, key) + [writer]];
    if g in key && w == writer {
      assert w in next[key];
    }
    if k :| k in byTargets && g in k && w in byTargets[k] {
      assert k in next && w in next[k];
    }
  }

  /** The writers collected so far: by global, and by set of candidate globals. */
  ghost predicate Collected(rows: seq<Row>, count: nat, byGlobal: map<nat, seq<nat>>, byTargets: map<seq<nat>, seq<nat>>) {
    && (forall g: nat, w: nat {:trigger NamedWriter(rows, g, w)} :: w in Entry(byGlobal, g) <==> NamedWriter(rows, g, w))
    && (forall g | g in byGlobal :: byGlobal[g] != [])
    && (forall k | k in byTargets :: byTargets[k] != [])
    && (forall k, g: nat | k in byTargets && g in k :: g < count)
    && (forall g: nat, w: nat {:trigger CandidateWriter(rows, g, w)} | g < count :: Listed(byTargets, g, w) <==> CandidateWriter(rows, g, w))
  }

  lemma AddNamed(rows: seq<Row>, count: nat, byGlobal: map<nat, seq<nat>>, byTargets: map<seq<nat>, seq<nat>>, row: Row)
    requires Collected(rows, count, byGlobal, byTargets) && row.isMod && row.target.Named?
    ensures Collected(rows + [row], count, byGlobal[row.target.global := Entry(byGlobal, row.target.global) + [row.writer]], byTargets)
  {
    var next := byGlobal[row.target.global := Entry(byGlobal, row.target.global) + [row.writer]];
    forall g: nat, w: nat
      ensures w in Entry(next, g) <==> NamedWriter(rows + [row], g, w)
      ensures CandidateWriter(rows + [row], g, w) <==> CandidateWriter(rows, g, w)
    {
      WriterNext(rows, row, g, w);
      assert w in Entry(next, g) <==> w in Entry(byGlobal, g) || (g == row.target.global && w == row.writer);
    }
  }

  lemma AddListed(
      rows: seq<Row>, count: nat, byGlobal: map<nat, seq<nat>>, byTargets: map<seq<nat>, seq<nat>>, row: Row, key: seq<nat>)
    requires Collected(rows, count, byGlobal, byTargets) && row.isMod && row.target.UnknownTarget? && row.candidates.Finite?
    requires forall g: nat :: g in key <==> g in row.candidates.globals && g < count
    ensures key == [] ==> Collected(rows + [row], count, byGlobal, byTargets)
    ensures key != [] ==> Collected(rows + [row], count, byGlobal, byTargets[key := Entry(byTargets, key) + [row.writer]])
  {
    forall g: nat, w: nat
      ensures NamedWriter(rows + [row], g, w) <==> NamedWriter(rows, g, w)
      ensures g < count ==> (CandidateWriter(rows + [row], g, w) <==> CandidateWriter(rows, g, w) || (g in key && w == row.writer))
      ensures Listed(byTargets[key := Entry(byTargets, key) + [row.writer]], g, w) <==> Listed(byTargets, g, w) || (g in key && w == row.writer)
    {
      WriterNext(rows, row, g, w);
      ListedNext(byTargets, key, row.writer, g, w);
    }
  }

  lemma AddOther(rows: seq<Row>, count: nat, byGlobal: map<nat, seq<nat>>, byTargets: map<seq<nat>, seq<nat>>, row: Row)
    requires Collected(rows, count, byGlobal, byTargets)
    requires !row.isMod || (row.target.UnknownTarget? && row.candidates.ModuleWide?)
    ensures Collected(rows + [row], count, byGlobal, byTargets)
  {
    forall g: nat, w: nat
      ensures NamedWriter(rows + [row], g, w) <==> NamedWriter(rows, g, w)
      ensures CandidateWriter(rows + [row], g, w) <==> CandidateWriter(rows, g, w)
    {
      WriterNext(rows, row, g, w);
    }
  }

  method CollectRows(rows: seq<Row>, count: nat) returns (byGlobal: map<nat, seq<nat>>, byTargets: map<seq<nat>, seq<nat>>)
    ensures Collected(rows, count, byGlobal, byTargets)
  {
    byGlobal, byTargets := map[], map[];
    for i := 0 to |rows|
      invariant Collected(rows[..i], count, byGlobal, byTargets)
    {
      var row := rows[i];
      assert rows[..i + 1] == rows[..i] + [row];
      if row.isMod && row.target.Named? {
        AddNamed(rows[..i], count, byGlobal, byTargets, row);
        byGlobal := byGlobal[row.target.global := Entry(byGlobal, row.target.global) + [row.writer]];
      } else if row.isMod && row.candidates.Finite? {
        var key := TargetKey(row.candidates.globals, count);
        AddListed(rows[..i], count, byGlobal, byTargets, row, key);
        if key != [] {
          byTargets := byTargets[key := Entry(byTargets, key) + [row.writer]];
        }
      } else {
        AddOther(rows[..i], count, byGlobal, byTargets, row);
      }
    }
    assert rows[..|rows|] == rows;
  }

  /** Sorts the writers of every key and drops duplicates. */
  method SortAll<K>(lists: map<K, seq<nat>>) returns (sorted: map<K, seq<nat>>)
    ensures sorted.Keys == lists.Keys
    ensures forall k | k in lists :: StrictlyAscending(sorted[k]) && forall w: nat :: w in sorted[k] <==> w in lists[k]
  {
    forall k | k in lists
      ensures StrictlyAscending(SortDedup(lists[k]))
    {
      SortDedupAscending(lists[k]);
    }
    sorted := map k | k in lists :: SortDedup(lists[k]);
  }

  /** Hands the writers of every set of candidates to each of the candidates. */
  method Distribute(byTargets: map<seq<nat>, seq<nat>>) returns (groups: map<nat, seq<seq<nat>>>)
    ensures forall g: nat, list: seq<nat> :: list in GroupsAt(groups, g) <==> exists k :: k in byTargets && g in k && byTargets[k] == list
    ensures forall g | g in groups :: groups[g] != []
  {
    groups := map[];
    var rest := byTargets.Keys;
    while rest != {}
      invariant rest <= byTargets.Keys
      invariant forall g: nat, list: seq<nat> :: list in GroupsAt(groups, g) <==> exists k :: k in byTargets && k !in rest && g in k && byTargets[k] == list
      invariant forall g | g in groups :: groups[g] != []
    {
      var key :| key in rest;
      ghost var done := rest;
      var next := AppendToAll(groups, key, byTargets[key]);
      forall g: nat, list: seq<nat>
        ensures list in GroupsAt(next, g) <==> exists k :: k in byTargets && k !in rest - {key} && g in k && byTargets[k] == list
      {
        assert list in GroupsAt(next, g) <==> list in GroupsAt(groups, g) || (g in key && list == byTargets[key]);
        if k :| k in byTargets && k !in rest && g in k && byTargets[k] == list {
          assert k !in rest - {key};
        }
        assert key !in rest - {key};
      }
      rest := rest - {key};
      groups := next;
    }
  }

  function GroupsAt(groups: map<nat, seq<seq<nat>>>, g: nat): seq<seq<nat>> {
    if g in groups then groups[g] else []
  }

  method AppendToAll(groups: map<nat, seq<seq<nat>>>, key: seq<nat>, list: seq<nat>) returns (next: map<nat, seq<seq<nat>>>)
    requires forall g | g in groups :: groups[g] != []
    ensures forall g: nat, l: seq<nat> :: l in GroupsAt(next, g) <==> l in GroupsAt(groups, g) || (g in key && l == list)
    ensures forall g | g in next :: next[g] != []
  {
    next := groups;
    for i := 0 to |key|
      invariant forall g: nat, l: seq<nat> :: l in GroupsAt(next, g) <==> l in GroupsAt(groups, g) || (g in key[..i] && l == list)
      invariant forall g | g in next :: next[g] != []
    {
      assert key[..i + 1] == key[..i] + [key[i]];
      ghost var before := next;
      next := next[key[i] := GroupsAt(next, key[i]) + [list]];
      assert forall g: nat, l: seq<nat> :: l in GroupsAt(next, g) <==> l in GroupsAt(before, g) || (g == key[i] && l == list);
    }
    assert key[..|key|] == key;
  }

  function Flatten(lists: seq<seq<nat>>): (r: seq<nat>)
    ensures forall w: nat :: w in r <==> exists l :: l in lists && w in l
  {
    if lists == [] then []
    else
      assert lists == lists[..|lists| - 1] + [lists[|lists| - 1]];
      Flatten(lists[..|lists| - 1]) + lists[|lists| - 1]
  }

  /** Several groups are joined; a single one is taken as it is. */
  method MergeGroups(groups: seq<seq<nat>>) returns (merged: seq<nat>)
    requires groups != [] && forall l | l in groups :: StrictlyAscending(l)
    ensures StrictlyAscending(merged) && forall w: nat :: w in merged <==> exists l :: l in groups && w in l
  {
    if |groups| == 1 {
      assert groups[0] in groups;
      return groups[0];
    }
    SortDedupAscending(Flatten(groups));
    merged := SortDedup(Flatten(groups));
  }

  ghost predicate NamedScan(list: seq<nat>, rows: seq<Row>, g: nat) {
    IsScan(list, rows, r => WritesGlobal(r, g))
  }

  ghost predicate CandidateScan(list: seq<nat>, rows: seq<Row>, g: nat) {
    IsScan(list, rows, r => MayWriteGlobal(r, g))
  }

  /** The list of a key, if it has one, is the scan; without one the scan finds nothing. */
  ghost predicate RuntimeOk(index: map<nat, seq<nat>>, g: nat, rows: seq<Row>) {
    NamedScan(Entry(index, g), rows, g) && (g in index ==> index[g] != [])
  }

  ghost predicate UnknownOk(index: map<nat, seq<nat>>, g: nat, rows: seq<Row>) {
    CandidateScan(Entry(index, g), rows, g) && (g in index ==> index[g] != [])
  }

  /** The grouped index gives every global the list that scanning all rows would. */
  method CollectTargetedWriters(rows: seq<Row>, count: nat) returns (runtime: map<nat, seq<nat>>, unknown: map<nat, seq<nat>>)
    requires RowsInRange(rows, count)
    ensures forall g: nat | g < count :: RuntimeOk(runtime, g, rows)
    ensures forall g: nat | g < count :: UnknownOk(unknown, g, rows)
  {
    var byGlobal, byTargets := CollectRows(rows, count);
    runtime := SortAll(byGlobal);
    var sorted := SortAll(byTargets);
    var groups := Distribute(sorted);
    unknown := MergeAll(groups, sorted);
    forall g: nat | g < count
      ensures RuntimeOk(runtime, g, rows) && UnknownOk(unknown, g, rows)
    {
      RuntimeIsScan(rows, count, byGlobal, byTargets, runtime, g);
      UnknownIsScan(rows, count, byGlobal, byTargets, sorted, unknown, g);
    }
  }

  method MergeAll(groups: map<nat, seq<seq<nat>>>, ghost sorted: map<seq<nat>, seq<nat>>) returns (merged: map<nat, seq<nat>>)
    requires forall g: nat, list: seq<nat> :: list in GroupsAt(groups, g) <==> exists k :: k in sorted && g in k && sorted[k] == list
    requires forall g | g in groups :: groups[g] != []
    requires forall k | k in sorted :: StrictlyAscending(sorted[k])
    ensures forall g: nat :: StrictlyAscending(Entry(merged, g))
    ensures forall g: nat, w: nat :: w in Entry(merged, g) <==> Listed(sorted, g, w)
    ensures forall g | g in merged :: exists k :: k in sorted && g in k
  {
    merged := map[];
    var rest := groups.Keys;
    while rest != {}
      invariant rest <= groups.Keys && merged.Keys == groups.Keys - rest
      invariant forall g | g in merged ::
                  StrictlyAscending(merged[g]) && forall w: nat :: w in merged[g] <==> exists l :: l in groups[g] && w in l
    {
      var g :| g in rest;
      forall l | l in groups[g]
        ensures StrictlyAscending(l)
      {
        assert l in GroupsAt(groups, g);
      }
      var list := MergeGroups(groups[g]);
      merged := merged[g := list];
      rest := rest - {g};
    }
    forall g | g in merged
      ensures exists k :: k in sorted && g in k
    {
      assert groups[g][0] in GroupsAt(groups, g);
    }
    forall g: nat, w: nat
      ensures w in Entry(merged, g) <==> Listed(sorted, g, w)
    {
      if w in Entry(merged, g) {
        var l :| l in groups[g] && w in l;
        assert l in GroupsAt(groups, g);
      }
      if k :| k in sorted && g in k && w in sorted[k] {
        assert sorted[k] in GroupsAt(groups, g);
      }
    }
  }

  lemma RuntimeIsScan(
      rows: seq<Row>, count: nat, byGlobal: map<nat, seq<nat>>, byTargets: map<seq<nat>, seq<nat>>, runtime: map<nat, seq<nat>>, g: nat)
    requires Collected(rows, count, byGlobal, byTargets) && runtime.Keys == byGlobal.Keys
    requires forall k | k in byGlobal :: StrictlyAscending(runtime[k]) && forall w: nat :: w in runtime[k] <==> w in byGlobal[k]
    ensures RuntimeOk(runtime, g, rows)
  {
    forall w: nat
      ensures w in Entry(runtime, g) <==> exists r :: r in rows && WritesGlobal(r, g) && r.writer == w
    {
      assert w in Entry(byGlobal, g) <==> NamedWriter(rows, g, w);
    }
    if g in byGlobal {
      assert byGlobal[g][0] in runtime[g];
    }
  }

  lemma UnknownIsScan(
      rows: seq<Row>, count: nat, byGlobal: map<nat, seq<nat>>, byTargets: map<seq<nat>, seq<nat>>, sorted: map<seq<nat>, seq<nat>>,
      unknown: map<nat, seq<nat>>, g: nat)
    requires Collected(rows, count, byGlobal, byTargets) && sorted.Keys == byTargets.Keys && g < count
    requires forall k | k in byTargets :: forall w: nat :: w in sorted[k] <==> w in byTargets[k]
    requires StrictlyAscending(Entry(unknown, g)) && forall w: nat :: w in Entry(unknown, g) <==> Listed(sorted, g, w)
    requires g in unknown ==> exists k :: k in sorted && g in k
    ensures UnknownOk(unknown, g, rows)
  {
    forall w: nat
      ensures w in Entry(unknown, g) <==> exists r :: r in rows && MayWriteGlobal(r, g) && r.writer == w
    {
      assert Listed(sorted, g, w) <==> Listed(byTargets, g, w);
      assert Listed(byTargets, g, w) <==> CandidateWriter(rows, g, w);
    }
    if g in unknown {
      var k :| k in sorted && g in k;
      assert byTargets[k][0] in sorted[k];
      assert Listed(sorted, g, byTargets[k][0]);
    }
  }

  // ---------------------------------------------------------------------------------------------
  // Verdicts

  datatype StationarityReason = IncompleteInitval | UnknownRuntimeWriter | ExportedGlobal | RuntimeWriter | Stationary

  datatype Verdict = Verdict(global: nat, completeInitval: bool, reason: StationarityReason, writers: seq<nat>)

  /** What the initial-value report says, and which globals outside code can reach. */
  datatype Inputs = Inputs(complete: set<string>, diagnostics: map<string, seq<Diagnostic>>, external: set<string>)

  /** The diagnostics a verdict reports. */
  function ReportedDiagnostics(inputs: Inputs, info: GlobalInfo): seq<Diagnostic> {
    if info.key in inputs.complete || !info.mutable then []
    else if info.key in inputs.diagnostics && inputs.diagnostics[info.key] != [] then inputs.diagnostics[info.key]
    else [Diagnostic(NoModeledInitializer, None)]
  }

  predicate AbsenceOnly(diagnostics: seq<Diagnostic>) {
    diagnostics != [] && forall d | d in diagnostics :: d.reason == NoModeledInitializer
  }

  ghost predicate AnyWritesAnything(rows: seq<Row>) {
    exists r :: r in rows && WritesAnything(r)
  }

  ghost predicate AnyWritesGlobal(rows: seq<Row>, g: nat) {
    exists r :: r in rows && WritesGlobal(r, g)
  }

  ghost predicate AnyMayWriteGlobal(rows: seq<Row>, g: nat) {
    exists r :: r in rows && MayWriteGlobal(r, g)
  }

  /** Some row counts as a writer of the global. */
  ghost predicate HasWriter(rows: seq<Row>, g: nat) {
    AnyWritesAnything(rows) || AnyWritesGlobal(rows, g) || AnyMayWriteGlobal(rows, g)
  }

  /** Why a global is not stable, from its own facts and the rows alone. */
  ghost function ReasonOf(info: GlobalInfo, g: nat, inputs: Inputs, rows: seq<Row>): StationarityReason {
    var external := info.key in inputs.external;
    if info.key !in inputs.complete
       && (!AbsenceOnly(ReportedDiagnostics(inputs, info)) || external || AnyWritesAnything(rows) || AnyWritesGlobal(rows, g)) then
      IncompleteInitval
    else if AnyWritesAnything(rows) || AnyMayWriteGlobal(rows, g) then UnknownRuntimeWriter
    else if external then ExportedGlobal
    else if AnyWritesGlobal(rows, g) then RuntimeWriter
    else Stationary
  }

  /** The writers a verdict has to list: those that its reason speaks of, and all of them. */
  ghost predicate WritersOk(writers: seq<nat>, reason: StationarityReason, g: nat, rows: seq<Row>) {
    match reason
    case UnknownRuntimeWriter =>
      if AnyWritesAnything(rows) then IsScan(writers, rows, WritesAnything) else CandidateScan(writers, rows, g)
    case RuntimeWriter => NamedScan(writers, rows, g)
    case _ => writers == []
  }

  ghost predicate VerdictOk(v: Verdict, info: GlobalInfo, g: nat, inputs: Inputs, rows: seq<Row>) {
    && v.global == g && (v.completeInitval <==> info.key in inputs.complete)
    && v.reason == ReasonOf(info, g, inputs, rows) && WritersOk(v.writers, v.reason, g, rows)
  }

  method ModuleWideWriters(rows: seq<Row>) returns (writers: seq<nat>)
    ensures IsScan(writers, rows, WritesAnything)
  {
    var found := [];
    for i := 0 to |rows|
      invariant forall w: nat :: w in found <==> exists r :: r in rows[..i] && WritesAnything(r) && r.writer == w
    {
      assert rows[..i + 1] == rows[..i] + [rows[i]];
      assert rows[i] in rows[..i + 1];
      if WritesAnything(rows[i]) {
        found := found + [rows[i].writer];
      }
    }
    assert rows[..|rows|] == rows;
    SortDedupAscending(found);
    writers := SortDedup(found);
  }

  /** What the indexes say about the rows; without a module-wide writer they are complete. */
  ghost predicate Indexed(rows: seq<Row>, g: nat, moduleWide: seq<nat>, runtime: map<nat, seq<nat>>, unknown: map<nat, seq<nat>>) {
    && IsScan(moduleWide, rows, WritesAnything)
    && (moduleWide == [] ==> RuntimeOk(runtime, g, rows) && UnknownOk(unknown, g, rows))
  }

  /** The cascade over one global. */
  method Judge(
      info: GlobalInfo, gid: nat, inputs: Inputs, ghost rows: seq<Row>,
      moduleWide: seq<nat>, runtime: map<nat, seq<nat>>, unknown: map<nat, seq<nat>>)
    returns (verdict: Verdict)
    requires Indexed(rows, gid, moduleWide, runtime, unknown)
    ensures VerdictOk(verdict, info, gid, inputs, rows)
  {
    WritersDecide(rows, gid, moduleWide, runtime, unknown);
    var complete := info.key in inputs.complete;
    var absenceOnly := AbsenceOnly(ReportedDiagnostics(inputs, info));
    if !complete && (!absenceOnly || info.key in inputs.external || moduleWide != [] || gid in runtime) {
      return Verdict(gid, complete, IncompleteInitval, []);
    } else if moduleWide != [] {
      return Verdict(gid, complete, UnknownRuntimeWriter, moduleWide);
    } else if gid in unknown {
      return Verdict(gid, complete, UnknownRuntimeWriter, unknown[gid]);
    } else if info.key in inputs.external {
      return Verdict(gid, complete, ExportedGlobal, []);
    } else if gid in runtime {
      return Verdict(gid, complete, RuntimeWriter, runtime[gid]);
    }
    return Verdict(gid, complete, Stationary, []);
  }

  /** When a global is stable, from its own facts and a scan of all rows. */
  ghost predicate IsStable(globals: seq<GlobalInfo>, inputs: Inputs, rows: seq<Row>, g: nat)
    requires g < |globals|
  {
    && (globals[g].key in inputs.complete || AbsenceOnly(ReportedDiagnostics(inputs, globals[g])))
    && globals[g].key !in inputs.external && !HasWriter(rows, g)
  }

  /** The stable globals are exactly those with a settled initial value and no counted writer. */
  method StationarityVerdicts(globals: seq<GlobalInfo>, inputs: Inputs, rows: seq<Row>)
    returns (stable: set<string>, verdicts: seq<Verdict>)
    requires RowsInRange(rows, |globals|)
    ensures forall key :: key in stable <==> exists g :: 0 <= g < |globals| && globals[g].key == key && IsStable(globals, inputs, rows, g)
    ensures |verdicts| == |globals| && forall g | 0 <= g < |globals| ::
              && VerdictOk(verdicts[g], globals[g], g, inputs, rows)
              && (verdicts[g].reason.Stationary? <==> IsStable(globals, inputs, rows, g))
  {
    var moduleWide := ModuleWideWriters(rows);
    var runtime: map<nat, seq<nat>>, unknown: map<nat, seq<nat>> := map[], map[];
    if moduleWide == [] {
      runtime, unknown := CollectTargetedWriters(rows, |globals|);
    }
    stable, verdicts := {}, [];
    for g := 0 to |globals|
      invariant |verdicts| == g
      invariant forall h | 0 <= h < g ::
                  && VerdictOk(verdicts[h], globals[h], h, inputs, rows)
                  && (verdicts[h].reason.Stationary? <==> IsStable(globals, inputs, rows, h))
      invariant forall key :: key in stable <==> exists h :: 0 <= h < g && globals[h].key == key && IsStable(globals, inputs, rows, h)
    {
      var verdict := Judge(globals[g], g, inputs, rows, moduleWide, runtime, unknown);
      verdicts := verdicts + [verdict];
      if verdict.reason.Stationary? {
        stable := stable + {globals[g].key};
      }
    }
  }

  /** An empty scan means that there is no such writer. */
  lemma WritersDecide(rows: seq<Row>, g: nat, moduleWide: seq<nat>, runtime: map<nat, seq<nat>>, unknown: map<nat, seq<nat>>)
    requires Indexed(rows, g, moduleWide, runtime, unknown)
    ensures moduleWide != [] <==> AnyWritesAnything(rows)
    ensures moduleWide == [] ==> (g in runtime <==> AnyWritesGlobal(rows, g)) && (g in unknown <==> AnyMayWriteGlobal(rows, g))
  {
    if moduleWide != [] {
      assert moduleWide[0] in moduleWide;
    } else {
      assert g in runtime ==> Entry(runtime, g)[0] in Entry(runtime, g);
      assert g in unknown ==> Entry(unknown, g)[0] in Entry(unknown, g);
      forall r | r in rows && (WritesAnything(r) || WritesGlobal(r, g) || MayWriteGlobal(r, g))
        ensures !WritesAnything(r) && (WritesGlobal(r, g) ==> g in runtime) && (MayWriteGlobal(r, g) ==> g in unknown)
      {
        assert WritesAnything(r) ==> r.writer in moduleWide;
        assert WritesGlobal(r, g) ==> r.writer in Entry(runtime, g);
        assert MayWriteGlobal(r, g) ==> r.writer in Entry(unknown, g);
      }
    }
  }

  // ---------------------------------------------------------------------------------------------
  // Stable globals and the initializer

  /** The inputs are what executing the initializer left behind. */
  ghost predicate FromInitializer(m: Module, inputs: Inputs) {
    && (forall g :: g in inputs.complete <==> IsComplete(m, g))
    && (forall g :: g in inputs.diagnostics <==> Poisoned(m, g))
    && (forall g | g in inputs.diagnostics :: inputs.diagnostics[g] == Trail(Effects(m), |m.globalInit|, g))
  }

  /** No write at run time can reach the global: not by name, not as a candidate, not as part of the whole module. */
  ghost predicate Untouched(rows: seq<Row>, g: nat) {
    forall r | r in rows && r.isMod ::
      match r.target
      case Named(h) => h != g
      case UnknownTarget =>
        match r.candidates
        case Finite(candidates) => g !in candidates
        case ModuleWide => !r.reachesGlobals
  }

  lemma UntouchedHasNoWriter(rows: seq<Row>, g: nat)
    ensures Untouched(rows, g) <==> !HasWriter(rows, g)
  {
  }

  /** A stable global is never poisoned and no write at run time reaches it. */
  lemma StableIsClean(m: Module, globals: seq<GlobalInfo>, inputs: Inputs, rows: seq<Row>, g: nat)
    requires FromInitializer(m, inputs) && g < |globals| && IsStable(globals, inputs, rows, g)
    ensures !Poisoned(m, globals[g].key) && Untouched(rows, g)
  {
    var key := globals[g].key;
    EffectsAreGenuine(m);
    TrailIsPoison(Effects(m), |m.globalInit|, key);
    FirstIsMember(Trail(Effects(m), |m.globalInit|, key));
    UntouchedHasNoWriter(rows, g);
  }

  /** Conversely: complete, or mutable and never poisoned, out of reach and untouched, is stable. */
  lemma CleanIsStable(m: Module, globals: seq<GlobalInfo>, inputs: Inputs, rows: seq<Row>, g: nat)
    requires FromInitializer(m, inputs) && g < |globals|
    ensures IsStable(globals, inputs, rows, g) <==>
              && (IsComplete(m, globals[g].key) || (globals[g].mutable && !Poisoned(m, globals[g].key)))
              && globals[g].key !in inputs.external && Untouched(rows, g)
  {
    var key := globals[g].key;
    EffectsAreGenuine(m);
    TrailIsPoison(Effects(m), |m.globalInit|, key);
    UntouchedHasNoWriter(rows, g);
    if Poisoned(m, key) {
      var trail := Trail(Effects(m), |m.globalInit|, key);
      assert trail[0] in trail;
    }
  }

  /**
   What a settled call rests on: every slot that its walk loads is the last value the initializer stored
   there, in a global that the initializer never touches in an unknown way and nothing writes at run time.
   */
  lemma SettledCallRestsOnStableSlots(
      c: Context, globals: seq<GlobalInfo>, inputs: Inputs, rows: seq<Row>, poisoned: set<string>,
      diagnostics: map<string, seq<Diagnostic>>, p: Position, slot: SlotValue)
    requires FromInitializer(c.m, inputs) && StateAfter(Effects(c.m), |c.m.globalInit|, c.slots, poisoned, diagnostics)
    requires forall key :: key in c.stable <==> exists g :: 0 <= g < |globals| && globals[g].key == key && IsStable(globals, inputs, rows, g)
    requires Loads(c, p, slot)
    ensures exists place, g :: LastRecorded(Effects(c.m), |c.m.globalInit|, place, slot) && !Poisoned(c.m, place.root)
              && 0 <= g < |globals| && globals[g].key == place.root && Untouched(rows, g)
  {
    var at: nat, place :| LoadsAt(c, p, at, place, slot);
    var g :| 0 <= g < |globals| && globals[g].key == place.root && IsStable(globals, inputs, rows, g);
    StableIsClean(c.m, globals, inputs, rows, g);
    assert LastRecorded(Effects(c.m), |c.m.globalInit|, place, slot);
  }
}
