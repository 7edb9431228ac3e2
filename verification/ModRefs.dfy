/**
 Mod/ref facts, what they say about globals, and the table that gives every distinct fact one numeric
 id.
 */
module ModRefs {
  import opened Basics
  import opened Sorting

  /** The global an access names, or the reason it could not be named. */
  datatype GlobalTarget = Named(global: nat) | UnknownTarget(reason: string)

  /** Everything that identifies a mod/ref row; its witness does not. */
  datatype Fact = Fact(
    target: GlobalTarget, access: Access, via: Via, detail: Option<string>, addressNode: Option<string>,
    pointees: seq<string>, candidates: Candidates<seq<nat>>)

  /** Witnesses only matter through their order. */
  type Witness = Option<nat>

  datatype Payload = Payload(fact: Fact, evidence: Witness)
  datatype ModRef = ModRef(func: nat, payload: Payload)

  // ---------------------------------------------------------------------------------------------
  // The scope of a set of facts

  /** The globals an access kind may touch; `AllGlobals` absorbs everything else. */
  datatype Scope = Untouched | Globals(ids: set<nat>) | AllGlobals

  predicate Wide(f: Fact) {
    f.target.UnknownTarget? && f.candidates.ModuleWide?
  }

  ghost function Bounded(f: Fact): set<nat> {
    match f.target
    case Named(g) => {g}
    case UnknownTarget(_) => if f.candidates.Finite? then Elements(f.candidates.globals) else {}
  }

  ghost predicate HasAccess(facts: set<Fact>, a: Access) {
    exists f :: f in facts && f.access == a
  }

  ghost predicate HasWide(facts: set<Fact>, a: Access) {
    exists f :: f in facts && f.access == a && Wide(f)
  }

  ghost function Touched(facts: set<Fact>, a: Access): set<nat> {
    set f, g | f in facts && f.access == a && g in Bounded(f) :: g
  }

  ghost function ScopeOf(facts: set<Fact>, a: Access): Scope {
    if !HasAccess(facts, a) then Untouched
    else if HasWide(facts, a) then AllGlobals
    else Globals(Touched(facts, a))
  }

  ghost predicate SameScope(left: set<Fact>, right: set<Fact>) {
    forall a :: ScopeOf(left, a) == ScopeOf(right, a)
  }

  ghost function Join(left: Scope, right: Scope): Scope {
    if left.AllGlobals? || right.AllGlobals? then AllGlobals
    else if left.Untouched? then right
    else if right.Untouched? then left
    else Globals(left.ids + right.ids)
  }

  lemma ScopeOfUnion(left: set<Fact>, right: set<Fact>, a: Access)
    ensures ScopeOf(left + right, a) == Join(ScopeOf(left, a), ScopeOf(right, a))
  {
    assert HasAccess(left + right, a) <==> HasAccess(left, a) || HasAccess(right, a);
    assert HasWide(left + right, a) <==> HasWide(left, a) || HasWide(right, a);
    assert Touched(left + right, a) == Touched(left, a) + Touched(right, a);
    assert !HasAccess(left, a) ==> Touched(left, a) == {} && !HasWide(left, a);
    assert !HasAccess(right, a) ==> Touched(right, a) == {} && !HasWide(right, a);
  }

  lemma SameScopeUnion(left: set<Fact>, left': set<Fact>, right: set<Fact>, right': set<Fact>)
    requires SameScope(left, left') && SameScope(right, right')
    ensures SameScope(left + right, left' + right')
  {
    forall a
      ensures ScopeOf(left + right, a) == ScopeOf(left' + right', a)
    {
      ScopeOfUnion(left, right, a);
      ScopeOfUnion(left', right', a);
    }
  }

  // ---------------------------------------------------------------------------------------------
  // Rows

  ghost predicate RowsInRange(rows: seq<nat>, payloads: seq<Payload>) {
    forall i | 0 <= i < |rows| :: rows[i] < |payloads|
  }

  ghost function FactsOf(rows: seq<nat>, payloads: seq<Payload>): set<Fact>
    requires RowsInRange(rows, payloads)
  {
    set i | 0 <= i < |rows| :: payloads[rows[i]].fact
  }

  ghost predicate DistinctFacts(payloads: seq<Payload>) {
    forall i, j | 0 <= i < j < |payloads| :: payloads[i].fact != payloads[j].fact
  }

  /** Growing the payload list keeps the fact of every id. */
  ghost predicate Grows(before: seq<Payload>, after: seq<Payload>) {
    |before| <= |after| && forall i | 0 <= i < |before| :: before[i].fact == after[i].fact
  }

  lemma GrowsKeepsFacts(rows: seq<nat>, before: seq<Payload>, after: seq<Payload>)
    requires RowsInRange(rows, before) && Grows(before, after)
    ensures RowsInRange(rows, after) && FactsOf(rows, after) == FactsOf(rows, before)
  {
  }

  /** Rows with the same members carry the same facts. */
  lemma FactsOfMembers(rows: seq<nat>, other: seq<nat>, payloads: seq<Payload>)
    requires RowsInRange(rows, payloads) && forall x :: x in rows <==> x in other
    ensures RowsInRange(other, payloads) && FactsOf(rows, payloads) == FactsOf(other, payloads)
  {
    forall i | 0 <= i < |other|
      ensures other[i] < |payloads| && payloads[other[i]].fact in FactsOf(rows, payloads)
    {
      assert other[i] in rows;
    }
    forall i | 0 <= i < |rows|
      ensures payloads[rows[i]].fact in FactsOf(other, payloads)
    {
      assert rows[i] in other;
    }
  }

  lemma FactsOfUnion(rows: seq<nat>, left: seq<nat>, right: seq<nat>, payloads: seq<Payload>)
    requires RowsInRange(left, payloads) && RowsInRange(right, payloads)
    requires forall x :: x in rows <==> x in left || x in right
    ensures RowsInRange(rows, payloads)
    ensures FactsOf(rows, payloads) == FactsOf(left, payloads) + FactsOf(right, payloads)
  {
    FactsOfMembers(left + right, rows, payloads);
    var both := left + right;
    forall i | 0 <= i < |left|
      ensures payloads[left[i]].fact in FactsOf(both, payloads)
    {
      assert both[i] == left[i];
    }
    forall i | 0 <= i < |right|
      ensures payloads[right[i]].fact in FactsOf(both, payloads)
    {
      assert both[|left| + i] == right[i];
    }
  }

  /** With distinct facts, a row's id is present exactly when its fact is. */
  lemma IdsAreFacts(rows: seq<nat>, payloads: seq<Payload>, id: nat)
    requires RowsInRange(rows, payloads) && DistinctFacts(payloads) && id < |payloads|
    ensures id in rows <==> payloads[id].fact in FactsOf(rows, payloads)
  {
  }

  // ---------------------------------------------------------------------------------------------
  // The interner

  datatype FactKey = FactKey(
    globalKind: nat, globalValue: nat, accessRank: nat, viaRank: nat, detail: nat, addressNode: nat,
    pointees: nat, candidateKind: nat, candidates: nat)

  /** A numbering table: values from one upwards, no value twice. */
  ghost predicate TableOk<K(!new)>(table: map<K, nat>) {
    && (forall k | k in table :: 1 <= table[k] <= |table|)
    && (forall k, k' | k in table && k' in table && table[k] == table[k'] :: k == k')
  }

  ghost predicate TableGrows<K(!new)>(before: map<K, nat>, after: map<K, nat>) {
    forall k | k in before :: k in after && after[k] == before[k]
  }

  /** Looks `k` up, numbering it `len + 1` when it is new. */
  function Numbered<K(!new)>(table: map<K, nat>, k: K): (r: map<K, nat>)
    ensures k in r && TableGrows(table, r) && (TableOk(table) ==> TableOk(r))
  {
    if k in table then table else table[k := |table| + 1]
  }

  datatype Tables = Tables(strings: map<string, nat>, pointees: map<seq<string>, nat>, candidates: map<seq<nat>, nat>)

  ghost predicate TablesOk(t: Tables) {
    TableOk(t.strings) && TableOk(t.pointees) && TableOk(t.candidates)
  }

  ghost predicate TablesGrow(t: Tables, u: Tables) {
    TableGrows(t.strings, u.strings) && TableGrows(t.pointees, u.pointees) && TableGrows(t.candidates, u.candidates)
  }

  /** Every part of `f` that is numbered has its number. */
  ghost predicate Covered(t: Tables, f: Fact) {
    && (f.target.UnknownTarget? ==> f.target.reason in t.strings)
    && (f.detail.Some? ==> f.detail.value in t.strings)
    && (f.addressNode.Some? ==> f.addressNode.value in t.strings)
    && (f.pointees != [] ==> f.pointees in t.pointees)
    && (f.candidates.Finite? ==> f.candidates.globals in t.candidates)
  }

  function AccessRank(a: Access): nat {
    match a case Ref => 0 case Mod => 1
  }

  function ViaRank(v: Via): nat {
    match v case DirectVia => 0 case Aliased => 1 case UnknownVia => 2
  }

  function OptionNumber(t: map<string, nat>, value: Option<string>): nat
    requires value.Some? ==> value.value in t
  {
    if value.Some? then t[value.value] else 0
  }

  function KeyOf(t: Tables, f: Fact): FactKey
    requires Covered(t, f)
  {
    FactKey(
      if f.target.Named? then 0 else 1,
      if f.target.Named? then f.target.global else t.strings[f.target.reason],
      AccessRank(f.access), ViaRank(f.via),
      OptionNumber(t.strings, f.detail), OptionNumber(t.strings, f.addressNode),
      if f.pointees == [] then 0 else t.pointees[f.pointees],
      if f.candidates.Finite? then 0 else 1,
      if f.candidates.Finite? then t.candidates[f.candidates.globals] else 0)
  }

  /** Two facts get the same numeric key exactly when they are the same fact. */
  lemma KeysIdentifyFacts(t: Tables, f: Fact, g: Fact)
    requires TablesOk(t) && Covered(t, f) && Covered(t, g)
    ensures KeyOf(t, f) == KeyOf(t, g) <==> f == g
  {
    if KeyOf(t, f) == KeyOf(t, g) {
      SameNumber(t.strings, f.detail, g.detail);
      SameNumber(t.strings, f.addressNode, g.addressNode);
      assert f.pointees == g.pointees;
      assert f.candidates == g.candidates;
      assert f.target == g.target;
    }
  }

  lemma SameNumber(t: map<string, nat>, left: Option<string>, right: Option<string>)
    requires TableOk(t) && (left.Some? ==> left.value in t) && (right.Some? ==> right.value in t)
    ensures OptionNumber(t, left) == OptionNumber(t, right) <==> left == right
  {
  }

  lemma KeySurvives(t: Tables, u: Tables, f: Fact)
    requires TablesGrow(t, u) && Covered(t, f)
    ensures Covered(u, f) && KeyOf(u, f) == KeyOf(t, f)
  {
  }

  /** Every payload is filed under the key of its fact, and the ids are nothing else. */
  ghost predicate Filed(t: Tables, ids: map<FactKey, nat>, payloads: seq<Payload>) {
    (&& TablesOk(t)
     && (forall i | 0 <= i < |payloads| :: Covered(t, payloads[i].fact) && HasId(ids, KeyOf(t, payloads[i].fact), i))
     && (forall key | key in ids ::
           ids[key] < |payloads| && Covered(t, payloads[ids[key]].fact) && KeyOf(t, payloads[ids[key]].fact) == key)) == true
  }

  predicate HasId(ids: map<FactKey, nat>, key: FactKey, id: nat) {
    key in ids && ids[key] == id
  }

  lemma RenumberedIsFiled(t: Tables, u: Tables, ids: map<FactKey, nat>, payloads: seq<Payload>)
    requires Filed(t, ids, payloads) && TablesOk(u) && TablesGrow(t, u)
    ensures Filed(u, ids, payloads)
  {
    forall i | 0 <= i < |payloads|
      ensures Covered(u, payloads[i].fact) && KeyOf(u, payloads[i].fact) == KeyOf(t, payloads[i].fact)
    {
      KeySurvives(t, u, payloads[i].fact);
    }
  }

  lemma AppendedIsFiled(t: Tables, ids: map<FactKey, nat>, payloads: seq<Payload>, payload: Payload)
    requires Filed(t, ids, payloads) && Covered(t, payload.fact) && KeyOf(t, payload.fact) !in ids
    ensures Filed(t, ids[KeyOf(t, payload.fact) := |payloads|], payloads + [payload])
  {
  }

  lemma RewitnessedIsFiled(t: Tables, ids: map<FactKey, nat>, payloads: seq<Payload>, id: nat, payload: Payload)
    requires Filed(t, ids, payloads) && id < |payloads| && payload.fact == payloads[id].fact
    ensures Filed(t, ids, payloads[id := payload])
  {
  }

  class Interner {
    var payloadIds: map<FactKey, nat>
    var strings: map<string, nat>
    var pointeeGlobals: map<seq<string>, nat>
    var candidateSets: map<seq<nat>, nat>
    /** The payload vector that the source passes next to the interner. */
    var payloads: seq<Payload>

    ghost function Numbers(): Tables
      reads this
    {
      Tables(strings, pointeeGlobals, candidateSets)
    }

    ghost predicate Valid()
      reads this
    {
      Filed(Numbers(), payloadIds, payloads)
    }

    constructor ()
      ensures Valid() && payloads == []
    {
      payloadIds, strings, pointeeGlobals, candidateSets, payloads := map[], map[], map[], map[], [];
    }

    /** Interned facts are pairwise different. */
    lemma FactsDistinct()
      requires Valid()
      ensures DistinctFacts(payloads)
    {
    }

    method KeyFor(fact: Fact) returns (key: FactKey)
      requires Valid()
      modifies this`strings, this`pointeeGlobals, this`candidateSets
      ensures TablesOk(Numbers()) && TablesGrow(old(Numbers()), Numbers())
      ensures Covered(Numbers(), fact) && key == KeyOf(Numbers(), fact)
    {
      if fact.target.UnknownTarget? {
        strings := Numbered(strings, fact.target.reason);
      }
      if fact.candidates.Finite? {
        candidateSets := Numbered(candidateSets, fact.candidates.globals);
      }
      if fact.detail.Some? {
        strings := Numbered(strings, fact.detail.value);
      }
      if fact.addressNode.Some? {
        strings := Numbered(strings, fact.addressNode.value);
      }
      if fact.pointees != [] {
        pointeeGlobals := Numbered(pointeeGlobals, fact.pointees);
      }
      key := KeyOf(Tables(strings, pointeeGlobals, candidateSets), fact);
    }

    /**
     The id of the payload's fact: the one it already has, whose witness is then the preferred one, or
     the next id.
     */
    method Intern(payload: Payload) returns (id: nat)
      requires Valid()
      modifies this
      ensures Valid() && Grows(old(payloads), payloads)
      ensures id < |payloads| && payloads[id].fact == payload.fact
      ensures id < |old(payloads)| ==>
                payloads == old(payloads)[id := Payload(payload.fact,
                                            Preferred(old(payloads)[id].evidence, payload.evidence))]
      ensures id >= |old(payloads)| ==> payloads == old(payloads) + [payload]
    {
      ghost var before := Numbers();
      var key := KeyFor(payload.fact);
      RenumberedIsFiled(before, Numbers(), payloadIds, payloads);
      if key in payloadIds {
        id := payloadIds[key];
        KeysIdentifyFacts(Numbers(), payloads[id].fact, payload.fact);
        var renewed := Payload(payloads[id].fact, Preferred(payloads[id].evidence, payload.evidence));
        RewitnessedIsFiled(Numbers(), payloadIds, payloads, id, renewed);
        payloads := payloads[id := renewed];
      } else {
        AppendedIsFiled(Numbers(), payloadIds, payloads, payload);
        id := |payloads|;
        payloadIds := payloadIds[key := id];
        payloads := payloads + [payload];
      }
    }
  }
}
