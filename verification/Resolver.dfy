/** The resolver around the two walks: its configuration, and the answer to one indirect-call query. */
module Resolver {
  import opened Basics
  import opened Paths
  import opened Sorting
  import opened Pir
  import opened Producers
  import opened Chains
  import opened Preanalysis
  import opened Simple
  import opened Escapes
  import IndexBuilder

  // ---------------------------------------------------------------------------------------------
  // Entry points and reachable functions

  predicate Exported(exports: set<string>, key: string) {
    exists name | name in exports :: CanonicalSymbol(name) == CanonicalSymbol(key)
  }

  predicate IsExternallyCallable(func: Func, mode: BuildMode, exports: set<string>) {
    || func.external || Exported(exports, func.key)
    || (match mode case Library => func.exported case Executable => CanonicalSymbol(func.key) == "main")
  }

  ghost predicate ExportsSymbol(exports: set<string>, key: string) {
    exists name, symbol :: name in exports && Spells(name, symbol) && Spells(key, symbol)
  }

  /** Outside code can call the function. */
  ghost predicate OutsideMayCall(func: Func, mode: BuildMode, exports: set<string>) {
    || func.external || ExportsSymbol(exports, func.key)
    || (mode == Library && func.exported) || (mode == Executable && Spells(func.key, "main"))
  }

  lemma ExportedIsSpelled(exports: set<string>, key: string)
    ensures Exported(exports, key) <==> ExportsSymbol(exports, key)
  {
    var symbol := CanonicalSymbol(key);
    CanonicalIsSpelled(key, symbol);
    if name :| name in exports && CanonicalSymbol(name) == symbol {
      CanonicalIsSpelled(name, symbol);
    }
    if name, s :| name in exports && Spells(name, s) && Spells(key, s) {
      CanonicalIsSpelled(name, s);
      CanonicalIsSpelled(key, s);
    }
  }

  lemma CallableMeans(func: Func, mode: BuildMode, exports: set<string>)
    ensures IsExternallyCallable(func, mode, exports) <==> OutsideMayCall(func, mode, exports)
  {
    ExportedIsSpelled(exports, func.key);
    CanonicalIsSpelled(func.key, "main");
  }

  /** Function `f` calls `g` directly, by symbol. */
  ghost predicate CallsSymbol(m: Module, f: nat, g: nat) {
    f < |m.functions| && exists s: nat :: CallsSymbolAt(m, f, s, g)
  }

  ghost predicate CallsSymbolAt(m: Module, f: nat, s: nat, g: nat) {
    f < |m.functions| && s < |m.functions[f].body| && m.functions[f].body[s].CallDirect?
    && FunctionIndex(m.functions, CanonicalSymbol(m.functions[f].body[s].callee)) == Some(g)
  }

  ghost function SymbolCalls(m: Module): (nat, nat) -> bool {
    (f: nat, g: nat) => CallsSymbol(m, f, g)
  }

  /** The program may enter at `f`: from outside, or through a taken address. */
  predicate IsRoot(m: Module, callable: seq<bool>, f: nat)
    requires |callable| == |m.functions|
  {
    f < |callable| && (callable[f] || m.functions[f].addressTaken)
  }

  /** There is a closed-world entry point to prune from. */
  predicate HasEntry(m: Module, callable: seq<bool>)
    requires |callable| == |m.functions|
  {
    exists f | 0 <= f < |callable| :: !m.functions[f].external && callable[f]
  }

  /**
   The function may run: in a library every one may, and in a program that outside code enters nowhere but at
   external functions there is nothing to go by; otherwise it is called, in any number of steps, from one that outside code
   may call or whose address is taken.
   */
  ghost predicate MayRun(m: Module, mode: BuildMode, callable: seq<bool>, f: nat)
    requires |callable| == |m.functions|
  {
    || mode == Library || (forall g | 0 <= g < |callable| && callable[g] :: m.functions[g].external)
    || exists root: nat :: root < |callable| && (callable[root] || m.functions[root].addressTaken) && Reach(SymbolCalls(m), root, f)
  }

  lemma FromRootMayRun(m: Module, mode: BuildMode, callable: seq<bool>, f: nat)
    requires |callable| == |m.functions|
    ensures MayRun(m, mode, callable, f) <==> mode.Library? || !HasEntry(m, callable) || FromRoot(m, callable, f)
  {
  }

  ghost predicate FromRoot(m: Module, callable: seq<bool>, f: nat)
    requires |callable| == |m.functions|
  {
    exists root :: IsRoot(m, callable, root) && Reach(SymbolCalls(m), root, f)
  }

  /** Exactly the functions that an entry point may run; everything when there is nothing to prune from. */
  method ReachableFunctions(m: Module, mode: BuildMode, callable: seq<bool>) returns (reachable: seq<bool>)
    requires |callable| == |m.functions|
    ensures |reachable| == |m.functions|
    ensures forall f: nat | f < |reachable| :: reachable[f] <==> MayRun(m, mode, callable, f)
  {
    forall f: nat
      ensures MayRun(m, mode, callable, f) <==> mode.Library? || !HasEntry(m, callable) || FromRoot(m, callable, f)
    {
      FromRootMayRun(m, mode, callable, f);
    }
    hide MayRun;
    if mode.Library? || !HasEntry(m, callable) {
      return seq(|m.functions|, _ => true);
    }
    reachable := seq(|m.functions|, f requires 0 <= f < |m.functions| => IsRoot(m, callable, f));
    var work := Marked(reachable);
    RootsMarked(m, callable, reachable, work);
    while work != []
      invariant MarkOk(m, callable, reachable, work)
      invariant forall f: nat | IsRoot(m, callable, f) :: reachable[f]
      invariant forall f: nat, g: nat | f < |reachable| && reachable[f] && f !in work && CallsSymbol(m, f, g) ::
                  g < |reachable| && reachable[g]
      decreases Unmarked(reachable), |work|
    {
      var func := work[|work| - 1];
      ghost var before := work;
      work := work[..|work| - 1];
      assert before == work + [func] && func in before;
      reachable, work := MarkCallees(m, callable, reachable, work, func);
    }
    AllReached(m, callable, reachable);
  }

  lemma RootsMarked(m: Module, callable: seq<bool>, reachable: seq<bool>, work: seq<nat>)
    requires |callable| == |reachable| == |m.functions|
    requires forall f: nat | f < |reachable| :: reachable[f] <==> IsRoot(m, callable, f)
    requires forall f: nat :: f in work <==> f < |reachable| && reachable[f]
    ensures MarkOk(m, callable, reachable, work)
  {
    forall f: nat {:trigger FromRoot(m, callable, f)} | f < |reachable| && reachable[f]
      ensures FromRoot(m, callable, f)
    {
      ReachSelf(SymbolCalls(m), f);
      assert IsRoot(m, callable, f);
    }
  }

  lemma AllReached(m: Module, callable: seq<bool>, reachable: seq<bool>)
    requires |callable| == |reachable| == |m.functions|
    requires forall f: nat | IsRoot(m, callable, f) :: reachable[f]
    requires forall f: nat, g: nat | f < |reachable| && reachable[f] && CallsSymbol(m, f, g) ::
               g < |reachable| && reachable[g]
    ensures forall f: nat | f < |reachable| && FromRoot(m, callable, f) :: reachable[f]
  {
    forall f: nat | f < |reachable| && FromRoot(m, callable, f)
      ensures reachable[f]
    {
      var root :| IsRoot(m, callable, root) && Reach(SymbolCalls(m), root, f);
      ClosedUnderReach(SymbolCalls(m), (g: nat) => g < |reachable| && reachable[g], root, f);
    }
  }

  method Marked(flags: seq<bool>) returns (list: seq<nat>)
    ensures forall f: nat :: f in list <==> f < |flags| && flags[f]
  {
    list := [];
    for f := 0 to |flags|
      invariant forall g: nat :: g in list <==> g < f && flags[g]
    {
      if flags[f] {
        list := list + [f];
      }
    }
  }

  ghost function Unmarked(reachable: seq<bool>): set<nat> {
    set f: nat | f < |reachable| && !reachable[f]
  }

  /** Marked functions come from a root, and only marked functions are queued. */
  ghost predicate MarkOk(m: Module, callable: seq<bool>, reachable: seq<bool>, work: seq<nat>) {
    && |callable| == |reachable| == |m.functions|
    && (forall f: nat | f in work :: f < |reachable| && reachable[f])
    && (forall f: nat {:trigger FromRoot(m, callable, f)} | f < |reachable| && reachable[f] :: FromRoot(m, callable, f))
  }

  /** Marks are never removed, and whatever is newly marked is queued. */
  ghost predicate MarksMore(reachable: seq<bool>, work: seq<nat>, reachable': seq<bool>, work': seq<nat>) {
    && |reachable'| == |reachable|
    && (forall f: nat | f < |reachable| && reachable[f] :: reachable'[f])
    && (forall f: nat | f < |reachable'| && reachable'[f] && !reachable[f] :: f in work')
    && (forall f | f in work :: f in work')
    && (Unmarked(reachable') < Unmarked(reachable) || (reachable' == reachable && work' == work))
  }

  /** Marks and queues every unmarked callee of `func`. */
  method MarkCallees(m: Module, callable: seq<bool>, reachable: seq<bool>, work: seq<nat>, func: nat)
    returns (reachable': seq<bool>, work': seq<nat>)
    requires MarkOk(m, callable, reachable, work) && func < |reachable| && reachable[func]
    ensures MarkOk(m, callable, reachable', work') && MarksMore(reachable, work, reachable', work')
    ensures forall g: nat | CallsSymbol(m, func, g) :: g < |reachable'| && reachable'[g]
  {
    reachable', work' := reachable, work;
    var body := m.functions[func].body;
    hide MarkOk, MarksMore;
    MarksNothing(m, callable, reachable, work);
    for s := 0 to |body|
      invariant MarkOk(m, callable, reachable', work') && MarksMore(reachable, work, reachable', work')
      invariant |reachable'| == |m.functions|
      invariant forall g: nat, t: nat | t < s && CallsSymbolAt(m, func, t, g) :: reachable'[g]
    {
      if body[s].CallDirect? {
        var callee := FunctionIndex(m.functions, CanonicalSymbol(body[s].callee));
        if callee.Some? && !reachable'[callee.value] {
          assert CallsSymbolAt(m, func, s, callee.value);
          MarkNext(m, callable, reachable, work, reachable', work', func, callee.value);
          reachable' := reachable'[callee.value := true];
          work' := work' + [callee.value];
        }
      }
    }
  }

  lemma MarksNothing(m: Module, callable: seq<bool>, reachable: seq<bool>, work: seq<nat>)
    requires MarkOk(m, callable, reachable, work)
    ensures MarksMore(reachable, work, reachable, work) && |callable| == |reachable| == |m.functions|
  {
  }

  lemma MarkNext(
      m: Module, callable: seq<bool>, reachable: seq<bool>, work: seq<nat>, reachable': seq<bool>, work': seq<nat>, f: nat, g: nat)
    requires MarkOk(m, callable, reachable', work') && MarksMore(reachable, work, reachable', work')
    requires f < |reachable| && reachable[f] && CallsSymbol(m, f, g) && g < |reachable'| && !reachable'[g]
    ensures MarkOk(m, callable, reachable'[g := true], work' + [g]) && MarksMore(reachable, work, reachable'[g := true], work' + [g])
  {
    hide CallsSymbol, Reach;
    RootStep(m, callable, f, g);
    MarkOne(reachable, work, reachable', work', g);
    hide FromRoot, Unmarked, MarksMore;
  }

  lemma MarkOne(reachable: seq<bool>, work: seq<nat>, reachable': seq<bool>, work': seq<nat>, f: nat)
    requires MarksMore(reachable, work, reachable', work') && f < |reachable'| && !reachable'[f]
    ensures MarksMore(reachable, work, reachable'[f := true], work' + [f])
  {
    assert f in Unmarked(reachable') && f !in Unmarked(reachable'[f := true]);
    assert Unmarked(reachable'[f := true]) < Unmarked(reachable');
  }

  lemma RootStep(m: Module, callable: seq<bool>, f: nat, g: nat)
    requires |callable| == |m.functions| && FromRoot(m, callable, f) && CallsSymbol(m, f, g)
    ensures FromRoot(m, callable, g)
  {
    var root :| IsRoot(m, callable, root) && Reach(SymbolCalls(m), root, f);
    ReachEdge(SymbolCalls(m), f, g);
    ReachTrans(SymbolCalls(m), root, f, g);
  }

  method Configure(m: Module, depthLimit: nat, mode: BuildMode, exports: set<string>) returns (c: Config)
    ensures ValidConfig(c) && c.module_ == m && c.depthLimit == depthLimit
    ensures forall f | 0 <= f < |m.functions| ::
              c.externallyCallable[f] <==> OutsideMayCall(m.functions[f], mode, exports)
    ensures forall f: nat | f < |m.functions| :: c.reachable[f] <==> MayRun(m, mode, c.externallyCallable, f)
    ensures forall g :: g in c.externallyWritable <==>
              exists i :: 0 <= i < |m.globals| && Spells(m.globals[i].key, g)
                          && (ExportsSymbol(exports, m.globals[i].key) || (mode == Library && m.globals[i].exported))
  {
    forall func
      ensures IsExternallyCallable(func, mode, exports) <==> OutsideMayCall(func, mode, exports)
    {
      CallableMeans(func, mode, exports);
    }
    forall key
      ensures Exported(exports, key) <==> ExportsSymbol(exports, key)
    {
      ExportedIsSpelled(exports, key);
    }
    forall key, g
      ensures CanonicalSymbol(key) == g <==> Spells(key, g)
    {
      CanonicalIsSpelled(key, g);
    }
    hide MayRun, OutsideMayCall, ExportsSymbol, Spells, CanonicalSymbol, IsExternallyCallable, Exported;
    var callable := seq(|m.functions|,
      f requires 0 <= f < |m.functions| => IsExternallyCallable(m.functions[f], mode, exports));
    var reachable := ReachableFunctions(m, mode, callable);
    var writable := set i | 0 <= i < |m.globals|
                            && (Exported(exports, m.globals[i].key) || (mode.Library? && m.globals[i].exported))
                      :: CanonicalSymbol(m.globals[i].key);
    c := Config(m, depthLimit, reachable, callable, writable);
  }

  // ---------------------------------------------------------------------------------------------
  // Queries

  datatype Query = Query(func: nat, stmt: nat, operand: string)

  ghost function Root(q: Query): Node {
    Val(q.func, q.operand, 0)
  }

  /** The operand of `q` may carry function `t`. */
  ghost predicate Carries(c: Config, q: Query, t: nat) {
    exists o: Origin :: o.target == t && Produces(c, Root(q), Symbol(o))
  }

  /** The compatible functions that the operand of `q` may carry. */
  ghost function Answers(c: Config, q: Query, compatible: nat -> bool): set<nat> {
    set t: nat | t < |c.module_.functions| && compatible(t) && Carries(c, q, t)
  }

  /** The functions of a resolution, and every place where a function that reaches the operand is named. */
  datatype Resolution = Resolution(targets: set<nat>, origins: set<Origin>)

  ghost predicate TargetLeaks(c: Config, t: nat) {
    t < |c.module_.functions| && Leaks(c, CanonicalSymbol(c.module_.functions[t].key))
  }

  ghost predicate SomeLeaks(c: Config, targets: set<nat>) {
    exists t :: t in targets && TargetLeaks(c, t)
  }

  ghost function AllOperands(c: Config): set<string> {
    set f: nat, s: nat, i: nat | f < |c.module_.functions| && s < |Body(c, f)| && i < |Operands(Body(c, f)[s])| ::
      Operands(Body(c, f)[s])[i]
  }

  ghost function AllNames(c: Config): set<string> {
    (set f: nat, s: nat | f < |c.module_.functions| && s < |Body(c, f)| && Dest(Body(c, f)[s]).Some? ::
       Dest(Body(c, f)[s]).value)
    + (set f: nat, i: nat | f < |c.module_.functions| && i < |c.module_.functions[f].params| ::
         c.module_.functions[f].params[i])
  }

  class SimpleResolver {
    const c: Config
    const index: Index
    const escapes: EscapeWalk

    ghost predicate Valid()
      reads this, escapes
    {
      (IndexOk(c, index) && escapes.c == c && escapes.index == index
       && escapes.Ready() && escapes.visiting == {} && escapes.CacheOk()) == true
    }

    constructor (m: Module, depthLimit: nat, mode: BuildMode, exports: set<string>)
      ensures Valid() && fresh(escapes) && c.module_ == m && c.depthLimit == depthLimit
    {
      var config := Configure(m, depthLimit, mode, exports);
      var built := IndexBuilder.BuildPreanalysis(config);
      c, index := config, built;
      escapes := new EscapeWalk(config, built, AllNames(config));
    }

    /**
     One query. An answer lists exactly the compatible functions the operand may carry, all of them
     confined, along a flow that is followed everywhere, with every place that names one. There is none
     exactly when some chain of uses breaks, no compatible function is carried, or the address of one
     that is escapes.
     */
    method ResolveQuery(q: Query, compatible: nat -> bool) returns (r: Option<Resolution>)
      requires Valid() && q.func < |c.module_.functions|
      modifies escapes
      ensures Valid()
      ensures r.Some? ==>
                && r.value.targets == Answers(c, q, compatible) && r.value.targets != {}
                && (forall o :: o in r.value.origins <==> Produces(c, Root(q), Symbol(o)))
                && (forall x | Produces(c, Root(q), x) :: !Stuck(c, x))
                && !SomeLeaks(c, r.value.targets)
      ensures r.None? <==>
                || Fails(c, Root(q), q.stmt, {})
                || Answers(c, q, compatible) == {} || SomeLeaks(c, Answers(c, q, compatible))
    {
      var walked := Walk(q);
      if walked.None? {
        return None;
      }
      var origins := walked.value;
      var targets := set o | o in origins && o.target < |c.module_.functions| && compatible(o.target) :: o.target;
      CarriedTargets(c, q, origins, compatible, targets);
      if targets == {} {
        return None;
      }
      var leaks := AnyLeaks(targets);
      r := if leaks then None else Some(Resolution(targets, origins));
    }

    /** The backward walk of a query, on a fresh stack. */
    method Walk(q: Query) returns (r: Option<set<Origin>>)
      requires Valid() && q.func < |c.module_.functions|
      ensures r.None? <==> Fails(c, Root(q), q.stmt, {})
      ensures r.None? ==> Late(c, Root(q), q.stmt) || Broken(c, Root(q))
      ensures r.Some? ==> forall x | Produces(c, Root(q), x) :: !Stuck(c, x)
      ensures r.Some? ==> forall o :: o in r.value <==> Produces(c, Root(q), Symbol(o))
    {
      var walk := new BackwardWalk(c, index, AllOperands(c) + {q.operand});
      var result := walk.ResolveValue(q.func, q.stmt, q.operand, 0);
      if result.Complex? {
        return None;
      }
      AllTargets(c, Root(q), walk.origins);
      return Some(walk.origins);
    }

    method CheckTarget(t: nat) returns (leaks: bool)
      requires Valid() && t < |c.module_.functions|
      modifies escapes
      ensures Valid() && leaks == TargetLeaks(c, t)
    {
      leaks := escapes.FunctionHasUnsafeEscape(c.module_.functions[t].key);
    }

    /** Whether the address of some target escapes. */
    method AnyLeaks(targets: set<nat>) returns (leaks: bool)
      requires Valid() && forall t | t in targets :: t < |c.module_.functions|
      modifies escapes
      ensures Valid()
      ensures leaks <==> SomeLeaks(c, targets)
    {
      hide TargetLeaks;
      for t := 0 to |c.module_.functions|
        invariant Valid()
        invariant forall x | 0 <= x < t && x in targets :: !TargetLeaks(c, x)
      {
        if t in targets {
          leaks := CheckTarget(t);
          if leaks {
            return;
          }
        }
      }
      return false;
    }
  }

  lemma CarriedTargets(c: Config, q: Query, origins: set<Origin>, compatible: nat -> bool, targets: set<nat>)
    requires forall o :: o in origins <==> Produces(c, Root(q), Symbol(o))
    requires targets == set o | o in origins && o.target < |c.module_.functions| && compatible(o.target) :: o.target
    ensures targets == Answers(c, q, compatible)
  {
    forall t: nat
      ensures t in targets <==> t in Answers(c, q, compatible)
    {
      if t in Answers(c, q, compatible) {
        var o: Origin :| o.target == t && Produces(c, Root(q), Symbol(o));
        assert o in origins;
      }
      if t in targets {
        var o :| o in origins && o.target == t;
        assert Produces(c, Root(q), Symbol(o));
      }
    }
  }

  /** With nothing on the stack, complete and sound origins are exactly the produced symbols. */
  lemma AllTargets(c: Config, n: Node, origins: set<Origin>)
    requires Complete(c, n, {}, origins) && Sound(c, n, {}, origins)
    ensures forall x | Produces(c, n, x) :: !Stuck(c, x)
    ensures forall o :: o in origins <==> Produces(c, n, Symbol(o))
  {
    forall x | Produces(c, n, x)
      ensures !Stuck(c, x) && (x.Symbol? ==> x.origin in origins)
    {
      ReachAvoidingNothing(Flow(c), n, x);
    }
  }
}
