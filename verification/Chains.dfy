/** The chains of uses along which the backward walk gives up. */
module Chains {
  import opened Pir
  import opened Sorting
  import opened Producers

  /** A node and the statement that uses it. */
  datatype Step = Step(node: Node, pos: nat)

  /** The walk keeps this node on its stack while it follows it. */
  predicate Tracked(c: Config, n: Node) {
    n.Val? && NamedFunction(c, n.value).None? && !NamesGlobal(c, n.value)
  }

  /** The walk takes this node for granted, because it is following it already. */
  predicate Cut(c: Config, n: Node, avoid: set<Node>) {
    Tracked(c, n) && n in avoid && n.depth <= c.depthLimit
  }

  function Under(c: Config, n: Node, avoid: set<Node>): set<Node> {
    if Tracked(c, n) then avoid + {n} else avoid
  }

  /**
   Each node of the chain is used by the one before, no tracked node comes twice or lies in `avoid`, and the
   last one is stuck or used before its definition.
   */
  ghost predicate Breaks(c: Config, chain: seq<Step>, avoid: set<Node>)
    decreases |chain|
  {
    && chain != [] && !Cut(c, chain[0].node, avoid)
    && if |chain| == 1 then Stuck(c, chain[0].node) || Late(c, chain[0].node, chain[0].pos)
       else
         && Uses(c, chain[0].node, chain[1].node, chain[1].pos)
         && Breaks(c, chain[1..], Under(c, chain[0].node, avoid))
  }

  /** Some chain from `n`, used at `pos`, breaks. */
  ghost predicate Fails(c: Config, n: Node, pos: nat, avoid: set<Node>) {
    exists chain :: chain != [] && chain[0] == Step(n, pos) && Breaks(c, chain, avoid)
  }

  ghost predicate UsesFail(c: Config, n: Node, avoid: set<Node>) {
    exists m, pos :: Uses(c, n, m, pos) && Fails(c, m, pos, avoid)
  }

  lemma FailsUnfold(c: Config, n: Node, pos: nat, avoid: set<Node>)
    ensures Fails(c, n, pos, avoid) <==>
              !Cut(c, n, avoid) && (Stuck(c, n) || Late(c, n, pos) || UsesFail(c, n, Under(c, n, avoid)))
  {
    if Fails(c, n, pos, avoid) {
      var chain: seq<Step> :| chain != [] && chain[0] == Step(n, pos) && Breaks(c, chain, avoid);
      if |chain| > 1 {
        assert chain[1..][0] == Step(chain[1].node, chain[1].pos);
        assert Fails(c, chain[1].node, chain[1].pos, Under(c, n, avoid));
      }
    }
    if !Cut(c, n, avoid) {
      var start := [Step(n, pos)];
      if Stuck(c, n) || Late(c, n, pos) {
        assert Breaks(c, start, avoid);
      } else if UsesFail(c, n, Under(c, n, avoid)) {
        var m, p :| Uses(c, n, m, p) && Fails(c, m, p, Under(c, n, avoid));
        var rest: seq<Step> :| rest != [] && rest[0] == Step(m, p) && Breaks(c, rest, Under(c, n, avoid));
        assert (start + rest)[1..] == rest;
        assert Breaks(c, start + rest, avoid);
      }
    }
  }

  /** Only values can be used too early. */
  lemma FailsAnywhere(c: Config, n: Node, p: nat, q: nat, avoid: set<Node>)
    requires !n.Val?
    ensures Fails(c, n, p, avoid) <==> Fails(c, n, q, avoid)
  {
    FailsUnfold(c, n, p, avoid);
    FailsUnfold(c, n, q, avoid);
  }

  lemma FailsEverywhere(c: Config, n: Node, avoid: set<Node>)
    requires !n.Val?
    ensures forall pos :: Fails(c, n, pos, avoid) <==> Stuck(c, n) || UsesFail(c, n, avoid)
  {
    forall pos
      ensures Fails(c, n, pos, avoid) <==> Stuck(c, n) || UsesFail(c, n, avoid)
    {
      FailsUnfold(c, n, pos, avoid);
    }
  }

  lemma SymbolNeverFails(c: Config, t: Origin, pos: nat, avoid: set<Node>)
    ensures !Fails(c, Symbol(t), pos, avoid)
  {
    FailsUnfold(c, Symbol(t), pos, avoid);
  }
}
