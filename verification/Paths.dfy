/** Reachability in an arbitrary directed relation, shared by every graph walk of the model. */
module Paths {

  /** `p` is a nonempty chain of `e`-related nodes. */
  ghost predicate Path<T(!new)>(e: (T, T) -> bool, p: seq<T>) {
    |p| > 0 && forall i, j | 0 <= i && j == i + 1 < |p| :: e(p[i], p[j])
  }

  ghost predicate PathFromTo<T(!new)>(e: (T, T) -> bool, p: seq<T>, a: T, b: T) {
    Path(e, p) && p[0] == a && p[|p| - 1] == b
  }

  /** Zero or more steps lead from `a` to `b`. */
  ghost predicate Reach<T(!new)>(e: (T, T) -> bool, a: T, b: T) {
    exists p :: PathFromTo(e, p, a, b)
  }

  /** Zero or more steps lead from `a` to `b`, and no node on the way (ends included) is in `avoid`. */
  ghost predicate ReachAvoiding<T(!new)>(e: (T, T) -> bool, avoid: set<T>, a: T, b: T) {
    exists p :: PathFromTo(e, p, a, b) && Avoids(p, avoid)
  }

  ghost predicate Avoids<T(!new)>(p: seq<T>, avoid: set<T>) {
    forall i | 0 <= i < |p| :: p[i] !in avoid
  }

  lemma ReachSelf<T(!new)>(e: (T, T) -> bool, a: T)
    ensures Reach(e, a, a)
  {
    assert PathFromTo(e, [a], a, a);
  }

  lemma ReachEdge<T(!new)>(e: (T, T) -> bool, a: T, b: T)
    requires e(a, b)
    ensures Reach(e, a, b)
  {
    assert PathFromTo(e, [a, b], a, b);
  }

  lemma ReachTrans<T(!new)>(e: (T, T) -> bool, a: T, b: T, c: T)
    requires Reach(e, a, b) && Reach(e, b, c)
    ensures Reach(e, a, c)
  {
    var p :| PathFromTo(e, p, a, b);
    var q :| PathFromTo(e, q, b, c);
    var r := p + q[1..];
    forall i | 0 <= i < |r| - 1
      ensures e(r[i], r[i + 1])
    {
      if i < |p| - 1 {
      } else {
        assert r[i] == q[i - |p| + 1];
        assert r[i + 1] == q[i - |p| + 2];
      }
    }
    assert PathFromTo(e, r, a, c);
  }

  /** A path is its first step followed by a path. */
  lemma ReachFirst<T(!new)>(e: (T, T) -> bool, a: T, b: T) returns (m: T)
    requires Reach(e, a, b) && a != b
    ensures e(a, m) && Reach(e, m, b)
  {
    var p :| PathFromTo(e, p, a, b);
    m := p[1];
    assert e(p[0], p[0 + 1]);
    var q := p[1..];
    forall i | 0 <= i < |q| - 1
      ensures e(q[i], q[i + 1])
    {
      assert e(p[i + 1], p[i + 1 + 1]);
    }
    assert PathFromTo(e, q, m, b);
  }

  /** A set that no edge leaves is never left. */
  lemma {:induction false} ClosedUnderReach<T(!new)>(e: (T, T) -> bool, inside: T -> bool, a: T, b: T)
    requires Reach(e, a, b) && inside(a)
    requires forall u, v :: inside(u) && e(u, v) ==> inside(v)
    ensures inside(b)
  {
    var p :| PathFromTo(e, p, a, b);
    var i := 0;
    while i < |p| - 1
      invariant 0 <= i < |p| && inside(p[i])
    {
      assert e(p[i], p[i + 1]);
      i := i + 1;
    }
  }

  /** A path that starts inside and ends outside crosses the border somewhere. */
  lemma Crossing<T(!new)>(e: (T, T) -> bool, inside: T -> bool, a: T, b: T) returns (u: T, v: T)
    requires Reach(e, a, b) && inside(a) && !inside(b)
    ensures inside(u) && !inside(v) && e(u, v) && Reach(e, a, u) && Reach(e, v, b)
  {
    var p :| PathFromTo(e, p, a, b);
    var i := 0;
    while inside(p[i + 1])
      invariant 0 <= i < |p| - 1 && inside(p[i])
      decreases |p| - i
    {
      i := i + 1;
    }
    u, v := p[i], p[i + 1];
    assert PathFromTo(e, p[..i + 1], a, u);
    var q := p[i + 1..];
    forall k | 0 <= k < |q| - 1
      ensures e(q[k], q[k + 1])
    {
      assert e(p[i + 1 + k], p[i + 1 + k + 1]);
    }
    assert PathFromTo(e, q, v, b);
  }

  /** Inside a set that `e` does not leave, `e` may be replaced by any relation that agrees there. */
  lemma ReachInside<T(!new)>(e: (T, T) -> bool, inner: (T, T) -> bool, inside: T -> bool, a: T, b: T)
    requires Reach(e, a, b) && inside(a)
    requires forall u, v :: inside(u) && e(u, v) ==> inside(v) && inner(u, v)
    ensures Reach(inner, a, b) && inside(b)
  {
    var p :| PathFromTo(e, p, a, b);
    var i := 0;
    ReachSelf(inner, a);
    while i < |p| - 1
      invariant 0 <= i < |p| && inside(p[i]) && Reach(inner, a, p[i])
    {
      assert e(p[i], p[i + 1]);
      ReachEdge(inner, p[i], p[i + 1]);
      ReachTrans(inner, a, p[i], p[i + 1]);
      i := i + 1;
    }
  }

  lemma ReachWider<T(!new)>(e: (T, T) -> bool, wider: (T, T) -> bool, a: T, b: T)
    requires Reach(e, a, b) && forall u, v :: e(u, v) ==> wider(u, v)
    ensures Reach(wider, a, b)
  {
    var p :| PathFromTo(e, p, a, b);
    assert PathFromTo(wider, p, a, b);
  }

  lemma ReachAvoidingWeaken<T(!new)>(e: (T, T) -> bool, avoid: set<T>, a: T, b: T)
    requires ReachAvoiding(e, avoid, a, b)
    ensures Reach(e, a, b) && a !in avoid && b !in avoid
  {
    var p :| PathFromTo(e, p, a, b) && Avoids(p, avoid);
  }

  lemma ReachAvoidingNothing<T(!new)>(e: (T, T) -> bool, a: T, b: T)
    requires Reach(e, a, b)
    ensures ReachAvoiding(e, {}, a, b)
  {
    var p :| PathFromTo(e, p, a, b);
    assert Avoids(p, {});
  }

  lemma ReachAvoidingSelf<T(!new)>(e: (T, T) -> bool, avoid: set<T>, a: T)
    requires a !in avoid
    ensures ReachAvoiding(e, avoid, a, a)
  {
    assert PathFromTo(e, [a], a, a) && Avoids([a], avoid);
  }

  lemma ReachAvoidingStep<T(!new)>(e: (T, T) -> bool, avoid: set<T>, more: set<T>, a: T, m: T, b: T)
    requires a !in avoid && e(a, m) && avoid <= more && ReachAvoiding(e, more, m, b)
    ensures ReachAvoiding(e, avoid, a, b)
  {
    var p :| PathFromTo(e, p, m, b) && Avoids(p, more);
    var q := [a] + p;
    forall i | 0 <= i < |q| - 1
      ensures e(q[i], q[i + 1])
    {
      if i > 0 {
        assert q[i] == p[i - 1] && q[i + 1] == p[i - 1 + 1];
      }
    }
    assert PathFromTo(e, q, a, b) && Avoids(q, avoid);
  }

  /**
   The fact behind an on-stack cycle cut: a path from `a` can be shortened so that it visits `a` only
   at its start, hence its remainder also avoids `a`.
   */
  lemma ReachAvoidingSplit<T(!new)>(e: (T, T) -> bool, avoid: set<T>, a: T, b: T) returns (m: T)
    requires ReachAvoiding(e, avoid, a, b) && a != b
    ensures e(a, m) && ReachAvoiding(e, avoid + {a}, m, b)
  {
    var p :| PathFromTo(e, p, a, b) && Avoids(p, avoid);
    var i := |p| - 1;
    while p[i] != a
      invariant 0 <= i < |p| && forall k | i < k < |p| :: p[k] != a
      decreases i
    {
      i := i - 1;
    }
    m := p[i + 1];
    var q := p[i + 1..];
    assert forall k | 0 <= k < |q| :: q[k] == p[i + 1 + k];
    forall k | 0 <= k < |q| - 1
      ensures e(q[k], q[k + 1])
    {
      assert e(p[i + 1 + k], p[i + 1 + k + 1]);
    }
    assert PathFromTo(e, q, m, b) && Avoids(q, avoid + {a});
  }

  /** The first step of a path, keeping the set to avoid. */
  lemma ReachAvoidingFirst<T(!new)>(e: (T, T) -> bool, avoid: set<T>, a: T, b: T) returns (m: T)
    requires ReachAvoiding(e, avoid, a, b) && a != b
    ensures e(a, m) && ReachAvoiding(e, avoid, m, b)
  {
    m := ReachAvoidingSplit(e, avoid, a, b);
    var p :| PathFromTo(e, p, m, b) && Avoids(p, avoid + {a});
    assert Avoids(p, avoid);
  }
}
