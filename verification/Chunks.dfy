/** Comparing strings given in pieces without joining them, and the order of call edges built on it. */
module Chunks {
  import opened Sorting
  import opened CallGraph

  datatype Ordering = Less | Equal | Greater

  function Then(first: Ordering, second: Ordering): Ordering {
    if first.Equal? then second else first
  }

  function Flip(o: Ordering): Ordering {
    match o case Less => Greater case Equal => Equal case Greater => Less
  }

  // ---------------------------------------------------------------------------------------------
  // Lexicographic order of strings

  function Lex(a: string, b: string): Ordering {
    if a == "" then if b == "" then Equal else Less
    else if b == "" then Greater
    else if a[0] < b[0] then Less
    else if b[0] < a[0] then Greater
    else Lex(a[1..], b[1..])
  }

  lemma {:induction false} LexIsEqual(a: string, b: string)
    ensures Lex(a, b).Equal? <==> a == b
    ensures Lex(b, a) == Flip(Lex(a, b))
  {
    if a != "" && b != "" {
      LexIsEqual(a[1..], b[1..]);
      assert a == [a[0]] + a[1..] && b == [b[0]] + b[1..];
    }
  }

  lemma {:induction false} LexTransitive(a: string, b: string, c: string)
    requires !Lex(a, b).Greater? && !Lex(b, c).Greater?
    ensures !Lex(a, c).Greater? && (Lex(a, c).Equal? ==> Lex(a, b).Equal? && Lex(b, c).Equal?)
  {
    if a != "" && b != "" && c != "" && a[0] == b[0] == c[0] {
      LexTransitive(a[1..], b[1..], c[1..]);
    }
  }

  /** A common prefix can be struck off. */
  lemma {:induction false} LexPrefix(p: string, a: string, b: string)
    ensures Lex(p + a, p + b) == Lex(a, b)
  {
    if p == "" {
      assert p + a == a && p + b == b;
    } else {
      LexPrefix(p[1..], a, b);
      assert (p + a)[1..] == p[1..] + a && (p + b)[1..] == p[1..] + b;
    }
  }

  /** A difference at the same position decides, whatever follows. */
  lemma {:induction false} LexDecided(a: string, b: string, x: string, y: string)
    requires |a| == |b| && a != b
    ensures Lex(a + x, b + y) == Lex(a, b)
  {
    if a != "" {
      assert a == [a[0]] + a[1..] && b == [b[0]] + b[1..];
      assert (a + x)[1..] == a[1..] + x && (b + y)[1..] == b[1..] + y;
      if a[0] == b[0] {
        LexDecided(a[1..], b[1..], x, y);
      }
    }
  }

  // ---------------------------------------------------------------------------------------------
  // Strings in chunks

  function Concat(chunks: seq<string>): string {
    if chunks == [] then "" else chunks[0] + Concat(chunks[1..])
  }

  /** How many chunks at the end are empty. */
  function Trailing(chunks: seq<string>): nat {
    if chunks == [] then 0
    else if Concat(chunks) == "" then |chunks|
    else Trailing(chunks[1..])
  }

  function CompareNat(a: nat, b: nat): Ordering {
    if a < b then Less else if a == b then Equal else Greater
  }

  /** The order of the joined strings; between equal ones the number of empty chunks at the end decides. */
  function ChunkOrder(left: seq<string>, right: seq<string>): Ordering {
    if Concat(left) != Concat(right) then Lex(Concat(left), Concat(right)) else CompareNat(Trailing(left), Trailing(right))
  }

  /** Exactly when comparing chunks is comparing what they join to. */
  lemma ChunkOrderIsLex(left: seq<string>, right: seq<string>)
    ensures ChunkOrder(left, right) == Lex(Concat(left), Concat(right)) <==>
              Concat(left) != Concat(right) || Trailing(left) == Trailing(right)
  {
    LexIsEqual(Concat(left), Concat(right));
  }

  /** Without empty chunks there is nothing for the exception to count. */
  lemma {:induction false} NoEmptyChunks(chunks: seq<string>)
    requires forall i | 0 <= i < |chunks| :: chunks[i] != ""
    ensures Trailing(chunks) == 0
  {
    if chunks != [] {
      assert chunks[0] != "";
      NoEmptyChunks(chunks[1..]);
    }
  }

  /** What is left to compare: the unread part of chunk `at`, and the chunks after it. */
  function Unread(chunks: seq<string>, at: nat, index: nat): seq<string>
    requires at <= |chunks| && (at < |chunks| ==> index <= |chunks[at]|)
  {
    if at == |chunks| then [] else [chunks[at][index..]] + chunks[at + 1..]
  }

  lemma ConcatCons(x: string, rest: seq<string>)
    ensures Concat([x] + rest) == x + Concat(rest)
    ensures Trailing([x] + rest) == if x == "" && Concat(rest) == "" then |rest| + 1 else Trailing(rest)
    ensures Concat(rest) == "" ==> Trailing(rest) == |rest|
  {
    assert ([x] + rest)[1..] == rest;
    if x + Concat(rest) == "" {
      assert x == "" && Concat(rest) == "";
    }
    if x == "" && Concat(rest) == "" {
      assert x + Concat(rest) == "";
    }
  }

  /** Chunks with an empty head, or with their head read in full, stand at the next chunk. */
  function Advanced(x: string, rest: seq<string>): seq<string> {
    if x == "" then rest else [x] + rest
  }

  /** Reading the same amount off both heads keeps the order. */
  lemma ReadKeepsOrder(shared: string, x: string, y: string, restX: seq<string>, restY: seq<string>)
    requires x == "" || y == ""
    ensures ChunkOrder([shared + x] + restX, [shared + y] + restY) == ChunkOrder(Advanced(x, restX), Advanced(y, restY))
  {
    ConcatCons(shared + x, restX);
    ConcatCons(shared + y, restY);
    ConcatCons(x, restX);
    ConcatCons(y, restY);
    var a, b := x + Concat(restX), y + Concat(restY);
    Reassociate(shared, x, Concat(restX));
    Reassociate(shared, y, Concat(restY));
    assert Concat(Advanced(x, restX)) == a && Concat(Advanced(y, restY)) == b;
    LexPrefix(shared, a, b);
    if shared + a == shared + b {
      assert (shared + a)[|shared|..] == a && (shared + b)[|shared|..] == b;
    }
  }

  /** A difference in the compared parts of the heads decides. */
  lemma DifferenceDecides(a: string, b: string, x: string, y: string, restX: seq<string>, restY: seq<string>)
    requires |a| == |b| && a != b
    ensures ChunkOrder([a + x] + restX, [b + y] + restY) == Lex(a, b)
  {
    ConcatCons(a + x, restX);
    ConcatCons(b + y, restY);
    Reassociate(a, x, Concat(restX));
    Reassociate(b, y, Concat(restY));
    LexDecided(a, b, x + Concat(restX), y + Concat(restY));
    LexIsEqual(a, b);
    LexIsEqual(a + (x + Concat(restX)), b + (y + Concat(restY)));
  }

  lemma Reassociate(a: string, b: string, c: string)
    ensures (a + b) + c == a + (b + c)
  {
  }

  /** The cursor moves to the next chunk as soon as it has read one in full. */
  function After(chunks: seq<string>, at: nat, index: nat): (r: (nat, nat))
    requires at < |chunks| && index <= |chunks[at]|
    ensures r.0 <= |chunks| && (r.0 < |chunks| ==> r.1 <= |chunks[r.0]|)
  {
    if index == |chunks[at]| then (at + 1, 0) else (at, index)
  }

  lemma UnreadStep(chunks: seq<string>, at: nat, index: nat, n: nat)
    requires at < |chunks| && index + n <= |chunks[at]|
    ensures Unread(chunks, at, index) == [chunks[at][index..][..n] + chunks[at][index..][n..]] + chunks[at + 1..]
    ensures Unread(chunks, After(chunks, at, index + n).0, After(chunks, at, index + n).1)
         == Advanced(chunks[at][index..][n..], chunks[at + 1..])
  {
    assert chunks[at][index..][..n] + chunks[at][index..][n..] == chunks[at][index..];
    assert chunks[at][index..][n..] == chunks[at][index + n..];
    if index + n == |chunks[at]| && at + 1 < |chunks| {
      assert chunks[at + 1][0..] == chunks[at + 1];
      assert [chunks[at + 1]] + chunks[at + 2..] == chunks[at + 1..];
    }
  }

  /** The order of what the two cursors have still to read. */
  function OrderAt(left: seq<string>, l: nat, i: nat, right: seq<string>, r: nat, j: nat): Ordering
    requires l <= |left| && (l < |left| ==> i <= |left[l]|) && r <= |right| && (r < |right| ==> j <= |right[r]|)
  {
    ChunkOrder(Unread(left, l, i), Unread(right, r, j))
  }

  /** One round that finds no difference: both cursors move on by the same amount. */
  lemma RoundKeepsOrder(left: seq<string>, l: nat, i: nat, right: seq<string>, r: nat, j: nat, n: nat)
    requires l < |left| && r < |right| && i + n <= |left[l]| && j + n <= |right[r]|
    requires i + n == |left[l]| || j + n == |right[r]|
    requires left[l][i..][..n] == right[r][j..][..n]
    ensures OrderAt(left, l, i, right, r, j)
         == OrderAt(left, After(left, l, i + n).0, After(left, l, i + n).1, right, After(right, r, j + n).0, After(right, r, j + n).1)
  {
    var x, y, restX, restY := left[l][i..], right[r][j..], left[l + 1..], right[r + 1..];
    UnreadStep(left, l, i, n);
    UnreadStep(right, r, j, n);
    calc {
      OrderAt(left, l, i, right, r, j);
      ChunkOrder([x[..n] + x[n..]] + restX, [x[..n] + y[n..]] + restY);
      { ReadKeepsOrder(x[..n], x[n..], y[n..], restX, restY); }
      ChunkOrder(Advanced(x[n..], restX), Advanced(y[n..], restY));
      OrderAt(left, After(left, l, i + n).0, After(left, l, i + n).1, right, After(right, r, j + n).0, After(right, r, j + n).1);
    }
  }

  /** One round that finds a difference. */
  lemma RoundDecides(left: seq<string>, l: nat, i: nat, right: seq<string>, r: nat, j: nat, n: nat)
    requires l < |left| && r < |right| && i + n <= |left[l]| && j + n <= |right[r]|
    requires left[l][i..][..n] != right[r][j..][..n]
    ensures OrderAt(left, l, i, right, r, j) == Lex(left[l][i..][..n], right[r][j..][..n])
  {
    UnreadStep(left, l, i, n);
    UnreadStep(right, r, j, n);
    DifferenceDecides(left[l][i..][..n], right[r][j..][..n], left[l][i..][n..], right[r][j..][n..], left[l + 1..], right[r + 1..]);
  }

  /** The loop, on one cursor per side; it ends because some cursor always moves. */
  method StrCmpChunks(left: seq<string>, right: seq<string>) returns (order: Ordering)
    ensures order == ChunkOrder(left, right)
  {
    var l: nat, r: nat, i: nat, j: nat := 0, 0, 0, 0;
    assert Unread(left, 0, 0) == left && Unread(right, 0, 0) == right;
    ghost var order0 := OrderAt(left, 0, 0, right, 0, 0);
    while l < |left| && r < |right|
      invariant l <= |left| && r <= |right|
      invariant (l < |left| ==> i <= |left[l]|) && (r < |right| ==> j <= |right[r]|)
      invariant OrderAt(left, l, i, right, r, j) == order0
      decreases |left| - l, |right| - r, (if l < |left| then |left[l]| - i else 0)
    {
      var x, y := left[l][i..], right[r][j..];
      var n: nat := if |x| < |y| then |x| else |y|;
      var compared := Lex(x[..n], y[..n]);
      LexIsEqual(x[..n], y[..n]);
      if !compared.Equal? {
        RoundDecides(left, l, i, right, r, j, n);
        return compared;
      }
      RoundKeepsOrder(left, l, i, right, r, j, n);
      var nextLeft, nextRight := After(left, l, i + n), After(right, r, j + n);
      l, i := nextLeft.0, nextLeft.1;
      r, j := nextRight.0, nextRight.1;
    }
    EndDecides(Unread(left, l, i), Unread(right, r, j));
    order := if l == |left| then if r == |right| then Equal else Less else Greater;
  }

  /** Once one side is out of chunks, having any left is being greater. */
  lemma EndDecides(left: seq<string>, right: seq<string>)
    requires left == [] || right == []
    ensures ChunkOrder(left, right) == if left == right then Equal else if left == [] then Less else Greater
  {
    LexIsEqual(Concat(left), Concat(right));
  }

  // ---------------------------------------------------------------------------------------------
  // The order of call edges

  const UNKNOWN := "unknown:"

  function CallerLabel(c: Caller, keys: seq<string>): string
    requires c.FuncCaller? ==> c.func < |keys|
  {
    if c.FuncCaller? then keys[c.func] else UNKNOWN + c.reason
  }

  function CalleeLabel(c: Callee, keys: seq<string>): string
    requires c.FuncCallee? ==> c.func < |keys|
  {
    if c.FuncCallee? then keys[c.func] else UNKNOWN + c.reason
  }

  function CallerLabelCmp(left: Caller, right: Caller, keys: seq<string>): Ordering
    requires (left.FuncCaller? ==> left.func < |keys|) && (right.FuncCaller? ==> right.func < |keys|)
  {
    match (left, right)
    case (FuncCaller(l), FuncCaller(r)) => Lex(keys[l], keys[r])
    case (UnknownCaller(l), UnknownCaller(r)) => Lex(l, r)
    case (FuncCaller(l), UnknownCaller(r)) => ChunkOrder([keys[l]], [UNKNOWN, r])
    case (UnknownCaller(l), FuncCaller(r)) => ChunkOrder([UNKNOWN, l], [keys[r]])
  }

  function CalleeLabelCmp(left: Callee, right: Callee, keys: seq<string>): Ordering
    requires (left.FuncCallee? ==> left.func < |keys|) && (right.FuncCallee? ==> right.func < |keys|)
  {
    match (left, right)
    case (FuncCallee(l), FuncCallee(r)) => Lex(keys[l], keys[r])
    case (UnknownCallee(l), UnknownCallee(r)) => Lex(l, r)
    case (FuncCallee(l), UnknownCallee(r)) => ChunkOrder([keys[l]], [UNKNOWN, r])
    case (UnknownCallee(l), FuncCallee(r)) => ChunkOrder([UNKNOWN, l], [keys[r]])
  }

  /** An unknown end without a reason ranks after a function whose key is the bare prefix. */
  function Rank(unknown: bool, name: string): string {
    if unknown && name == UNKNOWN then "1" else "0"
  }

  /** Whether the two ends have the same label and are yet told apart. */
  predicate Clash(left: Caller, right: Caller, keys: seq<string>)
    requires (left.FuncCaller? ==> left.func < |keys|) && (right.FuncCaller? ==> right.func < |keys|)
  {
    left.FuncCaller? != right.FuncCaller? && CallerLabel(left, keys) == UNKNOWN == CallerLabel(right, keys)
  }

  predicate CalleeClash(left: Callee, right: Callee, keys: seq<string>)
    requires (left.FuncCallee? ==> left.func < |keys|) && (right.FuncCallee? ==> right.func < |keys|)
  {
    left.FuncCallee? != right.FuncCallee? && CalleeLabel(left, keys) == UNKNOWN == CalleeLabel(right, keys)
  }

  lemma MixedOrder(key: string, reason: string)
    ensures ChunkOrder([key], [UNKNOWN, reason]) == Then(Lex(key, UNKNOWN + reason), Lex("0", Rank(true, UNKNOWN + reason)))
    ensures ChunkOrder([UNKNOWN, reason], [key]) == Then(Lex(UNKNOWN + reason, key), Lex(Rank(true, UNKNOWN + reason), "0"))
  {
    ConcatCons(key, []);
    ConcatCons(reason, []);
    ConcatCons(UNKNOWN, [reason]);
    assert [key] + [] == [key] && [reason] + [] == [reason] && [UNKNOWN] + [reason] == [UNKNOWN, reason];
    assert key + Concat([]) == key && reason + Concat([]) == reason;
    LexIsEqual(key, UNKNOWN + reason);
    assert UNKNOWN + reason == UNKNOWN <==> reason == "" by {
      assert |UNKNOWN + reason| == |UNKNOWN| + |reason|;
    }
  }

  /** The comparison of ends is the order of their labels, then of their ranks. */
  lemma CallerOrder(left: Caller, right: Caller, keys: seq<string>)
    requires (left.FuncCaller? ==> left.func < |keys|) && (right.FuncCaller? ==> right.func < |keys|)
    ensures var l, r := CallerLabel(left, keys), CallerLabel(right, keys);
            CallerLabelCmp(left, right, keys) == Then(Lex(l, r), Lex(Rank(left.UnknownCaller?, l), Rank(right.UnknownCaller?, r)))
    ensures CallerLabelCmp(left, right, keys) == Lex(CallerLabel(left, keys), CallerLabel(right, keys)) <==> !Clash(left, right, keys)
  {
    var l, r := CallerLabel(left, keys), CallerLabel(right, keys);
    LexIsEqual(l, r);
    match (left, right)
    case (FuncCaller(_), FuncCaller(_)) =>
    case (UnknownCaller(x), UnknownCaller(y)) => LexPrefix(UNKNOWN, x, y);
    case (FuncCaller(_), UnknownCaller(y)) => MixedOrder(l, y);
    case (UnknownCaller(x), FuncCaller(_)) => MixedOrder(r, x);
  }

  /** The same for the other end. */
  lemma CalleeOrder(left: Callee, right: Callee, keys: seq<string>)
    requires (left.FuncCallee? ==> left.func < |keys|) && (right.FuncCallee? ==> right.func < |keys|)
    ensures var l, r := CalleeLabel(left, keys), CalleeLabel(right, keys);
            CalleeLabelCmp(left, right, keys) == Then(Lex(l, r), Lex(Rank(left.UnknownCallee?, l), Rank(right.UnknownCallee?, r)))
    ensures CalleeLabelCmp(left, right, keys) == Lex(CalleeLabel(left, keys), CalleeLabel(right, keys)) <==> !CalleeClash(left, right, keys)
  {
    var l, r := CalleeLabel(left, keys), CalleeLabel(right, keys);
    LexIsEqual(l, r);
    match (left, right)
    case (FuncCallee(_), FuncCallee(_)) =>
    case (UnknownCallee(x), UnknownCallee(y)) => LexPrefix(UNKNOWN, x, y);
    case (FuncCallee(_), UnknownCallee(y)) => MixedOrder(l, y);
    case (UnknownCallee(x), FuncCallee(_)) => MixedOrder(r, x);
  }

  function SiteLabel(site: Option<nat>, sites: seq<string>): string
    requires site.Some? ==> site.value < |sites|
  {
    if site.Some? then sites[site.value] else ""
  }

  function KindLabel(kind: CallKind): string {
    match kind case DirectCall => "Direct" case IndirectCall => "Indirect"
  }

  function TierLabel(tier: Tier): string {
    match tier
    case Direct => "Direct"
    case Fsa => "Fsa"
    case Steens => "Steens"
    case Andersen => "Andersen"
    case B1Initval => "B1Initval"
    case B2Simple => "B2Simple"
    case Simple => "Simple"
  }

  predicate InRange(e: CallEdge, keys: seq<string>, sites: seq<string>) {
    && (e.caller.FuncCaller? ==> e.caller.func < |keys|) && (e.callee.FuncCallee? ==> e.callee.func < |keys|)
    && (e.callsite.Some? ==> e.callsite.value < |sites|)
  }

  function CallEdgeCmp(left: CallEdge, right: CallEdge, keys: seq<string>, sites: seq<string>): Ordering
    requires InRange(left, keys, sites) && InRange(right, keys, sites)
  {
    Then(CallerLabelCmp(left.caller, right.caller, keys),
         Then(Lex(SiteLabel(left.callsite, sites), SiteLabel(right.callsite, sites)),
              Then(CalleeLabelCmp(left.callee, right.callee, keys),
                   Then(Lex(KindLabel(left.kind), KindLabel(right.kind)), Lex(TierLabel(left.tier), TierLabel(right.tier))))))
  }

  /** All that the comparison sees of an edge. */
  function EdgeKey(e: CallEdge, keys: seq<string>, sites: seq<string>): (key: seq<string>)
    requires InRange(e, keys, sites)
    ensures |key| == 7
  {
    var caller, callee := CallerLabel(e.caller, keys), CalleeLabel(e.callee, keys);
    [caller, Rank(e.caller.UnknownCaller?, caller), SiteLabel(e.callsite, sites),
     callee, Rank(e.callee.UnknownCallee?, callee), KindLabel(e.kind), TierLabel(e.tier)]
  }

  function TupleCmp(a: seq<string>, b: seq<string>): Ordering
    requires |a| == |b|
  {
    if a == [] then Equal else Then(Lex(a[0], b[0]), TupleCmp(a[1..], b[1..]))
  }

  lemma {:induction false} TupleIsEqual(a: seq<string>, b: seq<string>)
    requires |a| == |b|
    ensures TupleCmp(a, b).Equal? <==> a == b
    ensures TupleCmp(b, a) == Flip(TupleCmp(a, b))
  {
    if a != [] {
      LexIsEqual(a[0], b[0]);
      TupleIsEqual(a[1..], b[1..]);
      assert a == [a[0]] + a[1..] && b == [b[0]] + b[1..];
    }
  }

  lemma {:induction false} TupleTransitive(a: seq<string>, b: seq<string>, c: seq<string>)
    requires |a| == |b| == |c| && !TupleCmp(a, b).Greater? && !TupleCmp(b, c).Greater?
    ensures !TupleCmp(a, c).Greater? && (TupleCmp(a, c).Equal? ==> TupleCmp(a, b).Equal? && TupleCmp(b, c).Equal?)
  {
    if a != [] {
      LexTransitive(a[0], b[0], c[0]);
      LexIsEqual(a[0], b[0]);
      LexIsEqual(b[0], c[0]);
      LexIsEqual(a[0], c[0]);
      if a[0] == b[0] == c[0] {
        TupleTransitive(a[1..], b[1..], c[1..]);
      }
    }
  }

  /** The comparison of edges is the order of their keys: total, transitive, and equal only on equal keys. */
  lemma CallEdgeOrder(left: CallEdge, right: CallEdge, keys: seq<string>, sites: seq<string>)
    requires InRange(left, keys, sites) && InRange(right, keys, sites)
    ensures CallEdgeCmp(left, right, keys, sites) == TupleCmp(EdgeKey(left, keys, sites), EdgeKey(right, keys, sites))
  {
    hide CallerLabelCmp, CalleeLabelCmp, Clash, CalleeClash, Lex, CallerLabel, CalleeLabel;
    CallerOrder(left.caller, right.caller, keys);
    CalleeOrder(left.callee, right.callee, keys);
    TupleUnfold(EdgeKey(left, keys, sites), EdgeKey(right, keys, sites));
  }

  lemma TupleUnfold(a: seq<string>, b: seq<string>)
    requires |a| == |b| == 7
    ensures TupleCmp(a, b) ==
              Then(Lex(a[0], b[0]), Then(Lex(a[1], b[1]), Then(Lex(a[2], b[2]), Then(Lex(a[3], b[3]), Then(Lex(a[4], b[4]),
              Then(Lex(a[5], b[5]), Lex(a[6], b[6])))))))
  {
    assert a[0..] == a && b[0..] == b;
    TupleAt(a, b, 0);
    TupleAt(a, b, 1);
    TupleAt(a, b, 2);
    TupleAt(a, b, 3);
    TupleAt(a, b, 4);
    TupleAt(a, b, 5);
    TupleAt(a, b, 6);
  }

  lemma TupleAt(a: seq<string>, b: seq<string>, k: nat)
    requires |a| == |b| && k < |a|
    ensures TupleCmp(a[k..], b[k..]) == Then(Lex(a[k], b[k]), TupleCmp(a[k + 1..], b[k + 1..]))
  {
    assert a[k..][1..] == a[k + 1..] && b[k..][1..] == b[k + 1..];
  }

  // ---------------------------------------------------------------------------------------------
  // Sorting and deduplicating the edges

  ghost predicate AllInRange(edges: seq<CallEdge>, keys: seq<string>, sites: seq<string>) {
    forall i | 0 <= i < |edges| :: InRange(edges[i], keys, sites)
  }

  /** In order, equal edges allowed. */
  ghost predicate Sorted(edges: seq<CallEdge>, keys: seq<string>, sites: seq<string>)
    requires AllInRange(edges, keys, sites)
  {
    forall i, j | 0 <= i < j < |edges| :: !CallEdgeCmp(edges[i], edges[j], keys, sites).Greater?
  }

  lemma EdgeTransitive(a: CallEdge, b: CallEdge, c: CallEdge, keys: seq<string>, sites: seq<string>)
    requires InRange(a, keys, sites) && InRange(b, keys, sites) && InRange(c, keys, sites)
    requires !CallEdgeCmp(a, b, keys, sites).Greater? && !CallEdgeCmp(b, c, keys, sites).Greater?
    ensures !CallEdgeCmp(a, c, keys, sites).Greater?
    ensures CallEdgeCmp(a, c, keys, sites).Equal? ==>
              CallEdgeCmp(a, b, keys, sites).Equal? && CallEdgeCmp(b, c, keys, sites).Equal?
  {
    CallEdgeOrder(a, b, keys, sites);
    CallEdgeOrder(b, c, keys, sites);
    CallEdgeOrder(a, c, keys, sites);
    TupleTransitive(EdgeKey(a, keys, sites), EdgeKey(b, keys, sites), EdgeKey(c, keys, sites));
  }

  lemma EdgeEqual(a: CallEdge, b: CallEdge, keys: seq<string>, sites: seq<string>)
    requires InRange(a, keys, sites) && InRange(b, keys, sites)
    ensures CallEdgeCmp(a, b, keys, sites).Equal? <==> EdgeKey(a, keys, sites) == EdgeKey(b, keys, sites)
    ensures CallEdgeCmp(b, a, keys, sites) == Flip(CallEdgeCmp(a, b, keys, sites))
  {
    CallEdgeOrder(a, b, keys, sites);
    CallEdgeOrder(b, a, keys, sites);
    TupleIsEqual(EdgeKey(a, keys, sites), EdgeKey(b, keys, sites));
  }

  /** A stable insertion: behind all edges that do not compare greater. */
  function InsertEdge(e: CallEdge, edges: seq<CallEdge>, keys: seq<string>, sites: seq<string>): (r: seq<CallEdge>)
    requires InRange(e, keys, sites) && forall i | 0 <= i < |edges| :: InRange(edges[i], keys, sites)
    ensures multiset(r) == multiset(edges) + multiset{e}
    ensures forall x :: x in r <==> x == e || x in edges
    ensures forall i | 0 <= i < |r| :: InRange(r[i], keys, sites)
  {
    if edges == [] || CallEdgeCmp(edges[|edges| - 1], e, keys, sites) != Greater then
      assert forall i | 0 <= i < |edges| :: (edges + [e])[i] == edges[i];
      edges + [e]
    else
      var last := edges[|edges| - 1];
      assert edges == edges[..|edges| - 1] + [last];
      InsertEdge(e, edges[..|edges| - 1], keys, sites) + [last]
  }

  /** Nothing in the list compares greater than `e`. */
  ghost predicate AtMostEdge(edges: seq<CallEdge>, e: CallEdge, keys: seq<string>, sites: seq<string>)
    requires AllInRange(edges, keys, sites) && InRange(e, keys, sites)
  {
    forall i | 0 <= i < |edges| :: !CallEdgeCmp(edges[i], e, keys, sites).Greater?
  }

  lemma SortedNext(edges: seq<CallEdge>, e: CallEdge, keys: seq<string>, sites: seq<string>)
    requires AllInRange(edges, keys, sites) && InRange(e, keys, sites)
    requires Sorted(edges, keys, sites) && AtMostEdge(edges, e, keys, sites)
    ensures AllInRange(edges + [e], keys, sites) && Sorted(edges + [e], keys, sites)
  {
  }

  /** What is not greater than the last edge is not greater than anything behind it. */
  lemma AtMostLast(edges: seq<CallEdge>, e: CallEdge, keys: seq<string>, sites: seq<string>)
    requires AllInRange(edges, keys, sites) && InRange(e, keys, sites) && Sorted(edges, keys, sites)
    requires edges == [] || !CallEdgeCmp(edges[|edges| - 1], e, keys, sites).Greater?
    ensures AtMostEdge(edges, e, keys, sites)
  {
    forall i | 0 <= i < |edges|
      ensures !CallEdgeCmp(edges[i], e, keys, sites).Greater?
    {
      if i < |edges| - 1 {
        EdgeTransitive(edges[i], edges[|edges| - 1], e, keys, sites);
      }
    }
  }

  lemma {:induction false} InsertSorted(e: CallEdge, edges: seq<CallEdge>, keys: seq<string>, sites: seq<string>)
    requires InRange(e, keys, sites) && AllInRange(edges, keys, sites) && Sorted(edges, keys, sites)
    ensures Sorted(InsertEdge(e, edges, keys, sites), keys, sites)
  {
    if edges == [] || !CallEdgeCmp(edges[|edges| - 1], e, keys, sites).Greater? {
      AtMostLast(edges, e, keys, sites);
      SortedNext(edges, e, keys, sites);
    } else {
      var rest, last := edges[..|edges| - 1], edges[|edges| - 1];
      EdgeEqual(last, e, keys, sites);
      InsertSorted(e, rest, keys, sites);
      var r := InsertEdge(e, rest, keys, sites);
      forall i | 0 <= i < |r|
        ensures !CallEdgeCmp(r[i], last, keys, sites).Greater?
      {
        assert r[i] in r && (r[i] == e || r[i] in rest);
      }
      SortedNext(r, last, keys, sites);
    }
  }

  method SortEdges(edges: seq<CallEdge>, keys: seq<string>, sites: seq<string>) returns (r: seq<CallEdge>)
    requires AllInRange(edges, keys, sites)
    ensures multiset(r) == multiset(edges) && AllInRange(r, keys, sites) && Sorted(r, keys, sites)
  {
    r := [];
    for i := 0 to |edges|
      invariant multiset(r) == multiset(edges[..i]) && AllInRange(r, keys, sites) && Sorted(r, keys, sites)
    {
      assert edges[..i + 1] == edges[..i] + [edges[i]];
      InsertSorted(edges[i], r, keys, sites);
      r := InsertEdge(edges[i], r, keys, sites);
    }
    assert edges[..|edges|] == edges;
  }

  /** Keeps the first of every run of equal edges. */
  method DedupEdges(edges: seq<CallEdge>, keys: seq<string>, sites: seq<string>) returns (r: seq<CallEdge>)
    requires AllInRange(edges, keys, sites) && Sorted(edges, keys, sites)
    ensures AllInRange(r, keys, sites) && StrictlySorted(r, keys, sites)
    ensures forall e :: e in r ==> e in edges
    ensures forall i | 0 <= i < |edges| :: Represented(edges[i], r, keys, sites)
  {
    r := [];
    for i := 0 to |edges|
      invariant AllInRange(r, keys, sites) && StrictlySorted(r, keys, sites)
      invariant forall e :: e in r ==> e in edges[..i]
      invariant forall j | 0 <= j < i :: Represented(edges[j], r, keys, sites)
    {
      var e := edges[i];
      assert edges[..i + 1] == edges[..i] + [e];
      EdgeEqual(e, e, keys, sites);
      if r == [] || CallEdgeCmp(r[|r| - 1], e, keys, sites) != Equal {
        forall k | 0 <= k < |r|
          ensures CallEdgeCmp(r[k], e, keys, sites).Less?
        {
          LaterIsGreater(edges, i, r, k, keys, sites);
        }
        assert (r + [e])[|r|] == e;
        RepresentedGrows(edges, i, r, e, keys, sites);
        r := r + [e];
      } else {
        EdgeEqual(r[|r| - 1], e, keys, sites);
      }
    }
  }

  ghost predicate StrictlySorted(edges: seq<CallEdge>, keys: seq<string>, sites: seq<string>)
    requires AllInRange(edges, keys, sites)
  {
    forall i, j | 0 <= i < j < |edges| :: CallEdgeCmp(edges[i], edges[j], keys, sites).Less?
  }

  /** The list holds an edge with the same key. */
  ghost predicate Represented(e: CallEdge, edges: seq<CallEdge>, keys: seq<string>, sites: seq<string>)
    requires InRange(e, keys, sites) && AllInRange(edges, keys, sites)
  {
    exists i :: 0 <= i < |edges| && EdgeKey(edges[i], keys, sites) == EdgeKey(e, keys, sites)
  }

  lemma RepresentedGrows(edges: seq<CallEdge>, n: nat, r: seq<CallEdge>, e: CallEdge, keys: seq<string>, sites: seq<string>)
    requires AllInRange(edges, keys, sites) && AllInRange(r, keys, sites) && AllInRange(r + [e], keys, sites) && n <= |edges|
    requires forall j | 0 <= j < n :: Represented(edges[j], r, keys, sites)
    ensures forall j | 0 <= j < n :: Represented(edges[j], r + [e], keys, sites)
  {
    forall j | 0 <= j < n
      ensures Represented(edges[j], r + [e], keys, sites)
    {
      var i :| 0 <= i < |r| && EdgeKey(r[i], keys, sites) == EdgeKey(edges[j], keys, sites);
      assert (r + [e])[i] == r[i];
    }
  }

  /** An edge that starts a new run is greater than everything kept so far. */
  lemma LaterIsGreater(edges: seq<CallEdge>, n: nat, r: seq<CallEdge>, k: nat, keys: seq<string>, sites: seq<string>)
    requires AllInRange(edges, keys, sites) && Sorted(edges, keys, sites) && n < |edges|
    requires AllInRange(r, keys, sites) && StrictlySorted(r, keys, sites) && k < |r|
    requires forall e :: e in r ==> e in edges[..n]
    requires !CallEdgeCmp(r[|r| - 1], edges[n], keys, sites).Equal?
    ensures CallEdgeCmp(r[k], edges[n], keys, sites).Less?
  {
    var last := r[|r| - 1];
    assert last in edges[..n];
    var j :| 0 <= j < n && edges[j] == last;
    assert !CallEdgeCmp(last, edges[n], keys, sites).Greater?;
    if k < |r| - 1 {
      EdgeTransitive(r[k], last, edges[n], keys, sites);
    }
  }

  /**
   What remains is strictly ascending and stands for every edge. Two remaining edges show the same labels
   only if one of them has an unknown end without a reason and the other a function named like the prefix.
   */
  method SortAndDedupEdges(edges: seq<CallEdge>, keys: seq<string>, sites: seq<string>) returns (r: seq<CallEdge>)
    requires AllInRange(edges, keys, sites)
    ensures AllInRange(r, keys, sites) && StrictlySorted(r, keys, sites)
    ensures forall e :: e in r ==> e in edges
    ensures forall i | 0 <= i < |edges| :: Represented(edges[i], r, keys, sites)
  {
    var sorted := SortEdges(edges, keys, sites);
    r := DedupEdges(sorted, keys, sites);
    forall e | e in r
      ensures e in edges
    {
      assert e in multiset(sorted);
    }
    forall i | 0 <= i < |edges|
      ensures Represented(edges[i], r, keys, sites)
    {
      assert edges[i] in multiset(edges);
      var j :| 0 <= j < |sorted| && sorted[j] == edges[i];
    }
  }

  /** The five labels of an edge, as they are printed. */
  function Labels(e: CallEdge, keys: seq<string>, sites: seq<string>): seq<string>
    requires InRange(e, keys, sites)
  {
    [CallerLabel(e.caller, keys), SiteLabel(e.callsite, sites), CalleeLabel(e.callee, keys), KindLabel(e.kind), TierLabel(e.tier)]
  }

  predicate NoBareUnknown(e: CallEdge) {
    (e.caller.UnknownCaller? ==> e.caller.reason != "") && (e.callee.UnknownCallee? ==> e.callee.reason != "")
  }

  /** Some end of the two edges is told apart under equal labels. */
  predicate EndsClash(a: CallEdge, b: CallEdge, keys: seq<string>, sites: seq<string>)
    requires InRange(a, keys, sites) && InRange(b, keys, sites)
  {
    Clash(a.caller, b.caller, keys) || CalleeClash(a.callee, b.callee, keys)
  }

  /** Edges are the same to the comparison exactly when they show the same labels and no end clashes. */
  lemma SameKeyIsSameLabels(a: CallEdge, b: CallEdge, keys: seq<string>, sites: seq<string>)
    requires InRange(a, keys, sites) && InRange(b, keys, sites)
    ensures EdgeKey(a, keys, sites) == EdgeKey(b, keys, sites) <==>
              Labels(a, keys, sites) == Labels(b, keys, sites) && !EndsClash(a, b, keys, sites)
  {
    var x, y := EdgeKey(a, keys, sites), EdgeKey(b, keys, sites);
    var l, m := Labels(a, keys, sites), Labels(b, keys, sites);
    assert x == y <==> x[0] == y[0] && x[1] == y[1] && x[2] == y[2] && x[3] == y[3] && x[4] == y[4] && x[5] == y[5] && x[6] == y[6];
    assert l == m <==> l[0] == m[0] && l[1] == m[1] && l[2] == m[2] && l[3] == m[3] && l[4] == m[4];
    assert "0" != "1" by {
      assert "0"[0] != "1"[0];
    }
  }

  lemma ReasonsPreventClashes(a: CallEdge, b: CallEdge, keys: seq<string>, sites: seq<string>)
    requires InRange(a, keys, sites) && InRange(b, keys, sites) && NoBareUnknown(a) && NoBareUnknown(b)
    ensures !EndsClash(a, b, keys, sites)
  {
    forall e | e in {a, b}
      ensures e.caller.UnknownCaller? ==> CallerLabel(e.caller, keys) != UNKNOWN
      ensures e.callee.UnknownCallee? ==> CalleeLabel(e.callee, keys) != UNKNOWN
    {
      assert e.caller.UnknownCaller? ==> |UNKNOWN + e.caller.reason| > |UNKNOWN|;
      assert e.callee.UnknownCallee? ==> |UNKNOWN + e.callee.reason| > |UNKNOWN|;
    }
  }

  /** Two edges that remain show the same labels only where an end clashes, so not if unknown ends carry reasons. */
  lemma NoLabelTwice(r: seq<CallEdge>, keys: seq<string>, sites: seq<string>, i: nat, j: nat)
    requires AllInRange(r, keys, sites) && StrictlySorted(r, keys, sites) && i < j < |r|
    ensures Labels(r[i], keys, sites) == Labels(r[j], keys, sites) ==> EndsClash(r[i], r[j], keys, sites)
    ensures NoBareUnknown(r[i]) && NoBareUnknown(r[j]) ==> Labels(r[i], keys, sites) != Labels(r[j], keys, sites)
  {
    EdgeEqual(r[i], r[j], keys, sites);
    SameKeyIsSameLabels(r[i], r[j], keys, sites);
    if NoBareUnknown(r[i]) && NoBareUnknown(r[j]) {
      ReasonsPreventClashes(r[i], r[j], keys, sites);
    }
  }

  /** Two edges of the list show the same labels and are told apart. */
  ghost predicate LabelsRepeat(edges: seq<CallEdge>, keys: seq<string>, sites: seq<string>)
    requires AllInRange(edges, keys, sites)
  {
    exists i, j :: 0 <= i < |edges| && 0 <= j < |edges| && Labels(edges[i], keys, sites) == Labels(edges[j], keys, sites)
                   && EndsClash(edges[i], edges[j], keys, sites)
  }

  /** Labels are shown twice after sorting and deduplicating exactly when two edges of the input clash. */
  lemma RepeatedLabels(edges: seq<CallEdge>, r: seq<CallEdge>, keys: seq<string>, sites: seq<string>)
    requires AllInRange(edges, keys, sites) && AllInRange(r, keys, sites) && StrictlySorted(r, keys, sites)
    requires forall e :: e in r ==> e in edges
    requires forall i | 0 <= i < |edges| :: Represented(edges[i], r, keys, sites)
    ensures (exists i, j :: 0 <= i < j < |r| && Labels(r[i], keys, sites) == Labels(r[j], keys, sites)) <==> LabelsRepeat(edges, keys, sites)
  {
    hide EndsClash, Labels, EdgeKey, CallEdgeCmp;
    if i, j :| 0 <= i < j < |r| && Labels(r[i], keys, sites) == Labels(r[j], keys, sites) {
      NoLabelTwice(r, keys, sites, i, j);
      assert r[i] in edges && r[j] in edges;
      var k, l :| 0 <= k < |edges| && edges[k] == r[i] && 0 <= l < |edges| && edges[l] == r[j];
      assert EndsClash(edges[k], edges[l], keys, sites);
    }
    if LabelsRepeat(edges, keys, sites) {
      var k, l :| 0 <= k < |edges| && 0 <= l < |edges| && Labels(edges[k], keys, sites) == Labels(edges[l], keys, sites)
                  && EndsClash(edges[k], edges[l], keys, sites);
      SameKeyIsSameLabels(edges[k], edges[l], keys, sites);
      assert Represented(edges[k], r, keys, sites) && Represented(edges[l], r, keys, sites);
      var i :| 0 <= i < |r| && EdgeKey(r[i], keys, sites) == EdgeKey(edges[k], keys, sites);
      var j :| 0 <= j < |r| && EdgeKey(r[j], keys, sites) == EdgeKey(edges[l], keys, sites);
      SameKeyIsSameLabels(r[i], edges[k], keys, sites);
      SameKeyIsSameLabels(r[j], edges[l], keys, sites);
      var first, second := if i < j then i else j, if i < j then j else i;
      assert first < second && Labels(r[first], keys, sites) == Labels(r[second], keys, sites);
    }
  }

  /** An unknown caller without a reason and a function called `unknown:` keep their equal labels apart. */
  lemma BareUnknownIsToldApart(keys: seq<string>)
    requires |keys| > 0 && keys[0] == UNKNOWN
    ensures CallerLabel(FuncCaller(0), keys) == CallerLabel(UnknownCaller(""), keys)
    ensures CallerLabelCmp(FuncCaller(0), UnknownCaller(""), keys) == Less
  {
    assert UNKNOWN + "" == UNKNOWN;
    MixedOrder(keys[0], "");
    LexIsEqual(UNKNOWN, UNKNOWN);
  }
}
