/** Ascending order over naturals: what `sort` and `dedup` leave behind on id lists. */
module Sorting {

  datatype Option<+T> = None | Some(value: T)

  ghost predicate Ascending(s: seq<nat>) {
    forall i, j | 0 <= i < j < |s| :: s[i] <= s[j]
  }

  ghost predicate StrictlyAscending(s: seq<nat>) {
    forall i, j | 0 <= i < j < |s| :: s[i] < s[j]
  }

  ghost predicate NoDuplicates<T>(s: seq<T>) {
    forall i, j | 0 <= i < j < |s| :: s[i] != s[j]
  }

  function Elements<T(==)>(s: seq<T>): set<T> {
    set i | 0 <= i < |s| :: s[i]
  }

  lemma FirstIsMember<T>(s: seq<T>)
    ensures s != [] ==> s[0] in s
  {
  }

  lemma SubsetSize<T>(a: set<T>, b: set<T>)
    requires a <= b
    ensures |a| <= |b| && (a != b ==> |a| < |b|)
  {
    assert b == a + (b - a);
    assert a != b ==> b - a != {};
  }

  /** The naturals below `n`. */
  ghost function Below(n: nat): (r: set<nat>)
    ensures forall x: nat :: x in r <==> x < n
    ensures |r| == n
  {
    if n == 0 then {} else Below(n - 1) + {n - 1}
  }

  function Insert(x: nat, s: seq<nat>): (r: seq<nat>)
    ensures |r| == |s| + 1
    ensures forall y :: y in r <==> y == x || y in s
    ensures multiset(r) == multiset(s) + multiset{x}
  {
    if s == [] || x <= s[0] then [x] + s
    else
      assert s == [s[0]] + s[1..];
      [s[0]] + Insert(x, s[1..])
  }

  function Sort(s: seq<nat>): (r: seq<nat>)
    ensures |r| == |s|
    ensures forall y :: y in r <==> y in s
    ensures multiset(r) == multiset(s)
  {
    if s == [] then []
    else
      assert s == [s[0]] + s[1..];
      Insert(s[0], Sort(s[1..]))
  }

  lemma {:induction false} InsertAscending(x: nat, s: seq<nat>)
    requires Ascending(s)
    ensures Ascending(Insert(x, s))
  {
    if s == [] || x <= s[0] {
    } else {
      InsertAscending(x, s[1..]);
      var rest := Insert(x, s[1..]);
      forall i | 0 <= i < |rest|
        ensures s[0] <= rest[i]
      {
        assert rest[i] in rest;
      }
    }
  }

  lemma {:induction false} SortAscending(s: seq<nat>)
    ensures Ascending(Sort(s))
  {
    if s == [] {
    } else {
      SortAscending(s[1..]);
      InsertAscending(s[0], Sort(s[1..]));
    }
  }

  lemma NoDuplicatesCount<T>(s: seq<T>)
    ensures NoDuplicates(s) <==> forall x | x in s :: multiset(s)[x] == 1
  {
    if s == [] {
    } else {
      var rest := s[1..];
      assert s == [s[0]] + rest;
      NoDuplicatesCount(rest);
      if NoDuplicates(s) {
        assert NoDuplicates(rest) by {
          forall i, j | 0 <= i < j < |rest| ensures rest[i] != rest[j] { assert s[i + 1] != s[j + 1]; }
        }
        assert s[0] !in rest;
        forall x | x in s ensures multiset(s)[x] == 1 {
          assert x == s[0] || x in rest;
        }
      }
      if forall x | x in s :: multiset(s)[x] == 1 {
        assert multiset(s)[s[0]] == 1 + multiset(rest)[s[0]];
        assert s[0] !in multiset(rest);
        assert s[0] !in rest;
        forall x | x in rest ensures multiset(rest)[x] == 1 {
          assert x in s && multiset(s)[x] == 1;
        }
        assert NoDuplicates(rest);
        forall i, j | 0 <= i < j < |s| ensures s[i] != s[j] {
          assert s[j] == rest[j - 1];
          if i > 0 { assert s[i] == rest[i - 1]; } else { assert s[j] in rest; }
        }
      }
    }
  }

  /** A list without repetitions has as many elements as positions. */
  lemma {:induction false} NoDuplicatesSize<T>(s: seq<T>)
    requires NoDuplicates(s)
    ensures |Elements(s)| == |s|
  {
    if s != [] {
      var front, last := s[..|s| - 1], s[|s| - 1];
      NoDuplicatesSize(front);
      assert Elements(s) == Elements(front) + {last} by {
        forall i | 0 <= i < |s| ensures s[i] in Elements(front) + {last} {
          if i < |front| { assert front[i] == s[i]; }
        }
        forall i | 0 <= i < |front| ensures front[i] in Elements(s) { assert front[i] == s[i]; }
      }
      assert last !in Elements(front);
    }
  }

  /** Sorting a list without repetitions leaves it strictly ascending. */
  lemma SortStrictlyAscending(s: seq<nat>)
    requires NoDuplicates(s)
    ensures StrictlyAscending(Sort(s))
  {
    SortAscending(s);
    NoDuplicatesCount(s);
    NoDuplicatesCount(Sort(s));
  }

  /** Two strictly ascending lists with the same elements are the same list. */
  lemma {:induction false} StrictlyAscendingUnique(s: seq<nat>, t: seq<nat>)
    requires StrictlyAscending(s) && StrictlyAscending(t)
    requires forall x :: x in s <==> x in t
    ensures s == t
  {
    assert (s != [] ==> s[0] in s) && (t != [] ==> t[0] in t);
    if s == [] || t == [] {
    } else {
      assert s[0] in t && t[0] in s;
      assert s[0] == t[0];
      forall x
        ensures x in s[1..] <==> x in t[1..]
      {
        if x in s[1..] { assert x in s && x != t[0]; }
        if x in t[1..] { assert x in t && x != s[0]; }
      }
      StrictlyAscendingUnique(s[1..], t[1..]);
      assert s == [s[0]] + s[1..] && t == [t[0]] + t[1..];
    }
  }

  /** `sort_unstable(); dedup()`. */
  function SortDedup(s: seq<nat>): (r: seq<nat>)
    ensures forall y :: y in r <==> y in s
  {
    Dedup(Sort(s))
  }

  /** Drops every element equal to the one before it, as `Vec::dedup` does. */
  function Dedup(s: seq<nat>): (r: seq<nat>)
    ensures forall y :: y in r <==> y in s
    ensures |r| <= |s|
    ensures s != [] ==> r != [] && r[0] == s[0]
  {
    if |s| <= 1 then s
    else if s[0] == s[1] then Dedup(s[1..])
    else
      assert s == [s[0]] + s[1..];
      [s[0]] + Dedup(s[1..])
  }

  lemma {:induction false} DedupAscending(s: seq<nat>)
    requires Ascending(s)
    ensures StrictlyAscending(Dedup(s))
  {
    if |s| <= 1 {
    } else {
      DedupAscending(s[1..]);
      var rest := Dedup(s[1..]);
      if s[0] != s[1] {
        forall i | 0 <= i < |rest|
          ensures s[0] < rest[i]
        {
          assert rest[i] in s[1..];
        }
      }
    }
  }

  lemma SortDedupAscending(s: seq<nat>)
    ensures StrictlyAscending(SortDedup(s))
  {
    SortAscending(s);
    DedupAscending(Sort(s));
  }

  lemma {:induction false} DedupFixed(s: seq<nat>)
    requires StrictlyAscending(s)
    ensures Dedup(s) == s
  {
    if |s| > 1 {
      DedupFixed(s[1..]);
    }
  }
}
