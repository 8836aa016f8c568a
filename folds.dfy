/**
 * Counting and searching over sequences, by a predicate: the shape of the
 * counters and the `some`/`find` tests the handlers keep while they loop.
 */
module Folds {

  /** How many elements satisfy p. */
  function CountWhere<T>(s: seq<T>, p: T -> bool): (n: nat)
    ensures n <= |s|
  {
    if s == [] then 0
    else CountWhere(s[..|s| - 1], p) + (if p(s[|s| - 1]) then 1 else 0)
  }

  /** Some element satisfies p. */
  ghost predicate Occurs<T>(s: seq<T>, p: T -> bool)
  {
    exists i :: 0 <= i < |s| && p(s[i])
  }

  /** No element appears twice. */
  predicate Distinct<T(==)>(s: seq<T>)
  {
    forall i, j :: 0 <= i < j < |s| ==> s[i] != s[j]
  }

  /** An element occurs in a non-empty sequence when it occurs before the last
      position or at it. */
  lemma {:induction false} OccursSnoc<T>(s: seq<T>, p: T -> bool)
    requires s != []
    ensures Occurs(s, p) <==> Occurs(s[..|s| - 1], p) || p(s[|s| - 1])
  {
    var init := s[..|s| - 1];
    if Occurs(s, p) && !p(s[|s| - 1]) {
      var i :| 0 <= i < |s| && p(s[i]);
      assert init[i] == s[i];
    }
    if Occurs(init, p) {
      var i :| 0 <= i < |init| && p(init[i]);
      assert s[i] == init[i];
    }
  }

  /** The count is positive exactly when some element satisfies p. */
  lemma {:induction false} CountPositive<T>(s: seq<T>, p: T -> bool)
    ensures CountWhere(s, p) > 0 <==> Occurs(s, p)
  {
    if s != [] {
      CountPositive(s[..|s| - 1], p);
      OccursSnoc(s, p);
    }
  }

  /** Appending a new element keeps a sequence free of repetitions. */
  lemma {:induction false} DistinctSnoc<T>(s: seq<T>, x: T)
    requires Distinct(s) && x !in s
    ensures Distinct(s + [x])
  {
  }

  /** A sequence without repetitions has as many elements as positions. */
  lemma {:induction false} DistinctCard<T>(s: seq<T>)
    requires Distinct(s)
    ensures |set x | x in s| == |s|
  {
    if s != [] {
      var init := s[..|s| - 1];
      assert Distinct(init);
      DistinctCard(init);
      assert (set x | x in s) == (set x | x in init) + {s[|s| - 1]};
    }
  }

  /** The union of f over the elements. */
  function UnionOf<T, U>(s: seq<T>, f: T -> set<U>): set<U>
  {
    if s == [] then {} else UnionOf(s[..|s| - 1], f) + f(s[|s| - 1])
  }

  /** Each element contributes to the union. */
  lemma {:induction false} UnionOfMember<T, U>(s: seq<T>, f: T -> set<U>, i: nat)
    requires i < |s|
    ensures f(s[i]) <= UnionOf(s, f)
  {
    var n := |s| - 1;
    if i < n {
      UnionOfMember(s[..n], f, i);
      assert s[..n][i] == s[i];
    }
  }

  /** Something is in the union exactly when some element contributes it. */
  lemma {:induction false} UnionOfWitness<T, U>(s: seq<T>, f: T -> set<U>, x: U)
    ensures x in UnionOf(s, f) <==> exists i | 0 <= i < |s| :: x in f(s[i])
  {
    if s != [] {
      var n := |s| - 1;
      UnionOfWitness(s[..n], f, x);
      if exists i | 0 <= i < |s| :: x in f(s[i]) {
        var i :| 0 <= i < |s| && x in f(s[i]);
        if i < n {
          assert s[..n][i] == s[i];
        }
      }
      if exists i | 0 <= i < n :: x in f(s[..n][i]) {
        var i :| 0 <= i < n && x in f(s[..n][i]);
        assert s[i] == s[..n][i];
      }
    }
  }

  /** `s.map(f)`. */
  function Project<T, U>(s: seq<T>, f: T -> U): (r: seq<U>)
    ensures |r| == |s| && forall i | 0 <= i < |s| :: r[i] == f(s[i])
  {
    seq(|s|, i requires 0 <= i < |s| => f(s[i]))
  }

  /** `Array.from(new Set(xs))`: first occurrences, in order. */
  function Dedupe<T(==)>(xs: seq<T>): seq<T>
  {
    if xs == [] then []
    else
      var r := Dedupe(xs[..|xs| - 1]);
      if xs[|xs| - 1] in r then r else r + [xs[|xs| - 1]]
  }

  /** The result has no repeats and the same elements. */
  lemma {:induction false} DedupeSpec<T>(xs: seq<T>)
    ensures Distinct(Dedupe(xs))
    ensures forall x :: x in Dedupe(xs) <==> x in xs
  {
    if xs != [] {
      var n := |xs| - 1;
      DedupeSpec(xs[..n]);
      if xs[n] !in Dedupe(xs[..n]) {
        DistinctSnoc(Dedupe(xs[..n]), xs[n]);
      }
      forall x
        ensures x in xs <==> x in xs[..n] || x == xs[n]
      {
        if x in xs {
          var i :| 0 <= i < |xs| && xs[i] == x;
          if i < n {
            assert xs[..n][i] == x;
          }
        }
      }
    }
  }

  /** The elements that satisfy p, in order. */
  function Filter<T(==, !new)>(s: seq<T>, p: T -> bool): (r: seq<T>)
    ensures |r| <= |s|
    ensures forall x :: x in r <==> x in s && p(x)
  {
    if s == [] then []
    else
      assert s == s[..|s| - 1] + [s[|s| - 1]];
      Filter(s[..|s| - 1], p) + (if p(s[|s| - 1]) then [s[|s| - 1]] else [])
  }

  /** Filtering keeps every element it accepts as often as it occurs, and
      no other. */
  lemma {:induction false} FilterMultiset<T(!new)>(s: seq<T>, p: T -> bool, x: T)
    ensures multiset(Filter(s, p))[x] == if p(x) then multiset(s)[x] else 0
  {
    if s != [] {
      var init, last := s[..|s| - 1], s[|s| - 1];
      FilterMultiset(init, p, x);
      assert s == init + [last];
      assert multiset(s) == multiset(init) + multiset([last]);
      assert multiset(Filter(s, p)) == multiset(Filter(init, p)) + multiset(if p(last) then [last] else []);
    }
  }

  /** Filtering keeps a sequence free of repetitions. */
  lemma {:induction false} FilterDistinct<T(!new)>(s: seq<T>, p: T -> bool)
    requires Distinct(s)
    ensures Distinct(Filter(s, p))
  {
    if s != [] {
      var init := s[..|s| - 1];
      assert Distinct(init);
      FilterDistinct(init, p);
      if p(s[|s| - 1]) {
        DistinctSnoc(Filter(init, p), s[|s| - 1]);
      }
    }
  }

  /** A filter every element passes keeps the whole sequence. */
  lemma {:induction false} FilterAll<T(!new)>(s: seq<T>, p: T -> bool)
    requires forall i | 0 <= i < |s| :: p(s[i])
    ensures Filter(s, p) == s
  {
    if s != [] {
      var init := s[..|s| - 1];
      forall i | 0 <= i < |init|
        ensures p(init[i])
      {
        assert init[i] == s[i];
      }
      FilterAll(init, p);
      FilterKeepsLast(s, p, init);
    }
  }

  lemma {:induction false} FilterKeepsLast<T(!new)>(s: seq<T>, p: T -> bool, init: seq<T>)
    requires s != [] && init == s[..|s| - 1] && p(s[|s| - 1]) && Filter(init, p) == init
    ensures Filter(s, p) == s
  {
    FilterSnoc(s, p);
    assert init + [s[|s| - 1]] == s;
  }

  lemma {:induction false} FilterSnoc<T(!new)>(s: seq<T>, p: T -> bool)
    requires s != []
    ensures Filter(s, p) == Filter(s[..|s| - 1], p) + (if p(s[|s| - 1]) then [s[|s| - 1]] else [])
  {
  }

  /** idx picks r's elements out of s at increasing positions. */
  ghost predicate Embeds<T>(idx: seq<nat>, r: seq<T>, s: seq<T>)
  {
    && |idx| == |r|
    && (forall i | 0 <= i < |idx| :: idx[i] < |s| && r[i] == s[idx[i]])
    && (forall i, j | 0 <= i < j < |idx| :: idx[i] < idx[j])
  }

  /** r is s with some elements left out and the rest in their order. */
  ghost predicate SubsequenceOf<T>(r: seq<T>, s: seq<T>)
  {
    exists idx: seq<nat> :: Embeds(idx, r, s)
  }

  /** Filtering keeps the chosen elements in their order. */
  lemma {:induction false} FilterEmbeds<T(!new)>(s: seq<T>, p: T -> bool) returns (idx: seq<nat>)
    ensures Embeds(idx, Filter(s, p), s)
  {
    if s == [] {
      idx := [];
    } else {
      var init := s[..|s| - 1];
      var inner := FilterEmbeds(init, p);
      if p(s[|s| - 1]) {
        idx := inner + [|s| - 1];
      } else {
        idx := inner;
      }
    }
  }

  lemma {:induction false} FilterSubsequence<T(!new)>(s: seq<T>, p: T -> bool)
    ensures SubsequenceOf(Filter(s, p), s)
  {
    var idx := FilterEmbeds(s, p);
  }

  /** `new Map` filled in order: each key leads to the last element with it. */
  function IndexBy<T, K>(s: seq<T>, key: T -> K): map<K, T>
  {
    if s == [] then map[]
    else IndexBy(s[..|s| - 1], key)[key(s[|s| - 1]) := s[|s| - 1]]
  }

  /** A key is present exactly when some element has it, and it leads to
      the last element that has it. */
  lemma {:induction false} IndexBySpec<T, K>(s: seq<T>, key: T -> K, k: K)
    ensures k in IndexBy(s, key) <==> exists i | 0 <= i < |s| :: key(s[i]) == k
    ensures k in IndexBy(s, key) ==>
              exists i | 0 <= i < |s| ::
                && s[i] == IndexBy(s, key)[k] && key(s[i]) == k
                && forall j | i < j < |s| :: key(s[j]) != k
  {
    if s != [] {
      var n := |s| - 1;
      var init := s[..n];
      IndexBySpec(init, key, k);
      if key(s[n]) != k {
        if exists i | 0 <= i < |s| :: key(s[i]) == k {
          var i :| 0 <= i < |s| && key(s[i]) == k;
          assert key(init[i]) == k;
        }
        if k in IndexBy(init, key) {
          var i :| 0 <= i < n && init[i] == IndexBy(init, key)[k] && key(init[i]) == k
                   && forall j | i < j < n :: key(init[j]) != k;
          assert s[i] == init[i];
          forall j | i < j < |s|
            ensures key(s[j]) != k
          {
            if j < n {
              assert s[j] == init[j];
            }
          }
        }
      }
    }
  }

  /** `findIndex(x => key(x) === k)`: the position of the first element
      with the key, -1 when there is none. */
  function FirstIndex<T, K(==)>(s: seq<T>, key: T -> K, k: K): (r: int)
    ensures -1 <= r < |s|
    ensures r >= 0 ==> key(s[r]) == k
    ensures forall j | 0 <= j < (if r < 0 then |s| else r) :: key(s[j]) != k
  {
    if s == [] then -1
    else if key(s[0]) == k then 0
    else
      var r := FirstIndex(s[1..], key, k);
      if r < 0 then -1 else r + 1
  }

  /** The elements in the opposite order. */
  function Reverse<T>(s: seq<T>): (r: seq<T>)
    ensures |r| == |s|
    ensures forall i :: 0 <= i < |s| ==> r[i] == s[|s| - 1 - i]
  {
    if s == [] then [] else Reverse(s[1..]) + [s[0]]
  }
}
